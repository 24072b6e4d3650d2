/** The sync protocol: devices that pull, reconcile and push against one append-only relay log
    (packages/db/index.js `sync()`, sync.rs, relay-mem.js).

    A device's state is the vector and the cursor that it keeps in IndexedDB. Beside each vector the
    model carries its causal history: the pushes that were merged into it, directly or through another
    blob. Devices interleave freely, a pass can be cut anywhere, and `reset` can forget the lineage. */
module Sync {
  import opened Bytes
  import opened VersionVector

  /** One blob in the log: who pushed it, its vector, and the history it was pushed with. */
  datatype Push = Push(author: DeviceId, vv: Vec, known: set<nat>)

  datatype Saved = Saved(vv: Vec, known: set<nat>, cursor: nat)

  /** Where a device stands in its `sync()` pass. */
  datatype Phase = Idle
    | Pulling(vv: Vec, known: set<nat>, next: nat, end: nat)
    | Published(vv: Vec, known: set<nat>)
    | Finished(vv: Vec, known: set<nat>, cursor: nat)
    | VectorSaved(cursor: nat)

  datatype World = World(log: seq<Push>, saved: map<DeviceId, Saved>, phase: map<DeviceId, Phase>) {
    function SavedOf(x: DeviceId): Saved {
      if x in saved then saved[x] else Saved([], {}, 0)
    }

    function PhaseOf(x: DeviceId): Phase {
      if x in phase then phase[x] else Idle
    }
  }

  /** One step of one device. `Cut` drops everything a pass had not saved;
      `CutReset` is a reset that lost power after it deleted the vector and before it deleted the
      cursor. */
  datatype Step = Begin | Pull | Put | PullOnly | ListAll | SaveVector | SaveCursor | Cut | Reset | CutReset

  /** A local vector after meeting an incoming one: merged unless the incoming one is stale. */
  function Met(local: Vec, incoming: Vec): Vec {
    if Reconcile(local, incoming).Stale? then local else Merge(local, incoming)
  }

  function MetHistory(local: Vec, known: set<nat>, p: Push): set<nat> {
    if Reconcile(local, p.vv).Stale? then known else known + p.known
  }

  /** The effect of a step; a step that is not enabled changes nothing. */
  function Next(w: World, x: DeviceId, step: Step): World {
    match (step, w.PhaseOf(x))
    case (Begin, Idle) =>
      var s := w.SavedOf(x);
      w.(phase := w.phase[x := Pulling(s.vv, s.known, s.cursor, Max(s.cursor, |w.log|))])
    case (Pull, Pulling(vv, known, next, end)) =>
      if next < end && next < |w.log| then
        w.(phase := w.phase[x := Pulling(Met(vv, w.log[next].vv), MetHistory(vv, known, w.log[next]), next + 1, end)])
      else w
    case (Put, Pulling(vv, known, next, end)) =>
      if next == end then
        var vv', known' := Incremented(vv, x), known + {|w.log|};
        w.(log := w.log + [Push(x, vv', known')], phase := w.phase[x := Published(vv', known')])
      else w
    case (PullOnly, Pulling(vv, known, next, end)) =>
      if next == end then w.(phase := w.phase[x := Finished(vv, known, end)]) else w
    case (ListAll, Published(vv, known)) => w.(phase := w.phase[x := Finished(vv, known, |w.log|)])
    case (SaveVector, Finished(vv, known, cursor)) =>
      w.(saved := w.saved[x := Saved(vv, known, w.SavedOf(x).cursor)], phase := w.phase[x := VectorSaved(cursor)])
    case (SaveCursor, VectorSaved(cursor)) =>
      w.(saved := w.saved[x := w.SavedOf(x).(cursor := cursor)], phase := w.phase[x := Idle])
    case (Cut, _) => w.(phase := w.phase[x := Idle])
    case (Reset, Idle) => w.(saved := w.saved[x := Saved([], {}, 0)])
    case (CutReset, Idle) => w.(saved := w.saved[x := Saved([], {}, w.SavedOf(x).cursor)])
    case _ => w
  }

  function Run(w: World, steps: seq<(DeviceId, Step)>): World
    decreases |steps|
  {
    if steps == [] then w else Run(Next(w, steps[0].0, steps[0].1), steps[1..])
  }

  const START: World := World([], map[], map[])

  // ---------------------------------------------------------------- what a component counts

  /** The pushes of one device. */
  function Count(log: seq<Push>, x: DeviceId): nat {
    if log == [] then 0 else Count(log[..|log| - 1], x) + if log[|log| - 1].author == x then 1 else 0
  }

  /** Which of its author's pushes a blob is, from one. */
  function Rank(log: seq<Push>, i: nat): nat
    requires i < |log|
  {
    Count(log[..i + 1], log[i].author)
  }

  lemma {:induction false} CountBounded(log: seq<Push>, x: DeviceId)
    ensures Count(log, x) <= |log|
  {
    if log != [] { CountBounded(log[..|log| - 1], x); }
  }

  lemma {:induction false} RankWithin(log: seq<Push>, i: nat)
    requires i < |log|
    ensures 1 <= Rank(log, i) <= Count(log, log[i].author)
  {
    if i + 1 == |log| {
      assert log[..i + 1] == log;
    } else {
      var shorter := log[..|log| - 1];
      RankWithin(shorter, i);
      assert shorter[..i + 1] == log[..i + 1];
    }
  }

  /** Every rank up to the count is somebody's. */
  lemma {:induction false} RankAttained(log: seq<Push>, x: DeviceId, k: nat) returns (i: nat)
    requires 1 <= k <= Count(log, x)
    ensures i < |log| && log[i].author == x && Rank(log, i) == k
  {
    var n := |log| - 1;
    if log[n].author == x && k == Count(log, x) {
      i := n;
      assert log[..n + 1] == log;
    } else {
      i := RankAttained(log[..n], x, k);
      assert log[..n][..i + 1] == log[..i + 1];
    }
  }

  lemma CountAppends(log: seq<Push>, p: Push, x: DeviceId)
    ensures Count(log + [p], x) == Count(log, x) + if p.author == x then 1 else 0
  {
    assert (log + [p])[..|log|] == log;
  }

  lemma RankAppends(log: seq<Push>, p: Push, i: nat)
    requires i < |log|
    ensures Rank(log + [p], i) == Rank(log, i)
  {
    assert (log + [p])[..i + 1] == log[..i + 1];
  }

  // ---------------------------------------------------------------- the invariant

  /** A vector tells exactly which pushes are in its history, and the history is closed. */
  ghost predicate Tells(log: seq<Push>, vv: Vec, known: set<nat>) {
    && Canonical(vv)
    && (forall i <- known :: i < |log|)
    && (forall i: nat :: i < |log| ==> (i in known <==> Rank(log, i) <= Get(vv, log[i].author)))
    && (forall x: DeviceId :: Get(vv, x) <= Count(log, x))
    && (forall i <- known :: i < |log| ==> log[i].known <= known)
  }

  ghost predicate LogTells(log: seq<Push>) {
    forall j: nat :: j < |log| ==>
      Tells(log, log[j].vv, log[j].known) && j in log[j].known && forall i <- log[j].known :: i <= j
  }

  /** Everything `x` pushed before `upTo` is in `known`. */
  ghost predicate OwnKnown(log: seq<Push>, x: DeviceId, known: set<nat>, upTo: nat) {
    forall i: nat :: i < upTo && i < |log| && log[i].author == x ==> i in known
  }

  /** Push `i` is in the history of some blob in this range of the log. */
  ghost predicate Carried(log: seq<Push>, lo: nat, hi: nat, i: nat) {
    exists j: nat :: lo <= j < hi && j < |log| && i in log[j].known
  }

  /** Everything `x` pushed before its cursor is known or is about to be pulled again. */
  ghost predicate OwnInReach(log: seq<Push>, x: DeviceId, known: set<nat>, cursor: nat, end: nat) {
    forall i: nat :: i < cursor && i < |log| && log[i].author == x ==> i in known || Carried(log, cursor, end, i)
  }

  ghost predicate SavedOk(log: seq<Push>, x: DeviceId, s: Saved) {
    Tells(log, s.vv, s.known) && s.cursor <= |log| && OwnInReach(log, x, s.known, s.cursor, |log|)
  }

  ghost predicate PhaseOk(log: seq<Push>, x: DeviceId, p: Phase, s: Saved) {
    match p
    case Idle => true
    case Pulling(vv, known, next, end) =>
      && Tells(log, vv, known) && s.cursor <= next <= end <= |log| && OwnInReach(log, x, known, next, end)
      && (forall i: nat :: end <= i < |log| ==> log[i].author != x)
    case Published(vv, known) => Tells(log, vv, known) && OwnKnown(log, x, known, |log|)
    case Finished(vv, known, cursor) =>
      Tells(log, vv, known) && s.cursor <= cursor <= |log| && OwnKnown(log, x, known, cursor)
    case VectorSaved(cursor) => s.cursor <= cursor <= |log| && OwnKnown(log, x, s.known, cursor)
  }

  ghost predicate DeviceOk(w: World, x: DeviceId) {
    SavedOk(w.log, x, w.SavedOf(x)) && PhaseOk(w.log, x, w.PhaseOf(x), w.SavedOf(x))
  }

  ghost predicate Ok(w: World) {
    LogTells(w.log) && forall x: DeviceId :: DeviceOk(w, x)
  }

  // ---------------------------------------------------------------- every step keeps it

  /** History is exactly what the vectors order: one state is at most another when its history is. */
  lemma LeqIffHistory(log: seq<Push>, a: Vec, ka: set<nat>, b: Vec, kb: set<nat>)
    requires Tells(log, a, ka) && Tells(log, b, kb)
    ensures Leq(a, b) <==> ka <= kb
  {
    if Leq(a, b) {
      forall i | i in ka ensures i in kb { assert Get(a, log[i].author) <= Get(b, log[i].author); }
    }
    if ka <= kb {
      forall x: DeviceId ensures Get(a, x) <= Get(b, x) {
        if Get(a, x) > 0 {
          var i := RankAttained(log, x, Get(a, x));
          assert i in ka;
        }
      }
    }
  }

  lemma MetTells(log: seq<Push>, vv: Vec, known: set<nat>, p: Push)
    requires Tells(log, vv, known) && Tells(log, p.vv, p.known)
    ensures Tells(log, Met(vv, p.vv), MetHistory(vv, known, p))
    ensures MetHistory(vv, known, p) == known + p.known
  {
    RelationIsTheOrder(p.vv, vv);
    LeqIffHistory(log, p.vv, p.known, vv, known);
    MergeIsMax(vv, p.vv);
    if Reconcile(vv, p.vv).Stale? { assert known + p.known == known; }
  }

  lemma TellsAppends(log: seq<Push>, p: Push, vv: Vec, known: set<nat>)
    requires Tells(log, vv, known)
    ensures Tells(log + [p], vv, known)
  {
    var log' := log + [p];
    forall i: nat | i < |log'| ensures i in known <==> Rank(log', i) <= Get(vv, log'[i].author) {
      if i < |log| {
        RankAppends(log, p, i);
      } else {
        assert log'[..i + 1] == log';
        CountAppends(log, p, p.author);
      }
    }
    forall x: DeviceId ensures Get(vv, x) <= Count(log', x) { CountAppends(log, p, x); }
  }

  lemma PutRanks(log: seq<Push>, x: DeviceId, vv: Vec, known: set<nat>, p: Push, i: nat)
    requires Tells(log, vv, known) && OwnKnown(log, x, known, |log|) && |log| < U64_MAX
    requires p == Push(x, Incremented(vv, x), known + {|log|}) && i <= |log|
    ensures i in p.known <==> Rank(log + [p], i) <= Get(p.vv, (log + [p])[i].author)
  {
    OwnCount(log, x, vv, known);
    CountBounded(log, x);
    IncrementKeeps(vv, x);
    hide Incremented, Count, Get, Canonical;
    if i < |log| {
      RankAppends(log, p, i);
      if log[i].author == x { RankWithin(log, i); }
    } else {
      assert (log + [p])[..i + 1] == log + [p];
      CountAppends(log, p, x);
    }
  }

  /** The blob a device publishes once it knows all its own earlier ones. */
  lemma PutTells(log: seq<Push>, x: DeviceId, vv: Vec, known: set<nat>)
    requires Tells(log, vv, known) && OwnKnown(log, x, known, |log|) && |log| < U64_MAX
    ensures
      var vv', known' := Incremented(vv, x), known + {|log|};
      Tells(log + [Push(x, vv', known')], vv', known')
  {
    hide Incremented, Count, Get, Rank;
    var p := Push(x, Incremented(vv, x), known + {|log|});
    var log' := log + [p];
    IncrementKeeps(vv, x);
    forall i: nat | i < |log'| ensures i in p.known <==> Rank(log', i) <= Get(p.vv, log'[i].author) {
      PutRanks(log, x, vv, known, p, i);
    }
    forall y: DeviceId ensures Get(p.vv, y) <= Count(log', y) { PutCounts(log, x, vv, known, p, y); }
    hide Canonical;
    forall i | i in p.known ensures i < |log'| && log'[i].known <= p.known {
      if i < |log| { assert i in known && log[i].known <= known; }
    }
  }

  lemma PutCounts(log: seq<Push>, x: DeviceId, vv: Vec, known: set<nat>, p: Push, y: DeviceId)
    requires Tells(log, vv, known) && OwnKnown(log, x, known, |log|) && |log| < U64_MAX
    requires p == Push(x, Incremented(vv, x), known + {|log|})
    ensures Get(p.vv, y) <= Count(log + [p], y)
  {
    OwnCount(log, x, vv, known);
    CountBounded(log, x);
    IncrementKeeps(vv, x);
    CountAppends(log, p, y);
    hide Incremented, Count, Get, Canonical, Rank;
  }

  /** Knowing all of one's own pushes means counting them all. */
  lemma OwnCount(log: seq<Push>, x: DeviceId, vv: Vec, known: set<nat>)
    requires Tells(log, vv, known) && OwnKnown(log, x, known, |log|)
    ensures Get(vv, x) == Count(log, x)
  {
    if Count(log, x) > 0 { var i := RankAttained(log, x, Count(log, x)); }
  }

  lemma ReachAppends(log: seq<Push>, p: Push, y: DeviceId, known: set<nat>, cursor: nat, end: nat)
    requires cursor <= end <= |log| && OwnInReach(log, y, known, cursor, end)
    ensures OwnInReach(log + [p], y, known, cursor, end) && OwnInReach(log + [p], y, known, cursor, |log| + 1)
  {
    forall i: nat | i < cursor && (log + [p])[i].author == y
      ensures i in known || (Carried(log + [p], cursor, end, i) && Carried(log + [p], cursor, |log| + 1, i))
    {
      if i !in known {
        var j: nat :| cursor <= j < end && j < |log| && i in log[j].known;
        assert (log + [p])[j] == log[j];
      }
    }
  }

  lemma PutKeepsSaved(log: seq<Push>, p: Push, y: DeviceId, s: Saved)
    requires SavedOk(log, y, s)
    ensures SavedOk(log + [p], y, s)
  {
    TellsAppends(log, p, s.vv, s.known);
    ReachAppends(log, p, y, s.known, s.cursor, |log|);
  }

  lemma PutKeepsPhase(log: seq<Push>, p: Push, y: DeviceId, s: Saved, phase: Phase)
    requires PhaseOk(log, y, phase, s) && p.author != y
    ensures PhaseOk(log + [p], y, phase, s)
  {
    hide Tells, OwnInReach, OwnKnown;
    match phase
    case Idle =>
    case Pulling(vv, known, next, end) =>
      TellsAppends(log, p, vv, known);
      ReachAppends(log, p, y, known, next, end);
      OthersAppend(log, p, y, end);
    case Published(vv, known) =>
      TellsAppends(log, p, vv, known);
      OwnAppends(log, p, y, known, |log|);
    case Finished(vv, known, cursor) =>
      TellsAppends(log, p, vv, known);
      OwnAppends(log, p, y, known, cursor);
    case VectorSaved(cursor) => OwnAppends(log, p, y, s.known, cursor);
  }

  lemma OwnAppends(log: seq<Push>, p: Push, y: DeviceId, known: set<nat>, upTo: nat)
    requires upTo <= |log| && OwnKnown(log, y, known, upTo) && p.author != y
    ensures OwnKnown(log + [p], y, known, upTo) && (upTo == |log| ==> OwnKnown(log + [p], y, known, |log| + 1))
  {
  }

  lemma OthersAppend(log: seq<Push>, p: Push, y: DeviceId, end: nat)
    requires (forall i: nat :: end <= i < |log| ==> log[i].author != y) && p.author != y
    ensures forall i: nat :: end <= i < |log| + 1 ==> (log + [p])[i].author != y
  {
  }

  lemma PutKeepsLog(log: seq<Push>, x: DeviceId, vv: Vec, known: set<nat>)
    requires LogTells(log) && Tells(log, vv, known) && OwnKnown(log, x, known, |log|) && |log| < U64_MAX
    ensures LogTells(log + [Push(x, Incremented(vv, x), known + {|log|})])
  {
    var p := Push(x, Incremented(vv, x), known + {|log|});
    PutTells(log, x, vv, known);
    forall j: nat | j < |log| + 1
      ensures
        var q := (log + [p])[j];
        Tells(log + [p], q.vv, q.known) && j in q.known && forall i <- q.known :: i <= j
    {
      if j < |log| { TellsAppends(log, p, log[j].vv, log[j].known); }
    }
  }

  lemma PutKeeps(w: World, x: DeviceId)
    requires Ok(w) && |w.log| < U64_MAX
    ensures Ok(Next(w, x, Put))
  {
    hide SavedOk, PhaseOk;
    var phase, w' := w.PhaseOf(x), Next(w, x, Put);
    assert DeviceOk(w, x);
    if phase.Pulling? && phase.next == phase.end {
      PutKeepsOwn(w.log, x, phase, w.SavedOf(x));
      var p := Push(x, Incremented(phase.vv, x), phase.known + {|w.log|});
      forall y: DeviceId ensures DeviceOk(w', y) {
        assert DeviceOk(w, y);
        PutKeepsSaved(w.log, p, y, w.SavedOf(y));
        if y != x { PutKeepsPhase(w.log, p, y, w.SavedOf(y), w.PhaseOf(y)); }
      }
    }
  }

  lemma PutKeepsOwn(log: seq<Push>, x: DeviceId, phase: Phase, s: Saved)
    requires LogTells(log) && phase.Pulling? && phase.next == phase.end && PhaseOk(log, x, phase, s) && |log| < U64_MAX
    ensures
      var p := Push(x, Incremented(phase.vv, x), phase.known + {|log|});
      LogTells(log + [p]) && PhaseOk(log + [p], x, Published(p.vv, p.known), s)
  {
    hide Tells, LogTells;
    assert OwnKnown(log, x, phase.known, |log|);
    PutKeepsLog(log, x, phase.vv, phase.known);
    PutTells(log, x, phase.vv, phase.known);
  }

  lemma PullKeeps(w: World, x: DeviceId)
    requires Ok(w)
    ensures Ok(Next(w, x, Pull))
  {
    hide SavedOk, PhaseOk;
    var phase, w' := w.PhaseOf(x), Next(w, x, Pull);
    assert DeviceOk(w, x);
    if phase.Pulling? && phase.next < phase.end {
      PullKeepsOwn(w.log, x, phase, w.SavedOf(x));
      forall y: DeviceId ensures DeviceOk(w', y) {
        assert DeviceOk(w, y);
      }
    }
  }

  lemma PullKeepsOwn(log: seq<Push>, x: DeviceId, phase: Phase, s: Saved)
    requires LogTells(log) && phase.Pulling? && phase.next < phase.end && PhaseOk(log, x, phase, s)
    ensures phase.next < |log|
    ensures
      var p := log[phase.next];
      PhaseOk(log, x, Pulling(Met(phase.vv, p.vv), MetHistory(phase.vv, phase.known, p), phase.next + 1, phase.end), s)
  {
    hide Tells, Met, MetHistory;
    var p := log[phase.next];
    MetTells(log, phase.vv, phase.known, p);
    assert phase.next in p.known;
    forall i: nat | i < phase.next + 1 && log[i].author == x
      ensures i in phase.known + p.known || Carried(log, phase.next + 1, phase.end, i)
    {
      if i < phase.next && i !in phase.known {
        var j: nat :| phase.next <= j < phase.end && j < |log| && i in log[j].known;
        if j > phase.next { assert Carried(log, phase.next + 1, phase.end, i); }
      }
    }
  }

  lemma LocalKeeps(w: World, x: DeviceId, step: Step)
    requires Ok(w) && !step.Pull? && !step.Put? && !step.CutReset?
    ensures Ok(Next(w, x, step))
  {
    var w' := Next(w, x, step);
    EmptyTells(w.log);
    hide Tells;
    assert DeviceOk(w, x);
    assert w'.log == w.log;
    forall y: DeviceId ensures DeviceOk(w', y) {
      assert DeviceOk(w, y);
      assert y != x ==> w'.SavedOf(y) == w.SavedOf(y) && w'.PhaseOf(y) == w.PhaseOf(y);
    }
  }

  lemma EmptyTells(log: seq<Push>)
    ensures Tells(log, [], {})
  {
    forall i: nat | i < |log| ensures Rank(log, i) > Get([], log[i].author) { RankWithin(log, i); }
  }

  /** A reset of this device that is cut between its deletions forgets none of its pushes for good: each
      one below the cursor is in the history of a blob at or behind it. */
  ghost predicate Harmless(log: seq<Push>, x: DeviceId, cursor: nat) {
    forall i: nat :: i < cursor && i < |log| && log[i].author == x ==> Carried(log, cursor, |log|, i)
  }

  /** Resets are cut only where that is harmless. */
  ghost predicate Clean(w: World, steps: seq<(DeviceId, Step)>)
    decreases |steps|
  {
    steps == []
    || (var (x, step) := steps[0];
        && (step.CutReset? && w.PhaseOf(x).Idle? ==> Harmless(w.log, x, w.SavedOf(x).cursor))
        && Clean(Next(w, x, step), steps[1..]))
  }

  lemma NextGrows(w: World, x: DeviceId, step: Step)
    ensures |Next(w, x, step).log| <= |w.log| + 1
  {
  }

  /** A cut reset keeps the invariant exactly where it is harmless. */
  lemma CutResetKeepsIff(w: World, x: DeviceId)
    requires Ok(w)
    ensures Ok(Next(w, x, CutReset)) <==> w.PhaseOf(x).Idle? ==> Harmless(w.log, x, w.SavedOf(x).cursor)
  {
    var w' := Next(w, x, CutReset);
    EmptyTells(w.log);
    hide Tells, LogTells;
    assert DeviceOk(w, x);
    if w.PhaseOf(x).Idle? {
      assert w'.log == w.log && w'.SavedOf(x) == Saved([], {}, w.SavedOf(x).cursor);
      if Ok(w') { assert DeviceOk(w', x); }
      if Harmless(w.log, x, w.SavedOf(x).cursor) {
        forall y: DeviceId ensures DeviceOk(w', y) {
          assert DeviceOk(w, y);
          assert y != x ==> w'.SavedOf(y) == w.SavedOf(y) && w'.PhaseOf(y) == w.PhaseOf(y);
        }
      }
    }
  }

  lemma CleanStep(w: World, steps: seq<(DeviceId, Step)>)
    requires steps != [] && Ok(w) && Clean(w, steps) && |w.log| + |steps| < U64_MAX
    ensures
      var w' := Next(w, steps[0].0, steps[0].1);
      Ok(w') && Clean(w', steps[1..]) && |w'.log| + |steps[1..]| < U64_MAX
  {
    hide Ok, Next, Harmless;
    var (x, step) := steps[0];
    if step.Pull? {
      PullKeeps(w, x);
    } else if step.Put? {
      PutKeeps(w, x);
    } else if step.CutReset? {
      CutResetKeepsIff(w, x);
    } else {
      LocalKeeps(w, x, step);
    }
    NextGrows(w, x, step);
  }

  /** Over every run in which resets are cut only where that is harmless, the invariant holds. */
  lemma {:induction false} RunKeeps(w: World, steps: seq<(DeviceId, Step)>)
    requires Ok(w) && Clean(w, steps) && |w.log| + |steps| < U64_MAX
    ensures Ok(Run(w, steps))
    decreases |steps|
  {
    if steps != [] {
      hide Ok, Next, Clean;
      CleanStep(w, steps);
      RunKeeps(Next(w, steps[0].0, steps[0].1), steps[1..]);
    }
  }

  lemma StartIsOk()
    ensures Ok(START)
  {
    EmptyTells([]);
  }

  // ---------------------------------------------------------------- the theorems

  /** Over every interleaving, one pushed vector is at most another exactly when the first blob is in
      the second's causal history, and no two pushed vectors are equal. */
  lemma VectorsAreCausality(steps: seq<(DeviceId, Step)>, i: nat, j: nat)
    requires Clean(START, steps) && |steps| < U64_MAX
    requires i < |Run(START, steps).log| && j < |Run(START, steps).log|
    ensures
      var log := Run(START, steps).log;
      && (Leq(log[i].vv, log[j].vv) <==> i in log[j].known)
      && (log[i].vv == log[j].vv <==> i == j)
  {
    StartIsOk();
    RunKeeps(START, steps);
    var log := Run(START, steps).log;
    LeqIffHistory(log, log[i].vv, log[i].known, log[j].vv, log[j].known);
    LeqIffHistory(log, log[j].vv, log[j].known, log[i].vv, log[i].known);
    assert i in log[i].known && j in log[j].known;
  }

  /** Over every interleaving, what a device decides about an incoming blob is exactly the causal
      relation between its own history and the blob's. */
  lemma OutcomeIsCausality(steps: seq<(DeviceId, Step)>, x: DeviceId, j: nat)
    requires Clean(START, steps) && |steps| < U64_MAX
    requires j < |Run(START, steps).log| && Run(START, steps).PhaseOf(x).Pulling?
    ensures
      var w := Run(START, steps);
      var (mine, theirs) := (w.PhaseOf(x).known, w.log[j].known);
      match Reconcile(w.PhaseOf(x).vv, w.log[j].vv)
      case Stale => j in mine && theirs <= mine
      case FastForward => j !in mine && mine < theirs
      case Fork(_) => j !in mine && !(mine <= theirs)
  {
    StartIsOk();
    RunKeeps(START, steps);
    var w := Run(START, steps);
    assert DeviceOk(w, x);
    hide Run, Next, Clean;
    HistoriesDecide(w.log, w.PhaseOf(x).vv, w.PhaseOf(x).known, j);
  }

  lemma TellsCanonical(log: seq<Push>, vv: Vec, known: set<nat>)
    requires Tells(log, vv, known)
    ensures Canonical(vv)
  {
  }

  lemma HistoriesDecide(log: seq<Push>, vv: Vec, known: set<nat>, j: nat)
    requires Tells(log, vv, known) && LogTells(log) && j < |log|
    ensures
      match Reconcile(vv, log[j].vv)
      case Stale => j in known && log[j].known <= known
      case FastForward => j !in known && known < log[j].known
      case Fork(_) => j !in known && !(known <= log[j].known)
  {
    hide Tells, LogTells, Leq, Relate;
    var blob := log[j];
    TellsAt(log, j);
    KnowsNoFuture(log, vv, known, j);
    LeqIffHistory(log, vv, known, blob.vv, blob.known);
    LeqIffHistory(log, blob.vv, blob.known, vv, known);
    TellsCanonical(log, vv, known);
    TellsCanonical(log, blob.vv, blob.known);
    RelationIsTheOrder(blob.vv, vv);
  }


  // ---------------------------------------------------------------- a reset cut between its deletions

  /** `n` steps of one kind by one device. */
  function Repeat(x: DeviceId, step: Step, n: nat): seq<(DeviceId, Step)> {
    seq(n, _ => (x, step))
  }

  /** What a device knows after it pulled blobs `lo` up to `hi` with an empty vector. */
  function Pulled(log: seq<Push>, lo: nat, hi: nat): (Vec, set<nat>)
    requires lo <= hi <= |log|
    decreases hi
  {
    if lo == hi then ([], {})
    else
      var (vv, known) := Pulled(log, lo, hi - 1);
      (Met(vv, log[hi - 1].vv), MetHistory(vv, known, log[hi - 1]))
  }

  /** The blob that a device pushes in its first pass after a reset that was cut at this cursor. */
  function Relapse(log: seq<Push>, x: DeviceId, cursor: nat): Push
    requires cursor <= |log|
  {
    var (vv, known) := Pulled(log, cursor, |log|);
    Push(x, Incremented(vv, x), known + {|log|})
  }

  /** A cut reset and then a whole pass: what the device then has of the log is what the blobs behind its
      cursor tell. */
  function ResetAndPass(w: World, x: DeviceId): seq<(DeviceId, Step)> {
    [(x, CutReset), (x, Begin)] + Repeat(x, Pull, |w.log| - Min(w.SavedOf(x).cursor, |w.log|)) + [(x, Put)]
  }

  lemma RunAppends(w: World, a: seq<(DeviceId, Step)>, b: seq<(DeviceId, Step)>)
    ensures Run(w, a + b) == Run(Run(w, a), b)
    decreases |a|
  {
    if a == [] {
      assert a + b == b;
    } else {
      hide Next;
      assert (a + b)[1..] == a[1..] + b;
      RunAppends(Next(w, a[0].0, a[0].1), a[1..], b);
    }
  }

  lemma PullOne(w: World, x: DeviceId, vv: Vec, known: set<nat>, next: nat)
    requires w.PhaseOf(x) == Pulling(vv, known, next, |w.log|) && next < |w.log|
    ensures
      var w' := Next(w, x, Pull);
      && w'.log == w.log
      && w'.PhaseOf(x) == Pulling(Met(vv, w.log[next].vv), MetHistory(vv, known, w.log[next]), next + 1, |w.log|)
  {
    hide Met, MetHistory;
  }

  lemma RepeatSnoc(x: DeviceId, step: Step, n: nat)
    requires n > 0
    ensures Repeat(x, step, n) == Repeat(x, step, n - 1) + [(x, step)]
  {
  }

  lemma {:induction false} PullsReach(w: World, x: DeviceId, lo: nat, n: nat)
    requires lo + n <= |w.log| && w.PhaseOf(x) == Pulling([], {}, lo, |w.log|)
    ensures
      var w' := Run(w, Repeat(x, Pull, n));
      var (vv, known) := Pulled(w.log, lo, lo + n);
      w'.log == w.log && w'.PhaseOf(x) == Pulling(vv, known, lo + n, |w.log|)
    decreases n
  {
    if n == 0 {
      hide Next, Met, MetHistory;
      assert Repeat(x, Pull, 0) == [];
    } else {
      hide *;
      PullsReach(w, x, lo, n - 1);
      RepeatSnoc(x, Pull, n);
      RunAppends(w, Repeat(x, Pull, n - 1), [(x, Pull)]);
      var w' := Run(w, Repeat(x, Pull, n - 1));
      RunOne(w', (x, Pull));
      PulledOne(w.log, lo, lo + n);
      var (vv, known) := Pulled(w.log, lo, lo + n - 1);
      PullOne(w', x, vv, known, lo + n - 1);
    }
  }

  lemma RunTwo(w: World, a: (DeviceId, Step), b: (DeviceId, Step), rest: seq<(DeviceId, Step)>)
    ensures Run(w, [a, b] + rest) == Run(Next(Next(w, a.0, a.1), b.0, b.1), rest)
  {
    hide Next;
    assert ([a, b] + rest)[1..] == [b] + rest && ([b] + rest)[1..] == rest;
    assert Run(w, [a, b] + rest) == Run(Next(w, a.0, a.1), [b] + rest);
  }

  lemma RunOne(w: World, a: (DeviceId, Step))
    ensures Run(w, [a]) == Next(w, a.0, a.1)
  {
    hide Next;
    assert [a][1..] == [];
  }

  lemma BeginAfterCutReset(w: World, x: DeviceId)
    requires w.PhaseOf(x).Idle? && w.SavedOf(x).cursor <= |w.log|
    ensures
      var w2 := Next(Next(w, x, CutReset), x, Begin);
      w2.log == w.log && w2.PhaseOf(x) == Pulling([], {}, w.SavedOf(x).cursor, |w.log|)
  {
  }

  lemma PutPushes(w: World, x: DeviceId, vv: Vec, known: set<nat>)
    requires w.PhaseOf(x) == Pulling(vv, known, |w.log|, |w.log|)
    ensures Next(w, x, Put).log == w.log + [Push(x, Incremented(vv, x), known + {|w.log|})]
  {
    hide Incremented;
  }

  lemma ResetAndPassPushes(w: World, x: DeviceId)
    requires w.PhaseOf(x).Idle? && w.SavedOf(x).cursor <= |w.log|
    ensures Run(w, ResetAndPass(w, x)).log == w.log + [Relapse(w.log, x, w.SavedOf(x).cursor)]
  {
    hide *;
    var c := w.SavedOf(x).cursor;
    var n := |w.log| - c;
    var w2 := Next(Next(w, x, CutReset), x, Begin);
    var pulls := Repeat(x, Pull, n);
    BeginAfterCutReset(w, x);
    PullsReach(w2, x, c, n);
    var w3 := Run(w2, pulls);
    var (vv, known) := Pulled(w.log, c, |w.log|);
    PutPushes(w3, x, vv, known);
    RelapseIs(w.log, x, c, vv, known);
    PassIs(w, x);
    RunTwo(w, (x, CutReset), (x, Begin), pulls + [(x, Put)]);
    RunAppends(w2, pulls, [(x, Put)]);
    RunOne(w3, (x, Put));
  }

  lemma PassIs(w: World, x: DeviceId)
    requires w.SavedOf(x).cursor <= |w.log|
    ensures ResetAndPass(w, x) == [(x, CutReset), (x, Begin)] + (Repeat(x, Pull, |w.log| - w.SavedOf(x).cursor) + [(x, Put)])
  {
    hide Repeat;
  }

  lemma CarriedSnoc(log: seq<Push>, lo: nat, hi: nat, i: nat)
    requires lo < hi <= |log|
    ensures Carried(log, lo, hi, i) <==> Carried(log, lo, hi - 1, i) || i in log[hi - 1].known
  {
  }

  lemma TellsAt(log: seq<Push>, j: nat)
    requires LogTells(log) && j < |log|
    ensures Tells(log, log[j].vv, log[j].known)
  {
    hide Tells;
  }

  lemma PulledOne(log: seq<Push>, lo: nat, hi: nat)
    requires lo < hi <= |log|
    ensures
      var (vv, known) := Pulled(log, lo, hi - 1);
      Pulled(log, lo, hi) == (Met(vv, log[hi - 1].vv), MetHistory(vv, known, log[hi - 1]))
  {
    hide Met, MetHistory;
  }

  lemma PulledNext(log: seq<Push>, lo: nat, hi: nat, vv: Vec, known: set<nat>)
    requires LogTells(log) && lo < hi <= |log| && Pulled(log, lo, hi - 1) == (vv, known)
    requires Tells(log, vv, known) && forall i: nat :: i in known <==> Carried(log, lo, hi - 1, i)
    ensures Tells(log, Pulled(log, lo, hi).0, Pulled(log, lo, hi).1)
    ensures forall i: nat :: i in Pulled(log, lo, hi).1 <==> Carried(log, lo, hi, i)
  {
    hide *;
    PulledOne(log, lo, hi);
    TellsAt(log, hi - 1);
    MetTells(log, vv, known, log[hi - 1]);
    forall i: nat ensures i in Pulled(log, lo, hi).1 <==> Carried(log, lo, hi, i) {
      CarriedSnoc(log, lo, hi, i);
    }
  }

  lemma {:induction false} PulledTells(log: seq<Push>, lo: nat, hi: nat)
    requires LogTells(log) && lo <= hi <= |log|
    ensures Tells(log, Pulled(log, lo, hi).0, Pulled(log, lo, hi).1)
    ensures forall i: nat :: i in Pulled(log, lo, hi).1 <==> Carried(log, lo, hi, i)
    decreases hi
  {
    hide Tells, LogTells, Met, MetHistory;
    if lo == hi {
      EmptyTells(log);
    } else {
      PulledTells(log, lo, hi - 1);
      var (vv, known) := Pulled(log, lo, hi - 1);
      PulledNext(log, lo, hi, vv, known);
    }
  }

  /** After a reset cut between its deletions and the next whole pass, every blob's vector still tells its
      history exactly when the device had pushed nothing below its cursor that no blob at or behind the
      cursor carries. */
  lemma CutResetIsSafeIff(w: World, x: DeviceId)
    requires Ok(w) && w.PhaseOf(x).Idle? && |w.log| < U64_MAX
    ensures LogTells(Run(w, ResetAndPass(w, x)).log) <==> Harmless(w.log, x, w.SavedOf(x).cursor)
  {
    assert DeviceOk(w, x);
    ResetAndPassPushes(w, x);
    hide Run, Next;
    RelapseTellsIff(w.log, x, w.SavedOf(x).cursor);
  }

  lemma LastTells(log: seq<Push>, p: Push)
    requires LogTells(log + [p])
    ensures Tells(log + [p], p.vv, p.known)
  {
    hide Tells;
    assert (log + [p])[|log|] == p;
  }

  lemma RelapseTellsIff(log: seq<Push>, x: DeviceId, cursor: nat)
    requires LogTells(log) && cursor <= |log| && |log| < U64_MAX
    ensures LogTells(log + [Relapse(log, x, cursor)]) <==> Harmless(log, x, cursor)
  {
    hide Tells, LogTells, Pulled, Harmless, OwnKnown;
    var (vv, known) := Pulled(log, cursor, |log|);
    PulledTells(log, cursor, |log|);
    var p := Relapse(log, x, cursor);
    OwnAheadKnown(log, x, cursor, known);
    if Harmless(log, x, cursor) {
      PutKeepsLog(log, x, vv, known);
    }
    if LogTells(log + [p]) {
      LastTells(log, p);
      RelapseCounts(log, x, vv, known, p);
    }
  }

  /** The device knows all its own pushes exactly when the cut reset was harmless. */
  lemma OwnAheadKnown(log: seq<Push>, x: DeviceId, cursor: nat, known: set<nat>)
    requires LogTells(log) && cursor <= |log|
    requires forall i: nat :: i in known <==> Carried(log, cursor, |log|, i)
    ensures OwnKnown(log, x, known, |log|) <==> Harmless(log, x, cursor)
  {
    hide Tells;
    forall i: nat | cursor <= i < |log| ensures i in known {
      assert i in log[i].known;
    }
  }

  /** A vector that says all of `x`'s pushes knows them. */
  lemma FullCountKnows(log: seq<Push>, x: DeviceId, vv: Vec, known: set<nat>)
    requires Tells(log, vv, known) && Get(vv, x) >= Count(log, x)
    ensures OwnKnown(log, x, known, |log|)
  {
    hide Count, Get, Canonical;
    forall i: nat | i < |log| && log[i].author == x ensures i in known { RankWithin(log, i); }
  }

  /** If the new blob's vector counts its own pushes right, then so did the vector it was made from. */
  lemma RelapseCounts(log: seq<Push>, x: DeviceId, vv: Vec, known: set<nat>, p: Push)
    requires Tells(log, vv, known) && p == Push(x, Incremented(vv, x), known + {|log|}) && |log| < U64_MAX
    requires Tells(log + [p], p.vv, p.known)
    ensures OwnKnown(log, x, known, |log|)
  {
    var n := |log|;
    assert n in p.known && (log + [p])[n] == p && (log + [p])[..n + 1] == log + [p];
    assert Count(log + [p], x) <= Get(p.vv, x);
    assert Canonical(vv);
    hide Tells, OwnKnown, Count, Get, Canonical, Incremented;
    CountAppends(log, p, x);
    CountBounded(log, x);
    IncrementKeeps(vv, x);
    FullCountKnows(log, x, vv, known);
  }

  /** The vectors of the log order its blobs exactly as their histories do. */
  ghost predicate Causal(log: seq<Push>) {
    forall i: nat, j: nat :: i < |log| && j < |log| ==> (Leq(log[i].vv, log[j].vv) <==> i in log[j].known)
  }

  lemma LogIsCausal(log: seq<Push>)
    requires LogTells(log)
    ensures Causal(log)
  {
    hide Tells, Leq;
    forall i: nat, j: nat | i < |log| && j < |log| ensures Leq(log[i].vv, log[j].vv) <==> i in log[j].known {
      PairIsCausal(log, i, j);
    }
  }

  lemma PairIsCausal(log: seq<Push>, i: nat, j: nat)
    requires LogTells(log) && i < |log| && j < |log|
    ensures Leq(log[i].vv, log[j].vv) <==> i in log[j].known
  {
    LeqIffHistory(log, log[i].vv, log[i].known, log[j].vv, log[j].known);
    assert i in log[i].known;
    assert i in log[j].known ==> log[i].known <= log[j].known;
  }

  lemma {:induction false} CountGrows(log: seq<Push>, x: DeviceId, m: nat)
    requires m <= |log|
    ensures Count(log[..m], x) <= Count(log, x)
  {
    if m == |log| {
      assert log[..m] == log;
    } else {
      CountGrows(log[..|log| - 1], x, m);
      assert log[..|log| - 1][..m] == log[..m];
    }
  }

  /** Later pushes of a device have larger ranks. */
  lemma RankGrows(log: seq<Push>, i: nat, j: nat)
    requires i < j < |log| && log[i].author == log[j].author
    ensures Rank(log, i) < Rank(log, j)
  {
    CountGrows(log[..j], log[i].author, i + 1);
    assert log[..j][..i + 1] == log[..i + 1];
    assert log[..j + 1] == log[..j] + [log[j]];
    CountAppends(log[..j], log[j], log[j].author);
  }

  /** `lost` is the first push of `x` that this state does not know. */
  ghost predicate Misses(log: seq<Push>, x: DeviceId, vv: Vec, known: set<nat>, lost: nat) {
    && lost < |log| && log[lost].author == x && lost !in known && Rank(log, lost) == Get(vv, x) + 1
    && OwnKnown(log, x, known, lost)
  }

  lemma FirstMissed(log: seq<Push>, x: DeviceId, vv: Vec, known: set<nat>) returns (lost: nat)
    requires Tells(log, vv, known) && !OwnKnown(log, x, known, |log|)
    ensures Misses(log, x, vv, known, lost)
  {
    if Get(vv, x) >= Count(log, x) { FullCountKnows(log, x, vv, known); }
    hide Count;
    lost := RankAttained(log, x, Get(vv, x) + 1);
    forall i: nat | i < lost && log[i].author == x ensures i in known { RankGrows(log, i, lost); }
  }

  /** The blob pushed without knowing `lost` is at most an old one exactly when that one knows all that
      the new one knows, and `lost`. */
  lemma RelapseBelow(log: seq<Push>, x: DeviceId, vv: Vec, known: set<nat>, lost: nat, j: nat)
    requires Tells(log, vv, known) && LogTells(log) && Misses(log, x, vv, known, lost) && |log| < U64_MAX && j < |log|
    ensures Leq(Incremented(vv, x), log[j].vv) <==> known + {lost} <= log[j].known
  {
    var blob := log[j];
    TellsAt(log, j);
    LeqIffHistory(log, vv, known, blob.vv, blob.known);
    CountBounded(log, x);
    IncrementKeeps(vv, x);
    assert Get(vv, x) <= Count(log, x);
    hide LogTells, Incremented, Count, Get, Canonical, OwnKnown, Rank;
    assert lost in blob.known <==> Rank(log, lost) <= Get(blob.vv, x);
    if Leq(Incremented(vv, x), blob.vv) {
      assert Get(Incremented(vv, x), x) <= Get(blob.vv, x);
      forall y: DeviceId ensures Get(vv, y) <= Get(blob.vv, y) { assert Get(Incremented(vv, x), y) <= Get(blob.vv, y); }
    }
    if known + {lost} <= blob.known {
      assert lost in blob.known;
      forall y: DeviceId ensures Get(Incremented(vv, x), y) <= Get(blob.vv, y) { assert Get(vv, y) <= Get(blob.vv, y); }
    }
  }

  /** An old blob is at most the new one exactly when it knows nothing else but, perhaps, `lost`. */
  lemma RelapseAbove(log: seq<Push>, x: DeviceId, vv: Vec, known: set<nat>, lost: nat, j: nat)
    requires Tells(log, vv, known) && LogTells(log) && Misses(log, x, vv, known, lost) && |log| < U64_MAX && j < |log|
    ensures Leq(log[j].vv, Incremented(vv, x)) <==> log[j].known <= known + {lost}
  {
    var blob := log[j];
    TellsAt(log, j);
    if Leq(blob.vv, Incremented(vv, x)) {
      hide Leq, Incremented, Tells, LogTells, Misses;
      forall i | i in blob.known ensures i in known + {lost} { OnlyLost(log, x, vv, known, lost, blob, i); }
    }
    if blob.known <= known + {lost} {
      hide Tells, LogTells, Misses, Incremented, Get;
      forall y: DeviceId ensures Get(blob.vv, y) <= Get(Incremented(vv, x), y) {
        ComponentBelow(log, x, vv, known, lost, blob, y);
      }
    }
  }

  lemma ComponentBelow(log: seq<Push>, x: DeviceId, vv: Vec, known: set<nat>, lost: nat, blob: Push, y: DeviceId)
    requires Tells(log, vv, known) && Tells(log, blob.vv, blob.known) && Misses(log, x, vv, known, lost) && |log| < U64_MAX
    requires blob.known <= known + {lost}
    ensures Get(blob.vv, y) <= Get(Incremented(vv, x), y)
  {
    CountBounded(log, x);
    IncrementKeeps(vv, x);
    assert Get(vv, x) <= Count(log, x);
    hide Incremented, Count, Canonical, OwnKnown, Rank, Get;
    if Get(blob.vv, y) > 0 {
      var i := RankAttained(log, y, Get(blob.vv, y));
      assert i in blob.known && i in known + {lost};
    }
  }

  lemma OnlyLost(log: seq<Push>, x: DeviceId, vv: Vec, known: set<nat>, lost: nat, blob: Push, i: nat)
    requires Tells(log, vv, known) && Tells(log, blob.vv, blob.known) && Misses(log, x, vv, known, lost) && |log| < U64_MAX
    requires Leq(blob.vv, Incremented(vv, x)) && i in blob.known
    ensures i in known + {lost}
  {
    IncrementKeeps(vv, x);
    hide Incremented, Count, Canonical, OwnKnown, Rank;
    var a := log[i].author;
    assert Rank(log, i) <= Get(blob.vv, a) <= Get(Incremented(vv, x), a);
    if a == x && Rank(log, i) == Rank(log, lost) {
      if i < lost { RankGrows(log, i, lost); }
      if lost < i { RankGrows(log, lost, i); }
    }
  }

  /** The order of two vectors is lost at once: some old blob knows all that the relapse knows and the
      first forgotten push, or that push knows nothing beyond what the relapse knows. */
  ghost predicate Disordered(log: seq<Push>, known: set<nat>, lost: nat)
    requires lost < |log|
  {
    (exists j: nat :: j < |log| && known + {lost} <= log[j].known) || log[lost].known <= known + {lost}
  }

  /** How the new blob compares with blob `j`, in vectors and in histories. */
  ghost predicate Compared(log: seq<Push>, p: Push, known: set<nat>, lost: nat, j: nat)
    requires j < |log|
  {
    && (Leq(p.vv, log[j].vv) <==> known + {lost} <= log[j].known)
    && (Leq(log[j].vv, p.vv) <==> log[j].known <= known + {lost})
    && |log| !in log[j].known && j in log[j].known && (j in known ==> log[j].known <= known)
  }

  lemma RelapseCompares(log: seq<Push>, x: DeviceId, vv: Vec, known: set<nat>, lost: nat, p: Push, j: nat)
    requires Tells(log, vv, known) && LogTells(log) && Misses(log, x, vv, known, lost) && |log| < U64_MAX
    requires p == Push(x, Incremented(vv, x), known + {|log|}) && j < |log|
    ensures Compared(log, p, known, lost, j)
  {
    hide Tells, LogTells, Leq, Misses, Incremented;
    RelapseBelow(log, x, vv, known, lost, j);
    RelapseAbove(log, x, vv, known, lost, j);
    KnowsNoFuture(log, vv, known, j);
  }

  lemma DisorderShows(log: seq<Push>, p: Push, known: set<nat>, lost: nat)
    requires lost < |log| && lost !in known && p.known == known + {|log|} && Disordered(log, known, lost)
    requires forall j: nat :: j < |log| ==> Compared(log, p, known, lost, j)
    ensures !Causal(log + [p])
  {
    hide Leq;
    var n, log' := |log|, log + [p];
    if log[lost].known <= known + {lost} {
      assert Compared(log, p, known, lost, lost);
      assert Leq(log'[lost].vv, log'[n].vv) && lost !in log'[n].known;
    } else {
      var j: nat :| j < n && known + {lost} <= log[j].known;
      assert Compared(log, p, known, lost, j);
      assert Leq(log'[n].vv, log'[j].vv) && n !in log'[j].known;
    }
  }

  lemma OrderStays(log: seq<Push>, p: Push, known: set<nat>, lost: nat)
    requires lost < |log| && p.known == known + {|log|} && !Disordered(log, known, lost) && Causal(log)
    requires forall j: nat :: j < |log| ==> Compared(log, p, known, lost, j)
    ensures Causal(log + [p])
  {
    LeqReflexive(p.vv);
    hide Leq, Compared;
    var n, log' := |log|, log + [p];
    forall i: nat, j: nat | i < |log'| && j < |log'| ensures Leq(log'[i].vv, log'[j].vv) <==> i in log'[j].known {
      if i < n && j < n {
        assert Leq(log[i].vv, log[j].vv) <==> i in log[j].known;
      } else if i < n {
        OldBelowNew(log, p, known, lost, i);
      } else if j < n {
        NewNotBelowOld(log, p, known, lost, j);
      }
    }
  }

  lemma OldBelowNew(log: seq<Push>, p: Push, known: set<nat>, lost: nat, i: nat)
    requires lost < |log| && p.known == known + {|log|} && !Disordered(log, known, lost) && i < |log|
    requires Compared(log, p, known, lost, i)
    ensures Leq(log[i].vv, p.vv) <==> i in p.known
  {
    hide Leq;
    assert i in log[i].known && |log| != i;
  }

  lemma NewNotBelowOld(log: seq<Push>, p: Push, known: set<nat>, lost: nat, j: nat)
    requires lost < |log| && !Disordered(log, known, lost) && j < |log| && Compared(log, p, known, lost, j)
    ensures !Leq(p.vv, log[j].vv) && |log| !in log[j].known
  {
    hide Leq;
  }

  lemma RelapseDisorders(log: seq<Push>, x: DeviceId, vv: Vec, known: set<nat>, lost: nat)
    requires Tells(log, vv, known) && LogTells(log) && Misses(log, x, vv, known, lost) && |log| < U64_MAX
    ensures lost < |log|
    ensures Causal(log + [Push(x, Incremented(vv, x), known + {|log|})]) <==> !Disordered(log, known, lost)
  {
    var p := Push(x, Incremented(vv, x), known + {|log|});
    assert lost < |log| && lost !in known;
    hide *;
    LogIsCausal(log);
    forall j: nat | j < |log| ensures Compared(log, p, known, lost, j) { RelapseCompares(log, x, vv, known, lost, p, j); }
    if Disordered(log, known, lost) { DisorderShows(log, p, known, lost); } else { OrderStays(log, p, known, lost); }
  }

  lemma LeqReflexive(v: Vec)
    ensures Leq(v, v)
  {
  }

  lemma KnowsNoFuture(log: seq<Push>, vv: Vec, known: set<nat>, j: nat)
    requires LogTells(log) && Tells(log, vv, known) && j < |log|
    ensures |log| !in log[j].known && j in log[j].known && (j in known ==> log[j].known <= known)
  {
  }

  /** When the cut reset was not harmless, the log's order is broken by the very next pass exactly when
      the new blob is disordered with an old one; otherwise only later blobs can show it. */
  lemma CutResetBreaksOrderIff(w: World, x: DeviceId) returns (lost: nat)
    requires Ok(w) && w.PhaseOf(x).Idle? && |w.log| < U64_MAX
    ensures
      var (cursor, known) := (w.SavedOf(x).cursor, Pulled(w.log, Min(w.SavedOf(x).cursor, |w.log|), |w.log|).1);
      var harmless := Harmless(w.log, x, cursor);
      && (!harmless ==> lost < cursor <= |w.log| && w.log[lost].author == x && !Carried(w.log, cursor, |w.log|, lost))
      && (!harmless ==> OwnKnown(w.log, x, known, lost))
      && (Causal(Run(w, ResetAndPass(w, x)).log) <==> harmless || (lost < |w.log| && !Disordered(w.log, known, lost)))
  {
    assert DeviceOk(w, x) && LogTells(w.log);
    var cursor := w.SavedOf(x).cursor;
    assert cursor <= |w.log|;
    ResetAndPassPushes(w, x);
    hide Run, Next, ResetAndPass, Tells, LogTells, Disordered, Causal, DeviceOk, Ok;
    lost := RelapseOrder(w.log, x, cursor);
  }

  lemma FirstLost(log: seq<Push>, x: DeviceId, cursor: nat, vv: Vec, known: set<nat>) returns (lost: nat)
    requires LogTells(log) && Tells(log, vv, known) && !OwnKnown(log, x, known, |log|)
    requires forall i: nat :: i in known <==> Carried(log, cursor, |log|, i)
    ensures Misses(log, x, vv, known, lost)
    ensures lost < cursor && lost < |log| && log[lost].author == x && !Carried(log, cursor, |log|, lost) && OwnKnown(log, x, known, lost)
  {
    hide Tells, LogTells, OwnKnown, Carried, Rank, Get;
    lost := FirstMissed(log, x, vv, known);
    AheadIsKnown(log, cursor, known, lost);
  }

  lemma RelapseIs(log: seq<Push>, x: DeviceId, cursor: nat, vv: Vec, known: set<nat>)
    requires cursor <= |log| && Pulled(log, cursor, |log|) == (vv, known)
    ensures Relapse(log, x, cursor) == Push(x, Incremented(vv, x), known + {|log|})
  {
    hide Pulled;
  }

  lemma RelapseOrder(log: seq<Push>, x: DeviceId, cursor: nat) returns (lost: nat)
    requires LogTells(log) && cursor <= |log| && |log| < U64_MAX
    ensures !Harmless(log, x, cursor) ==>
      && lost < cursor && log[lost].author == x && !Carried(log, cursor, |log|, lost)
      && OwnKnown(log, x, Pulled(log, cursor, |log|).1, lost)
    ensures Causal(log + [Relapse(log, x, cursor)])
      <==> Harmless(log, x, cursor) || (lost < |log| && !Disordered(log, Pulled(log, cursor, |log|).1, lost))
  {
    hide *;
    var (vv, known) := Pulled(log, cursor, |log|);
    PulledTells(log, cursor, |log|);
    RelapseIs(log, x, cursor, vv, known);
    RelapseTellsIff(log, x, cursor);
    OwnAheadKnown(log, x, cursor, known);
    if Harmless(log, x, cursor) {
      LogIsCausal(log + [Relapse(log, x, cursor)]);
      lost := 0;
    } else {
      lost := FirstLost(log, x, cursor, vv, known);
      RelapseDisorders(log, x, vv, known, lost);
    }
  }

  lemma AheadIsKnown(log: seq<Push>, cursor: nat, known: set<nat>, i: nat)
    requires LogTells(log) && i < |log| && forall k: nat :: k in known <==> Carried(log, cursor, |log|, k)
    ensures cursor <= i ==> i in known
  {
    hide Tells;
    assert i in log[i].known;
    if cursor <= i { assert Carried(log, cursor, |log|, i); }
  }

  /** A device that was up to date and has pushed before: its next blob is ordered below one of its old
      blobs, which never saw it. */
  lemma CutResetBreaksCausality(w: World, x: DeviceId) returns (i: nat)
    requires Ok(w) && w.PhaseOf(x).Idle? && w.SavedOf(x).cursor == |w.log| && Count(w.log, x) > 0 && |w.log| < U64_MAX
    ensures
      var log := Run(w, ResetAndPass(w, x)).log;
      && i < |w.log| && |log| == |w.log| + 1
      && Leq(log[|w.log|].vv, log[i].vv) && |w.log| !in log[i].known
  {
    assert LogTells(w.log);
    hide Ok, Tells, LogTells, Count;
    i := FirstPush(w.log, x);
    ResetAndPassPushes(w, x);
    hide Run, Next, ResetAndPass;
    KnowsNoFuture(w.log, [], {}, i);
    RelapseBelow(w.log, x, [], {}, i, i);
    assert {} + {i} <= w.log[i].known;
    assert Pulled(w.log, |w.log|, |w.log|) == ([], {});
  }

  lemma FirstPush(log: seq<Push>, x: DeviceId) returns (i: nat)
    requires Count(log, x) > 0
    ensures Tells(log, [], {}) && Misses(log, x, [], {}, i)
  {
    EmptyTells(log);
    hide Tells, Count;
    if OwnKnown(log, x, {}, |log|) {
      i := RankAttained(log, x, 1);
      assert false;
    }
    i := FirstMissed(log, x, [], {});
  }

  // ---------------------------------------------------------------- what a pass sees

  /** The two saves of a pass: whole, the next pass begins where it ended; cut between them, it begins at the old
      cursor again with the new vector. */
  lemma AfterTheSaves(w: World, x: DeviceId)
    requires w.PhaseOf(x).Finished?
    ensures
      var (p, s) := (w.PhaseOf(x), w.SavedOf(x));
      var (cut, saved) := (Run(w, [(x, SaveVector), (x, Cut)]), Run(w, [(x, SaveVector), (x, SaveCursor)]));
      && cut.PhaseOf(x) == saved.PhaseOf(x) == Idle && cut.log == saved.log == w.log
      && cut.SavedOf(x) == Saved(p.vv, p.known, s.cursor) && saved.SavedOf(x) == Saved(p.vv, p.known, p.cursor)
  {
    RunPair(w, (x, SaveVector), (x, Cut));
    RunPair(w, (x, SaveVector), (x, SaveCursor));
    hide Run;
  }

  /** The next pass begins with what was saved; a cut one saved nothing; a reset forgets it all; a cut one
      keeps the cursor. */
  lemma NextPassStarts(w: World, x: DeviceId)
    ensures
      var s := w.SavedOf(x);
      && Next(w, x, Cut).SavedOf(x) == s && Next(w, x, Cut).PhaseOf(x).Idle?
      && (w.PhaseOf(x).Idle? ==>
           && Next(w, x, Begin).PhaseOf(x) == Pulling(s.vv, s.known, s.cursor, Max(s.cursor, |w.log|))
           && Next(w, x, Reset).SavedOf(x) == Saved([], {}, 0) && Next(w, x, CutReset).SavedOf(x) == Saved([], {}, s.cursor))
  {
  }

  lemma RunPair(w: World, a: (DeviceId, Step), b: (DeviceId, Step))
    ensures Run(w, [a, b]) == Next(Next(w, a.0, a.1), b.0, b.1)
  {
    hide Next;
    RunTwo(w, a, b, []);
    assert [a, b] + [] == [a, b];
  }

  /** Every blob below the cursor is in the history. */
  ghost predicate Saw(known: set<nat>, cursor: nat) {
    forall i: nat :: i < cursor ==> i in known
  }

  /** A pull sees the blob it pulls, stale or not. */
  lemma PullSees(log: seq<Push>, vv: Vec, known: set<nat>, next: nat)
    requires LogTells(log) && Tells(log, vv, known) && next < |log|
    ensures MetHistory(vv, known, log[next]) == known + log[next].known && next in log[next].known
  {
    hide Tells, MetHistory;
    assert Tells(log, log[next].vv, log[next].known);
    MetTells(log, vv, known, log[next]);
  }

  /** A pass that pushes takes the length of the log after its push for its cursor: it moves past every blob
      that somebody else pushed between its two listings, and it saw everything below its cursor exactly
      when there was none. */
  lemma PushingPassSawIff(w0: World, w1: World, x: DeviceId, vv: Vec, known: set<nat>, end: nat)
    requires w0.PhaseOf(x) == Pulling(vv, known, end, end) && Saw(known, end) && forall i <- known :: i < end
    requires end <= |w0.log|
    requires w1.PhaseOf(x) == Next(w0, x, Put).PhaseOf(x) && Next(w0, x, Put).log <= w1.log
    ensures Next(w1, x, ListAll).PhaseOf(x).Finished?
    ensures
      var after := Next(w1, x, ListAll).PhaseOf(x);
      && after.cursor == |w1.log| && after.known == known + {|w0.log|}
      && (forall i: nat :: i < after.cursor && i !in after.known <==> end <= i < |w1.log| && i != |w0.log|)
      && (Saw(after.known, after.cursor) <==> |w0.log| == end && |w1.log| == end + 1)
  {
    hide Incremented;
    var after := Next(w1, x, ListAll).PhaseOf(x);
    if |w0.log| != end { assert end < after.cursor && end !in after.known; }
    if |w1.log| > |w0.log| + 1 { assert |w0.log| + 1 < after.cursor && |w0.log| + 1 !in after.known; }
  }

  /** What `x` is at has seen everything below where it stands. */
  ghost predicate Attentive(w: World, x: DeviceId) {
    var s := w.SavedOf(x);
    && Saw(s.known, s.cursor)
    && match w.PhaseOf(x)
       case Pulling(_, known, next, end) => Saw(known, next) && forall i <- known :: i < end
       case Finished(_, known, cursor) => Saw(known, cursor)
       case VectorSaved(cursor) => Saw(s.known, cursor)
       case _ => true
  }

  /** The one way to overlook a blob in a pass: to list the log after a push when it has grown otherwise; and
      the one beside it: to have a reset cut. */
  ghost predicate Overlooks(w: World, x: DeviceId, y: DeviceId, step: Step) {
    && x == y
    && match (step, w.PhaseOf(x))
       case (ListAll, Published(_, known)) => !Saw(known, |w.log|)
       case (CutReset, Idle) => w.SavedOf(x).cursor > 0
       case _ => false
  }

  lemma StepSees(w: World, x: DeviceId, y: DeviceId, step: Step)
    requires Ok(w) && Attentive(w, x)
    ensures Attentive(Next(w, y, step), x) <==> !Overlooks(w, x, y, step)
  {
    hide Tells, Met, MetHistory, Incremented, LogTells;
    assert DeviceOk(w, x);
    var w' := Next(w, y, step);
    if x == y {
      SavedBelow(w, x);
      match (step, w.PhaseOf(x))
      case (Begin, Idle) =>
      case (Pull, Pulling(vv, known, next, end)) =>
        if next < end {
          PullSees(w.log, vv, known, next);
          assert forall i <- w.log[next].known :: i <= next by { KnownIsEarlier(w.log, next); }
        }
      case (CutReset, Idle) => if w.SavedOf(x).cursor > 0 { assert 0 !in w'.SavedOf(x).known; }
      case _ =>
    } else {
      assert w'.SavedOf(x) == w.SavedOf(x) && w'.PhaseOf(x) == w.PhaseOf(x);
    }
  }

  lemma SavedBelow(w: World, x: DeviceId)
    requires DeviceOk(w, x)
    ensures forall i <- w.SavedOf(x).known :: i < |w.log|
  {
  }

  lemma KnownIsEarlier(log: seq<Push>, j: nat)
    requires LogTells(log) && j < |log|
    ensures forall i <- log[j].known :: i <= j
  {
  }

  /** No step of the run overlooks a blob. */
  ghost predicate Attended(w: World, x: DeviceId, steps: seq<(DeviceId, Step)>)
    decreases |steps|
  {
    steps == [] || (!Overlooks(w, x, steps[0].0, steps[0].1) && Attended(Next(w, steps[0].0, steps[0].1), x, steps[1..]))
  }

  /** Over every interleaving: as long as no push pass of a device overlooks a blob and no reset of it is cut,
      its saved cursor never moves past a blob that is not in its history. */
  lemma {:induction false} AttendedRunSees(w: World, x: DeviceId, steps: seq<(DeviceId, Step)>)
    requires Ok(w) && Attentive(w, x) && Clean(w, steps) && |w.log| + |steps| < U64_MAX && Attended(w, x, steps)
    ensures Attentive(Run(w, steps), x) && Saw(Run(w, steps).SavedOf(x).known, Run(w, steps).SavedOf(x).cursor)
    decreases |steps|
  {
    hide Ok, Overlooks, Next, Clean, Saw;
    if steps != [] {
      hide Attentive;
      StepSees(w, x, steps[0].0, steps[0].1);
      CleanStep(w, steps);
      AttendedRunSees(Next(w, steps[0].0, steps[0].1), x, steps[1..]);
    }
  }

  /** The pushing pass of a device moves past a blob of another one that came between its listings: it saves a
      cursor of 2 without the blob at 0, and its next whole pass pushes without it too. */
  lemma SkipHappens(x: DeviceId, y: DeviceId)
    requires x != y
    ensures
      var w := Run(START, [(x, Begin), (y, Begin)] + ([(y, Put), (x, Put)] + ([(x, ListAll), (x, SaveVector)] + [(x, SaveCursor)])));
      && w.log == [Push(y, [Entry(y, 1)], {0}), Push(x, [Entry(x, 1)], {1})] && w.SavedOf(x) == Saved([Entry(x, 1)], {1}, 2)
      && Run(w, [(x, Begin), (x, Put)]).log == w.log + [Push(x, [Entry(x, 2)], {1, 2})]
  {
    var w1 := Next(Next(START, x, Begin), y, Begin);
    var w2 := Next(Next(w1, y, Put), x, Put);
    var w3 := Next(Next(w2, x, ListAll), x, SaveVector);
    var w := Next(w3, x, SaveCursor);
    RunTwo(START, (x, Begin), (y, Begin), [(y, Put), (x, Put)] + ([(x, ListAll), (x, SaveVector)] + [(x, SaveCursor)]));
    RunTwo(w1, (y, Put), (x, Put), [(x, ListAll), (x, SaveVector)] + [(x, SaveCursor)]);
    RunTwo(w2, (x, ListAll), (x, SaveVector), [(x, SaveCursor)]);
    RunOne(w3, (x, SaveCursor));
    RunPair(w, (x, Begin), (x, Put));
    hide Run;
    TwoBegin(x, y);
    TwoPut(w1, x, y);
    SavedAtTwo(w2, x);
    AgainAtTwo(w, x);
  }

  lemma TwoBegin(x: DeviceId, y: DeviceId)
    requires x != y
    ensures
      var w := Next(Next(START, x, Begin), y, Begin);
      w.log == [] && w.PhaseOf(x) == w.PhaseOf(y) == Pulling([], {}, 0, 0) && w.SavedOf(x) == Saved([], {}, 0)
  {
  }

  lemma TwoPut(w: World, x: DeviceId, y: DeviceId)
    requires x != y && w.log == [] && w.PhaseOf(x) == w.PhaseOf(y) == Pulling([], {}, 0, 0)
    ensures
      var w' := Next(Next(w, y, Put), x, Put);
      && w'.log == [Push(y, [Entry(y, 1)], {0}), Push(x, [Entry(x, 1)], {1})]
      && w'.PhaseOf(x) == Published([Entry(x, 1)], {1}) && w'.SavedOf(x) == w.SavedOf(x)
  {
    assert Incremented([], x) == [Entry(x, 1)] && Incremented([], y) == [Entry(y, 1)];
    hide Incremented;
    var none: set<nat> := {};
    assert none + {0} == {0} && none + {1} == {1};
  }

  lemma SavedAtTwo(w: World, x: DeviceId)
    requires |w.log| == 2 && w.PhaseOf(x) == Published([Entry(x, 1)], {1})
    ensures
      var w' := Next(Next(Next(w, x, ListAll), x, SaveVector), x, SaveCursor);
      w'.log == w.log && w'.SavedOf(x) == Saved([Entry(x, 1)], {1}, 2) && w'.PhaseOf(x) == Idle
  {
  }

  lemma AgainAtTwo(w: World, x: DeviceId)
    requires |w.log| == 2 && w.PhaseOf(x) == Idle && w.SavedOf(x) == Saved([Entry(x, 1)], {1}, 2)
    ensures Next(Next(w, x, Begin), x, Put).log == w.log + [Push(x, [Entry(x, 2)], {1, 2})]
  {
    assert Incremented([Entry(x, 1)], x) == [Entry(x, 2)];
    hide Incremented;
    var one: set<nat> := {1};
    assert one + {2} == {1, 2};
  }
}
