/** One `sync()` pass against the blind relay (packages/db/index.js, relay-mem.js). */
module Relay {
  import opened Bytes

  /** `InMemoryRelay`: one append-only log of opaque blobs per bucket. */
  class InMemoryRelay<Blob> {
    var logs: map<string, seq<Blob>>

    constructor ()
      ensures logs == map[]
    {
      logs := map[];
    }

    /** A bucket nobody wrote to is empty. */
    function Log(id: string): seq<Blob>
      reads this
    {
      if id in logs then logs[id] else []
    }

    method Put(id: string, sealed: Blob) returns (index: nat)
      modifies this
      ensures Log(id) == old(Log(id)) + [sealed] && index == |old(Log(id))|
      ensures forall other :: other != id ==> Log(other) == old(Log(other))
    {
      index := |Log(id)|;
      logs := logs[id := Log(id) + [sealed]];
    }

    /** A reader at `since` that takes `count` blobs stands at the end of the log, unless it was behind it. */
    method List(id: string, since: nat) returns (count: nat)
      ensures since + count == Max(since, |Log(id)|)
    {
      count := Max(0, |Log(id)| - since);
    }

    method Get(id: string, index: nat) returns (blob: Option<Blob>)
      ensures blob.Some? <==> index < |Log(id)|
      ensures blob.Some? ==> blob.value == Log(id)[index]
    {
      blob := if index < |Log(id)| then Some(Log(id)[index]) else None;
    }
  }
}

module SyncPass {
  import opened Bytes
  import opened VersionVector
  import opened Relay
  import Sync

  /** An image sealed with the vector it was current under. */
  datatype Sealed<I> = Sealed(vv: Vec, image: I)

  /** A preserved fork loser; the two numbers make up its name. */
  datatype Loser<I> = Loser(at: nat, ordinal: nat, sealed: Sealed<I>)

  datatype Local<I> = Local(vv: Vec, image: I, forks: seq<Loser<I>>, applied: nat, forked: nat)

  /** What reconciling one blob does to the local state. */
  function Meet<I>(s: Local<I>, at: nat, b: Sealed<I>): Local<I> {
    match Reconcile(s.vv, b.vv)
    case FastForward => s.(vv := Merge(s.vv, b.vv), image := b.image, applied := s.applied + 1)
    case Stale => s
    case Fork(incomingWins) =>
      var loser := if incomingWins then Sealed(s.vv, s.image) else b;
      s.(vv := Merge(s.vv, b.vv), image := if incomingWins then b.image else s.image,
         forks := s.forks + [Loser(at, |s.forks|, loser)], forked := s.forked + 1)
  }

  function MeetAll<I>(s: Local<I>, at: nat, blobs: seq<Sealed<I>>): Local<I>
    decreases |blobs|
  {
    if blobs == [] then s else MeetAll(Meet(s, at, blobs[0]), at + 1, blobs[1..])
  }

  lemma {:induction false} MeetAllAppends<I>(s: Local<I>, at: nat, blobs: seq<Sealed<I>>, b: Sealed<I>)
    ensures MeetAll(s, at, blobs + [b]) == Meet(MeetAll(s, at, blobs), at + |blobs|, b)
    decreases |blobs|
  {
    hide Meet;
    if blobs == [] {
      assert [b][1..] == [];
    } else {
      assert (blobs + [b])[1..] == blobs[1..] + [b];
      MeetAllAppends(Meet(s, at, blobs[0]), at + 1, blobs[1..], b);
    }
  }

  // ---------------------------------------------------------------- what a pass achieves

  lemma MeetKeeps<I>(s: Local<I>, at: nat, b: Sealed<I>, bound: Vec)
    requires Canonical(s.vv) && Canonical(b.vv)
    ensures var s' := Meet(s, at, b);
      && Canonical(s'.vv) && Leq(s.vv, s'.vv) && Leq(b.vv, s'.vv)
      && (Leq(s.vv, bound) && Leq(b.vv, bound) ==> Leq(s'.vv, bound))
      && s.forks <= s'.forks
  {
    hide Get, Merge, Relate, IncomingWins;
    MergeIsMax(s.vv, b.vv);
    RelationIsTheOrder(b.vv, s.vv);
  }

  /** A pass leaves the least vector above the local one and every pulled one, so every pulled blob is
      stale from then on; and it drops no preserved fork. */
  lemma {:induction false} PassIsTheJoin<I>(s: Local<I>, at: nat, blobs: seq<Sealed<I>>, bound: Vec)
    requires Canonical(s.vv) && forall b <- blobs :: Canonical(b.vv)
    ensures var s' := MeetAll(s, at, blobs);
      && Canonical(s'.vv) && Leq(s.vv, s'.vv)
      && (forall b <- blobs :: Leq(b.vv, s'.vv))
      && (Leq(s.vv, bound) && (forall b <- blobs :: Leq(b.vv, bound)) ==> Leq(s'.vv, bound))
      && s.forks <= s'.forks
    decreases |blobs|
  {
    hide Meet;
    if blobs != [] {
      var m := Meet(s, at, blobs[0]);
      assert blobs[0] in blobs && (forall b <- blobs[1..] :: b in blobs) && (forall b <- blobs :: b == blobs[0] || b in blobs[1..]);
      MeetKeeps(s, at, blobs[0], bound);
      PassIsTheJoin(m, at + 1, blobs[1..], bound);
    }
  }

  /** The blobs of a pass that were strictly above the local vector when they were met. */
  ghost function Advances<I>(s: Local<I>, at: nat, blobs: seq<Sealed<I>>): nat
    decreases |blobs|
  {
    if blobs == [] then 0
    else (if Leq(s.vv, blobs[0].vv) && !Leq(blobs[0].vv, s.vv) then 1 else 0) + Advances(Meet(s, at, blobs[0]), at + 1, blobs[1..])
  }

  /** What one blob adds to the report and to the forks: a preserved loser bears the blob's position in the
      log and its own place among the forks. */
  lemma MeetReports<I>(s: Local<I>, at: nat, b: Sealed<I>)
    requires Canonical(s.vv) && Canonical(b.vv)
    ensures
      var s' := Meet(s, at, b);
      && s'.applied == s.applied + (if Leq(s.vv, b.vv) && !Leq(b.vv, s.vv) then 1 else 0)
      && s'.forked - s.forked == |s'.forks| - |s.forks|
      && |s'.forks| == |s.forks| + (if !Leq(s.vv, b.vv) && !Leq(b.vv, s.vv) then 1 else 0)
      && s.forks <= s'.forks
      && (|s'.forks| > |s.forks| ==> s'.forks[|s.forks|].at == at && s'.forks[|s.forks|].ordinal == |s.forks|)
  {
    RelationIsTheOrder(b.vv, s.vv);
    hide Get, Merge, IncomingWins, Leq, Canonical;
  }

  lemma MeetAllFirst<I>(s: Local<I>, at: nat, blobs: seq<Sealed<I>>)
    requires blobs != []
    ensures MeetAll(s, at, blobs) == MeetAll(Meet(s, at, blobs[0]), at + 1, blobs[1..])
    ensures Advances(s, at, blobs)
         == (if Leq(s.vv, blobs[0].vv) && !Leq(blobs[0].vv, s.vv) then 1 else 0) + Advances(Meet(s, at, blobs[0]), at + 1, blobs[1..])
  {
  }

  /** The report counts the blobs that moved the device forward, and the losers it preserved. */
  lemma {:induction false} ReportCounts<I>(s: Local<I>, at: nat, blobs: seq<Sealed<I>>)
    requires Canonical(s.vv) && forall b <- blobs :: Canonical(b.vv)
    ensures
      var s' := MeetAll(s, at, blobs);
      s'.applied == s.applied + Advances(s, at, blobs) && s'.forked - s.forked == |s'.forks| - |s.forks|
    decreases |blobs|
  {
    if blobs != [] {
      hide *;
      assert blobs[0] in blobs && forall b <- blobs[1..] :: b in blobs;
      MeetReports(s, at, blobs[0]);
      MeetKeeps(s, at, blobs[0], s.vv);
      MeetAllFirst(s, at, blobs);
      ReportCounts(Meet(s, at, blobs[0]), at + 1, blobs[1..]);
    }
  }

  /** From the `n`-th on, each loser's number is its place and the positions ascend from `at` to below `end`. */
  predicate Named<I>(forks: seq<Loser<I>>, n: nat, at: nat, end: nat) {
    && (forall k :: n <= k < |forks| ==> forks[k].ordinal == k && at <= forks[k].at < end)
    && (forall j, k :: n <= j < k < |forks| ==> forks[j].at < forks[k].at)
  }

  lemma NamedNext<I>(forks: seq<Loser<I>>, n: nat, at: nat, end: nat, next: seq<Loser<I>>)
    requires n <= |forks| && at <= end && Named(forks, n, at, end)
    requires next == forks || (next != [] && next[..|next| - 1] == forks && next[|next| - 1].ordinal == |forks| && next[|next| - 1].at == end)
    ensures Named(next, n, at, end + 1)
  {
    if next != forks {
      forall k | n <= k < |next| ensures next[k].ordinal == k && at <= next[k].at < end + 1 && (k < |forks| ==> next[k].at < end) {
        assert k < |forks| ==> next[k] == forks[k];
      }
    }
  }

  lemma MeetAppends<I>(s: Local<I>, at: nat, b: Sealed<I>)
    ensures
      var next := Meet(s, at, b).forks;
      || next == s.forks
      || (next != [] && next[..|next| - 1] == s.forks && next[|next| - 1].ordinal == |s.forks| && next[|next| - 1].at == at)
  {
    hide Reconcile, Merge;
  }

  /** The losers a pass preserves have names of their own. */
  lemma {:induction false} LosersAreNamed<I>(s: Local<I>, at: nat, blobs: seq<Sealed<I>>)
    ensures |s.forks| <= |MeetAll(s, at, blobs).forks| && Named(MeetAll(s, at, blobs).forks, |s.forks|, at, at + |blobs|)
  {
    if blobs != [] {
      var n := |blobs| - 1;
      var before := MeetAll(s, at, blobs[..n]);
      assert blobs == blobs[..n] + [blobs[n]];
      MeetAllAppends(s, at, blobs[..n], blobs[n]);
      LosersAreNamed(s, at, blobs[..n]);
      MeetAppends(before, at + n, blobs[n]);
      hide *;
      NamedNext(before.forks, |s.forks|, at, at + n, MeetAll(s, at, blobs).forks);
    }
  }

  /** Two devices that pull the same blobs in any order end at the same vector exactly when each one's
      start is covered by what the other ends with. */
  lemma PullsConvergeIff<I>(a: Local<I>, b: Local<I>, at: nat, one: seq<Sealed<I>>, other: seq<Sealed<I>>)
    requires Canonical(a.vv) && Canonical(b.vv) && (forall x <- one :: Canonical(x.vv)) && (forall x <- other :: Canonical(x.vv))
    requires forall x :: x in one <==> x in other
    ensures MeetAll(a, at, one).vv == MeetAll(b, at, other).vv
       <==> Leq(a.vv, MeetAll(b, at, other).vv) && Leq(b.vv, MeetAll(a, at, one).vv)
  {
    PassIsTheJoin(a, at, one, MeetAll(b, at, other).vv);
    PassIsTheJoin(b, at, other, MeetAll(a, at, one).vv);
    PassIsTheJoin(a, at, one, MeetAll(a, at, one).vv);
    PassIsTheJoin(b, at, other, MeetAll(b, at, other).vv);
    if Leq(a.vv, MeetAll(b, at, other).vv) && Leq(b.vv, MeetAll(a, at, one).vv) {
      Extensional(MeetAll(a, at, one).vv, MeetAll(b, at, other).vv);
    }
  }

  /** Two devices that meet each other's concurrent state agree on the live image and both keep the
      other one as a fork. */
  lemma ForkKeepsBothImages<I>(x: Local<I>, y: Local<I>, at: nat)
    requires Canonical(x.vv) && Canonical(y.vv) && |x.vv| <= U32_MAX && |y.vv| <= U32_MAX
    requires Reconcile(x.vv, y.vv).Fork?
    ensures
      var (x', y') := (Meet(x, at, Sealed(y.vv, y.image)), Meet(y, at, Sealed(x.vv, x.image)));
      var lost := if x'.image == x.image then y else x;
      && x'.vv == y'.vv && x'.image == y'.image && (x'.image == x.image || x'.image == y.image)
      && x'.forks == x.forks + [x'.forks[|x.forks|]] && y'.forks == y.forks + [y'.forks[|y.forks|]]
      && x'.forks[|x.forks|].sealed == y'.forks[|y.forks|].sealed
      && (x.image != y.image ==> x'.forks[|x.forks|].sealed == Sealed(lost.vv, lost.image))
  {
    ForkConverges(x.vv, y.vv);
  }

  // ---------------------------------------------------------------- a pass cut before it saved

  /** The local image is the loser of a fork before a blob merely supersedes it. */
  predicate BecomesLoser<I>(s: Local<I>, at: nat, blobs: seq<Sealed<I>>)
    decreases |blobs|
  {
    && blobs != []
    && match Reconcile(s.vv, blobs[0].vv)
       case FastForward => false
       case Fork(true) => true
       case _ => BecomesLoser(Meet(s, at, blobs[0]), at + 1, blobs[1..])
  }

  /** A blob supersedes the local image before it can lose a fork. */
  predicate Superseded<I>(s: Local<I>, at: nat, blobs: seq<Sealed<I>>)
    decreases |blobs|
  {
    && blobs != []
    && match Reconcile(s.vv, blobs[0].vv)
       case FastForward => true
       case Fork(true) => false
       case _ => Superseded(Meet(s, at, blobs[0]), at + 1, blobs[1..])
  }

  /** What is durable of a pass that was cut after `m` blobs: the image it applied last, and nothing else. */
  function CutPass<I>(s: Local<I>, at: nat, blobs: seq<Sealed<I>>, m: nat): Local<I>
    requires m <= |blobs|
  {
    s.(image := MeetAll(s, at, blobs[..m]).image)
  }

  lemma {:induction false} ForksGrow<I>(s: Local<I>, at: nat, blobs: seq<Sealed<I>>)
    ensures s.forks <= MeetAll(s, at, blobs).forks
    decreases |blobs|
  {
    if blobs != [] {
      assert s.forks <= Meet(s, at, blobs[0]).forks;
      hide Meet;
      ForksGrow(Meet(s, at, blobs[0]), at + 1, blobs[1..]);
    }
  }

  /** One blob met with two images. */
  lemma MeetOther<I>(s: Local<I>, image: I, at: nat, b: Sealed<I>)
    ensures
      var (m, m') := (Meet(s, at, b), Meet(s.(image := image), at, b));
      match Reconcile(s.vv, b.vv)
      case FastForward => m == m'
      case Fork(true) => |m.forks| == |m'.forks| > |s.forks| && m.forks[|s.forks|].sealed.image == s.image && m'.forks[|s.forks|].sealed.image == image
      case _ => m' == m.(image := image) && m.image == s.image
  {
  }

  lemma {:induction false} SupersededForgets<I>(s: Local<I>, image: I, at: nat, blobs: seq<Sealed<I>>)
    requires Superseded(s, at, blobs)
    ensures MeetAll(s.(image := image), at, blobs) == MeetAll(s, at, blobs)
    decreases |blobs|
  {
    MeetOther(s, image, at, blobs[0]);
    if !Reconcile(s.vv, blobs[0].vv).FastForward? {
      hide Meet, Reconcile;
      SupersededForgets(Meet(s, at, blobs[0]), image, at + 1, blobs[1..]);
    }
  }

  lemma {:induction false} LoserRemembers<I>(s: Local<I>, image: I, at: nat, blobs: seq<Sealed<I>>)
    requires BecomesLoser(s, at, blobs)
    ensures MeetAll(s.(image := image), at, blobs) == MeetAll(s, at, blobs) <==> image == s.image
    decreases |blobs|
  {
    var b, rest := blobs[0], blobs[1..];
    MeetOther(s, image, at, b);
    if Reconcile(s.vv, b.vv).Fork? && Reconcile(s.vv, b.vv).winnerIsIncoming {
      hide Meet, Reconcile;
      ForksGrow(Meet(s, at, b), at + 1, rest);
      ForksGrow(Meet(s.(image := image), at, b), at + 1, rest);
      assert s.(image := s.image) == s;
    } else {
      hide Meet, Reconcile;
      LoserRemembers(Meet(s, at, b), image, at + 1, rest);
    }
  }

  lemma {:induction false} NeitherKeepsImage<I>(s: Local<I>, at: nat, blobs: seq<Sealed<I>>)
    requires !Superseded(s, at, blobs) && !BecomesLoser(s, at, blobs)
    ensures MeetAll(s, at, blobs).image == s.image
    decreases |blobs|
  {
    if blobs != [] {
      MeetOther(s, s.image, at, blobs[0]);
      hide Meet, Reconcile;
      NeitherKeepsImage(Meet(s, at, blobs[0]), at + 1, blobs[1..]);
    }
  }

  lemma {:induction false} DecidedEarly<I>(s: Local<I>, at: nat, blobs: seq<Sealed<I>>, m: nat)
    requires m <= |blobs|
    ensures Superseded(s, at, blobs[..m]) ==> Superseded(s, at, blobs)
    ensures BecomesLoser(s, at, blobs[..m]) ==> BecomesLoser(s, at, blobs)
    decreases m
  {
    if m > 0 {
      assert blobs[..m][0] == blobs[0] && blobs[..m][1..] == blobs[1..][..m - 1];
      hide Meet;
      DecidedEarly(Meet(s, at, blobs[0]), at + 1, blobs[1..], m - 1);
    }
  }

  /** A pass cut after it applied some images and before it saved anything: run again, it ends exactly where
      the whole pass would have ended if and only if the device's own image had not become the loser of
      a fork, or is what was applied anyway. Otherwise that image is lost. */
  lemma CutPassIsSafeIff<I>(s: Local<I>, at: nat, blobs: seq<Sealed<I>>, m: nat)
    requires m <= |blobs|
    ensures MeetAll(CutPass(s, at, blobs, m), at, blobs) == MeetAll(s, at, blobs)
       <==> !BecomesLoser(s, at, blobs[..m]) || CutPass(s, at, blobs, m).image == s.image
  {
    hide Meet, MeetAll, Superseded, BecomesLoser;
    var image := MeetAll(s, at, blobs[..m]).image;
    DecidedEarly(s, at, blobs, m);
    if BecomesLoser(s, at, blobs[..m]) {
      LoserRemembers(s, image, at, blobs);
    } else if Superseded(s, at, blobs[..m]) {
      SupersededForgets(s, image, at, blobs);
    } else {
      NeitherKeepsImage(s, at, blobs[..m]);
      assert s.(image := s.image) == s;
    }
  }

  /** A blob below the local vector changes nothing. */
  lemma {:induction false} StaleChangesNothing<I>(s: Local<I>, at: nat, blobs: seq<Sealed<I>>)
    requires Canonical(s.vv) && forall b <- blobs :: Canonical(b.vv) && Leq(b.vv, s.vv)
    ensures MeetAll(s, at, blobs) == s
    decreases |blobs|
  {
    if blobs != [] {
      assert blobs[0] in blobs && forall b <- blobs[1..] :: b in blobs;
      RelationIsTheOrder(blobs[0].vv, s.vv);
      assert Meet(s, at, blobs[0]) == s;
      hide Meet, Leq, Canonical;
      StaleChangesNothing(s, at + 1, blobs[1..]);
    }
  }

  /** A pass cut while it saves, after the vector and before the forks: pulling the same blobs again brings
      back what it had preserved if and only if it had met no fork. */
  lemma CutSaveKeepsForksIff<I>(s: Local<I>, at: nat, blobs: seq<Sealed<I>>, saved: Vec)
    requires Canonical(s.vv) && Canonical(saved) && forall b <- blobs :: Canonical(b.vv)
    requires Leq(MeetAll(s, at, blobs).vv, saved)
    ensures
      var whole := MeetAll(s, at, blobs);
      MeetAll(whole.(vv := saved, forks := s.forks), at, blobs).forks == whole.forks <==> whole.forks == s.forks
  {
    var whole := MeetAll(s, at, blobs);
    PassIsTheJoin(s, at, blobs, saved);
    forall b | b in blobs ensures Leq(b.vv, saved) {}
    hide MeetAll, Canonical;
    StaleChangesNothing(whole.(vv := saved, forks := s.forks), at, blobs);
  }

  // ---------------------------------------------------------------- the pass as code

  lemma NextPulled<I>(s: Local<I>, cursor: nat, log: seq<Sealed<I>>, i: nat)
    requires cursor + i < |log|
    ensures MeetAll(s, cursor, log[cursor..cursor + i + 1]) == Meet(MeetAll(s, cursor, log[cursor..cursor + i]), cursor + i, log[cursor + i])
  {
    hide MeetAll, Meet;
    MeetAllAppends(s, cursor, log[cursor..cursor + i], log[cursor + i]);
    assert log[cursor..cursor + i + 1] == log[cursor..cursor + i] + [log[cursor + i]];
  }

  class Device<I> {
    const id: DeviceId
    var syncVv: Vec
    var syncCursor: nat
    var syncForks: seq<Loser<I>>
    /** The live session's database image. */
    var image: I

    constructor (id: DeviceId, image: I)
      ensures this.id == id && this.image == image && syncVv == [] && syncCursor == 0 && syncForks == []
    {
      this.id, this.image, syncVv, syncCursor, syncForks := id, image, [], 0, [];
    }

    /** One iteration of the pull loop. */
    method ReconcileNext(s: Local<I>, at: nat, b: Sealed<I>) returns (s': Local<I>)
      requires s.image == image
      modifies this`image
      ensures s' == Meet(s, at, b) && image == s'.image
    {
      s' := s;
      match Reconcile(s.vv, b.vv) {
        case FastForward =>
          image := b.image;
          s' := s'.(image := b.image, vv := Merge(s.vv, b.vv), applied := s.applied + 1);
        case Stale =>
        case Fork(incomingWins) =>
          var loser := b;
          if incomingWins {
            loser := Sealed(s.vv, image);
            image := b.image;
          }
          s' := s'.(image := image, vv := Merge(s.vv, b.vv), forks := s.forks + [Loser(at, |s.forks|, loser)], forked := s.forked + 1);
      }
    }

    /** The pull loop: `count` blobs from `cursor` on, reconciled in order. */
    method Pull(relay: InMemoryRelay<Sealed<I>>, bucket: string, cursor: nat, count: nat)
      returns (s: Local<I>)
      requires count > 0 ==> cursor + count <= |relay.Log(bucket)|
      modifies this`image
      ensures image == s.image
      ensures s == MeetAll(Local(syncVv, old(image), syncForks, 0, 0), cursor, if count > 0 then relay.Log(bucket)[cursor..cursor + count] else [])
    {
      s := Local(syncVv, image, syncForks, 0, 0);
      if count == 0 { return; }
      ghost var log, start := relay.Log(bucket), s;
      assert log[cursor..cursor] == [] && MeetAll(start, cursor, []) == start;
      hide MeetAll, Meet;
      for i := 0 to count
        invariant image == s.image && s == MeetAll(start, cursor, log[cursor..cursor + i])
      {
        NextPulled(start, cursor, log, i);
        var b := relay.Get(bucket, cursor + i);
        s := ReconcileNext(s, cursor + i, b.value);
      }
    }

    /** `sync()`: pull from the cursor, reconcile in order, then publish the result. */
    method SyncOnce(relay: InMemoryRelay<Sealed<I>>, bucket: string, push: bool)
      returns (pulled: nat, applied: nat, forked: nat)
      modifies this, relay
      ensures
        var log := old(relay.Log(bucket));
        var from := Min(old(syncCursor), |log|);
        var s := MeetAll(Local(old(syncVv), old(image), old(syncForks), 0, 0), old(syncCursor), log[from..]);
        && image == s.image && syncForks == s.forks && applied == s.applied && forked == s.forked
        && pulled == |log| - from
        && syncVv == (if push then Incremented(s.vv, id) else s.vv)
        && relay.Log(bucket) == (if push then log + [Sealed(syncVv, image)] else log)
        && syncCursor == if push then |relay.Log(bucket)| else Max(old(syncCursor), |log|)
      ensures forall other :: other != bucket ==> relay.Log(other) == old(relay.Log(other))
    {
      hide MeetAll, Incremented;
      ghost var log := relay.Log(bucket);
      var cursor := syncCursor;
      pulled := relay.List(bucket, cursor);
      assert log[Min(cursor, |log|)..] == if pulled > 0 then log[cursor..cursor + pulled] else [];
      var s := Pull(relay, bucket, cursor, pulled);
      applied, forked := s.applied, s.forked;
      var localVv := s.vv;
      cursor := cursor + pulled;
      if push {
        localVv := Incremented(localVv, id);
        var _ := relay.Put(bucket, Sealed(localVv, image));
        cursor := relay.List(bucket, 0);
      }
      syncVv := localVv;
      syncCursor := cursor;
      syncForks := s.forks;
    }
  }

  // ---------------------------------------------------------------- the pass is a run of the protocol

  /** The log as the relay stores it, with some image in each blob. */
  function Stored(log: seq<Sync.Push>): (s: seq<Sealed<()>>)
    ensures |s| == |log| && forall i :: 0 <= i < |log| ==> s[i] == Sealed(log[i].vv, ())
  {
    seq(|log|, i requires 0 <= i < |log| => Sealed(log[i].vv, ()))
  }

  /** The device is pulling, with this vector, at this cursor. */
  ghost predicate Stands(w: Sync.World, x: DeviceId, log: seq<Sync.Push>, vv: Vec, next: nat, end: nat) {
    && w.log == log && next <= end <= |log|
    && w.PhaseOf(x).Pulling? && w.PhaseOf(x).vv == vv && w.PhaseOf(x).next == next && w.PhaseOf(x).end == end
  }

  /** Undisturbed pull steps of the protocol compute exactly what the pass computes. */
  lemma {:induction false} PullsAreThePass(w: Sync.World, x: DeviceId, log: seq<Sync.Push>, n: nat, s: Local<()>, next: nat, end: nat)
    requires Stands(w, x, log, s.vv, next, end) && next + n <= end <= |log|
    ensures Stands(Sync.Run(w, Sync.Repeat(x, Sync.Pull, n)), x, log, MeetAll(s, next, Stored(log[next..next + n])).vv, next + n, end)
    decreases n
  {
    if n == 0 {
      hide Sync.Next, Meet, Stored, Stands;
      assert log[next..next] == [] && Stored([]) == [];
    } else {
      hide Sync.Next, Sync.Run, Meet, MeetAll, Stored, Sync.Repeat, Stands;
      PullOnce(w, x, log, s, next, end);
      RunFirst(w, x, n);
      StoredFirst(log, next, n);
      var blob := Sealed(log[next].vv, ());
      PullsAreThePass(Sync.Next(w, x, Sync.Pull), x, log, n - 1, Meet(s, next, blob), next + 1, end);
      MeetFirst(s, next, blob, Stored(log[next + 1..next + n]));
    }
  }

  lemma RunFirst(w: Sync.World, x: DeviceId, n: nat)
    requires n > 0
    ensures Sync.Run(w, Sync.Repeat(x, Sync.Pull, n)) == Sync.Run(Sync.Next(w, x, Sync.Pull), Sync.Repeat(x, Sync.Pull, n - 1))
  {
    hide Sync.Next;
    assert Sync.Repeat(x, Sync.Pull, n)[1..] == Sync.Repeat(x, Sync.Pull, n - 1) && Sync.Repeat(x, Sync.Pull, n)[0] == (x, Sync.Pull);
  }

  lemma StoredFirst(log: seq<Sync.Push>, i: nat, n: nat)
    requires 0 < n && i + n <= |log|
    ensures Stored(log[i..i + n]) == [Sealed(log[i].vv, ())] + Stored(log[i + 1..i + n])
  {
  }

  lemma MeetFirst<I>(s: Local<I>, at: nat, b: Sealed<I>, rest: seq<Sealed<I>>)
    ensures MeetAll(s, at, [b] + rest) == MeetAll(Meet(s, at, b), at + 1, rest)
  {
    assert ([b] + rest)[1..] == rest;
  }

  lemma PullOnce(w: Sync.World, x: DeviceId, log: seq<Sync.Push>, s: Local<()>, next: nat, end: nat)
    requires Stands(w, x, log, s.vv, next, end) && next < end
    ensures Stands(Sync.Next(w, x, Sync.Pull), x, log, Meet(s, next, Sealed(log[next].vv, ())).vv, next + 1, end)
  {
    hide Merge, Relate, IncomingWins;
  }
}
