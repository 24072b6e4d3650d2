/** Rotating the data-encryption key: shadow files, an intent record sealed last, then roll forward or
    back (`stage_rotation`, `recover_rotation`, `import_ciphertext_file` in vfs.rs). */
module Rotation {
  import opened Bytes
  import opened Crypto
  import opened Anchor
  import opened Manifest
  import opened Reseal
  import opened Fault
  import Commit

  const SUFFIX := "~rot"
  const INTENT_NAME := "__rotate_intent__"

  datatype Intent = Intent(oldGen: nat, newGen: nat, names: seq<string>, anchors: seq<AnchorEntry>)

  /** A pool file: one whose bytes never all landed, a main file, a manifest, or an intent record. */
  datatype File = Incomplete | Main(cells: seq<Cell<Page>>) | Manifest(m: ManifestFile) | Record(cell: Cell<Intent>)

  /** What is durable: the named files and the anchor. */
  datatype Pool = Pool(files: map<string, File>, anchor: Slots<Table>)

  function Shadow(name: string): string {
    name + SUFFIX
  }

  /** The files a roll-back discards. */
  predicate Staging(name: string) {
    (|name| >= 4 && name[|name| - 4..] == SUFFIX) || name == INTENT_NAME
  }

  lemma ShadowNames(a: string, b: string)
    ensures Staging(Shadow(a)) && Shadow(a) != INTENT_NAME
    ensures Shadow(a) == Shadow(b) ==> a == b
  {
    assert Shadow(a)[|a|..] == SUFFIX && Shadow(a)[..|a|] == a && Shadow(b)[..|b|] == b;
    assert Shadow(a)[|Shadow(a)| - 1] == 't' && INTENT_NAME[|INTENT_NAME| - 1] == '_';
  }

  // ---------------------------------------------------------------- durable operations

  /** Each is offered to the fault gate once. */
  datatype Op = Unlink(name: string) | Create(name: string) | Resize(name: string) | Write(name: string, content: File)
    | SaveAnchor(dek: Dek, table: Table)

  function Apply(p: Pool, op: Op): Pool {
    match op
    case Unlink(n) => p.(files := p.files - {n})
    case Create(n) => p.(files := p.files[n := Incomplete])
    case Resize(n) => if n in p.files then p.(files := p.files[n := Incomplete]) else p
    case Write(n, f) => if n in p.files then p.(files := p.files[n := f]) else p
    case SaveAnchor(dek, t) => p.(anchor := Save(dek, p.anchor, t))
  }

  /** The power failing inside an operation: a torn write leaves no readable file, a torn save no
      readable slot. */
  function Tear(p: Pool, op: Op): Pool {
    match op
    case Write(n, _) => if n in p.files then p.(files := p.files[n := Incomplete]) else p
    case SaveAnchor(_, t) => p.(anchor := TornSave(p.anchor, t))
    case _ => p
  }

  function ApplyAll(p: Pool, ops: seq<Op>): Pool
    decreases |ops|
  {
    if ops == [] then p else ApplyAll(Apply(p, ops[0]), ops[1..])
  }

  /** Where the power failed in a list of operations. */
  datatype Cut = Cut(landed: nat, torn: bool)

  function CutAt(p: Pool, ops: seq<Op>, cut: Cut): Pool
    decreases |ops|
  {
    if ops == [] then p
    else if cut.landed == 0 then if cut.torn then Tear(p, ops[0]) else p
    else CutAt(Apply(p, ops[0]), ops[1..], Cut(cut.landed - 1, cut.torn))
  }

  lemma {:induction false} ApplyAllConcat(p: Pool, a: seq<Op>, b: seq<Op>)
    ensures ApplyAll(p, a + b) == ApplyAll(ApplyAll(p, a), b)
    decreases |a|
  {
    hide Apply;
    if a == [] {
      assert a + b == b;
    } else {
      assert (a + b)[1..] == a[1..] + b;
      ApplyAllConcat(Apply(p, a[0]), a[1..], b);
    }
  }

  // ---------------------------------------------------------------- the ceremony

  /** `import_ciphertext_file`; unlinking a name that is not there does nothing. */
  function ImportOps(name: string, content: File): seq<Op> {
    [Unlink(name), Create(name), Resize(name), Write(name, content)]
  }

  /** `reseal_db_ciphertext`: the re-keyed files of one database. */
  function ResealDb(dek: Dek, dek': Dek, p: Pool, db: string): Option<seq<(string, File)>> {
    if ManifestName(db) !in p.files || !p.files[ManifestName(db)].Manifest? then None
    else
      match ResealManifest(dek, dek', db, p.files[ManifestName(db)].m)
      case None => None
      case Some(m) =>
        if db !in p.files then Some([(ManifestName(db), Manifest(m))])
        else if !p.files[db].Main? then None
        else
          match ResealMain(dek, dek', db, m.header.value, p.files[db].cells)
          case None => None
          case Some(cells) => Some([(db, Main(cells)), (ManifestName(db), Manifest(m))])
  }

  function Import(files: seq<(string, File)>): seq<Op> {
    if files == [] then [] else ImportOps(Shadow(files[0].0), files[0].1) + Import(files[1..])
  }

  /** All re-keyed files, until one database refuses. */
  function ResealAll(dek: Dek, dek': Dek, p: Pool, names: seq<string>): (seq<(string, File)>, bool) {
    if names == [] then ([], true)
    else
      match ResealDb(dek, dek', p, names[0])
      case None => ([], false)
      case Some(files) =>
        var (rest, ok) := ResealAll(dek, dek', p, names[1..]);
        (files + rest, ok)
  }

  /** `encode_rotation_intent`'s limits. */
  predicate Recordable(i: Intent) {
    |i.names| <= U16_MAX && |i.anchors| <= ANCHOR_CAP && forall n <- i.names :: |n| <= 255
  }

  function SealIntent(dek': Dek, i: Intent): File {
    Record(Sealed(RotateIntentKey(dek'), INTENT_NAME, NO_DOMAIN, 0, i))
  }

  /** The shadow loop of `stage_rotation`: the operations, and whether every database was re-keyed. */
  function ShadowOps(dek: Dek, dek': Dek, p: Pool, names: seq<string>): (seq<Op>, bool)
    decreases |names|
  {
    if names == [] then ([], true)
    else
      match ResealDb(dek, dek', p, names[0])
      case None => ([], false)
      case Some(files) =>
        var (rest, ok) := ShadowOps(dek, dek', ApplyAll(p, Import(files)), names[1..]);
        (Import(files) + rest, ok)
  }

  /** `stage_rotation`: every shadow, then the intent. */
  function StageOps(dek: Dek, dek': Dek, p: Pool, names: seq<string>, oldGen: nat, newGen: nat): seq<Op> {
    var (shadows, ok) := ShadowOps(dek, dek', p, names);
    var intent := Intent(oldGen, newGen, names, Load(dek, p.anchor).entries);
    shadows + if ok && Recordable(intent) then ImportOps(INTENT_NAME, SealIntent(dek', intent)) else []
  }

  function Targets(names: seq<string>): seq<string> {
    if names == [] then [] else [names[0], ManifestName(names[0])] + Targets(names[1..])
  }

  function Segment(n: string, f: File): seq<Op> {
    ImportOps(n, f) + [Unlink(Shadow(n))]
  }

  /** The file loop of a roll-forward: live := shadow, then the shadow goes. */
  function RollOps(p: Pool, targets: seq<string>): seq<Op>
    decreases |targets|
  {
    if targets == [] then []
    else
      var n := targets[0];
      var ops := if Shadow(n) in p.files then Segment(n, p.files[Shadow(n)]) else [];
      ops + RollOps(ApplyAll(p, ops), targets[1..])
  }

  function Carry(e: AnchorEntry): Bump {
    Bump(e.uuid, Some(e.committed), Some(e.inFlight), if e.epochFloor > 0 then Some(e.epochFloor) else None)
  }

  function SaveOps(dek: Dek, ts: seq<Table>): seq<Op> {
    if ts == [] then [] else [SaveAnchor(dek, ts[0])] + SaveOps(dek, ts[1..])
  }

  /** The anchor loop of a roll-forward; it stops at a table that is full. */
  function CarryOps(dek: Dek, a: Slots<Table>, es: seq<AnchorEntry>): (seq<Op>, bool)
    decreases |es|
  {
    if es == [] then ([], true)
    else
      match Saves(Load(dek, a), Carry(es[0]))
      case None => ([], false)
      case Some(ts) =>
        var (rest, ok) := CarryOps(dek, SaveAll(dek, a, ts), es[1..]);
        (SaveOps(dek, ts) + rest, ok)
  }

  function OpenIntent(dek: Dek, f: File): Option<Intent> {
    if f.Record? then f.cell.Open(RotateIntentKey(dek), INTENT_NAME, NO_DOMAIN, 0) else None
  }

  function UnlinkAll(names: seq<string>): seq<Op> {
    if names == [] then [] else [Unlink(names[0])] + UnlinkAll(names[1..])
  }

  /** `recover_rotation`. `order` is the order in which the pool's map lists the staging files. */
  function RecoverOps(dek: Dek, p: Pool, order: seq<string>): seq<Op> {
    if INTENT_NAME !in p.files then []
    else
      match OpenIntent(dek, p.files[INTENT_NAME])
      case None => UnlinkAll(order)
      case Some(intent) =>
        var (carried, ok) := CarryOps(dek, p.anchor, intent.anchors);
        RollOps(p, Targets(intent.names)) + carried + if ok then [Unlink(INTENT_NAME)] else []
  }

  datatype Recovered = NothingToDo | RolledForward | RolledBack | AnchorFull

  /** What `recover_rotation` reports: which key opens the intent decides. */
  function Verdict(dek: Dek, p: Pool): Recovered {
    if INTENT_NAME !in p.files then NothingToDo
    else
      match OpenIntent(dek, p.files[INTENT_NAME])
      case None => RolledBack
      case Some(intent) => if CarryOps(dek, p.anchor, intent.anchors).1 then RolledForward else AnchorFull
  }

  /** `order` lists exactly the staging files of the pool. */
  ghost predicate Lists(order: seq<string>, p: Pool) {
    forall n :: n in order <==> n in p.files && Staging(n)
  }

  // ---------------------------------------------------------------- before the envelope put

  /** Two pools hold the same outside the staging files. */
  ghost predicate SameLive(p: Pool, q: Pool) {
    && p.anchor == q.anchor
    && forall n :: !Staging(n) ==> (n in p.files <==> n in q.files) && (n in p.files ==> p.files[n] == q.files[n])
  }

  /** Every operation is on a staging file. */
  predicate OnStaging(ops: seq<Op>) {
    forall op <- ops :: !op.SaveAnchor? && Staging(op.name)
  }

  lemma {:induction false} StagingOnly(p: Pool, ops: seq<Op>, cut: Cut)
    requires OnStaging(ops)
    ensures SameLive(p, CutAt(p, ops, cut)) && SameLive(p, ApplyAll(p, ops))
    decreases |ops|
  {
    if ops != [] {
      assert ops[0] in ops && forall op <- ops[1..] :: op in ops;
      assert SameLive(p, Apply(p, ops[0]));
      StagingOnly(Apply(p, ops[0]), ops[1..], if cut.landed > 0 then Cut(cut.landed - 1, cut.torn) else cut);
    }
  }

  lemma {:induction false} ImportOnStaging(files: seq<(string, File)>)
    ensures OnStaging(Import(files))
  {
    if files != [] {
      ImportOnStaging(files[1..]);
      ShadowNames(files[0].0, files[0].0);
    }
  }

  lemma {:induction false} ShadowOpsOnStaging(dek: Dek, dek': Dek, p: Pool, names: seq<string>)
    ensures OnStaging(ShadowOps(dek, dek', p, names).0)
    ensures forall op <- ShadowOps(dek, dek', p, names).0 :: !op.SaveAnchor? && op.name != INTENT_NAME
    decreases |names|
  {
    if names != [] && ResealDb(dek, dek', p, names[0]).Some? {
      var files := ResealDb(dek, dek', p, names[0]).value;
      ImportOnStaging(files);
      ImportWritesShadows(files);
      ShadowOpsOnStaging(dek, dek', ApplyAll(p, Import(files)), names[1..]);
    }
  }

  lemma {:induction false} UnlinkAllOnStaging(order: seq<string>)
    requires forall n <- order :: Staging(n)
    ensures OnStaging(UnlinkAll(order))
  {
    if order != [] {
      assert order[0] in order && forall n <- order[1..] :: n in order;
      UnlinkAllOnStaging(order[1..]);
    }
  }

  /** One recovery attempt: the order the map had and where the power failed. */
  datatype Attempt = Attempt(order: seq<string>, cut: Cut)

  function Retry(dek: Dek, p: Pool, tries: seq<Attempt>): Pool
    decreases |tries|
  {
    if tries == [] then p else Retry(dek, CutAt(p, RecoverOps(dek, p, tries[0].order), tries[0].cut), tries[1..])
  }

  ghost predicate AllList(dek: Dek, p: Pool, tries: seq<Attempt>)
    decreases |tries|
  {
    tries == [] || (Lists(tries[0].order, p)
                    && AllList(dek, CutAt(p, RecoverOps(dek, p, tries[0].order), tries[0].cut), tries[1..]))
  }

  /** The intent, if there is one, does not open under `dek`. */
  predicate Shut(dek: Dek, p: Pool) {
    INTENT_NAME in p.files ==> OpenIntent(dek, p.files[INTENT_NAME]).None?
  }

  lemma {:induction false} UnlinksKeepShut(dek: Dek, p: Pool, order: seq<string>, cut: Cut)
    requires Shut(dek, p)
    ensures Shut(dek, CutAt(p, UnlinkAll(order), cut))
    decreases |order|
  {
    if order != [] {
      assert UnlinkAll(order)[1..] == UnlinkAll(order[1..]);
      UnlinksKeepShut(dek, Apply(p, Unlink(order[0])), order[1..], if cut.landed > 0 then Cut(cut.landed - 1, cut.torn) else cut);
    }
  }

  lemma {:induction false} RollBackKeepsLive(dek: Dek, p: Pool, tries: seq<Attempt>)
    requires Shut(dek, p) && AllList(dek, p, tries)
    ensures SameLive(p, Retry(dek, p, tries)) && Shut(dek, Retry(dek, p, tries))
    decreases |tries|
  {
    if tries != [] {
      var t := tries[0];
      var ops := RecoverOps(dek, p, t.order);
      if INTENT_NAME in p.files {
        assert ops == UnlinkAll(t.order);
        UnlinkAllOnStaging(t.order);
        StagingOnly(p, ops, t.cut);
        UnlinksKeepShut(dek, p, t.order, t.cut);
      }
      RollBackKeepsLive(dek, CutAt(p, ops, t.cut), tries[1..]);
    }
  }

  /** Cutting a run of operations cannot make the intent open under a key that nothing seals with. */
  lemma {:induction false} StageKeepsShut(dek: Dek, p: Pool, ops: seq<Op>, cut: Cut)
    requires Shut(dek, p) && forall op <- ops :: op.Write? && op.name == INTENT_NAME ==> OpenIntent(dek, op.content).None?
    ensures Shut(dek, CutAt(p, ops, cut))
    decreases |ops|
  {
    if ops != [] {
      assert ops[0] in ops && forall op <- ops[1..] :: op in ops;
      StageKeepsShut(dek, Apply(p, ops[0]), ops[1..], if cut.landed > 0 then Cut(cut.landed - 1, cut.torn) else cut);
    }
  }

  lemma {:induction false} ImportWritesShadows(files: seq<(string, File)>)
    ensures forall op <- Import(files) :: !op.SaveAnchor? && op.name != INTENT_NAME
  {
    if files != [] {
      ImportWritesShadows(files[1..]);
      ShadowNames(files[0].0, files[0].0);
    }
  }

  /** Before the envelope put: wherever the stage is cut, and however often recovery under the old key
      is cut after it, every live file and the anchor are exactly what they were. */
  lemma OldLineKeepsEverything(dek: Dek, dek': Dek, p: Pool, names: seq<string>, oldGen: nat, newGen: nat,
                               cut: Cut, tries: seq<Attempt>)
    requires dek != dek' && Shut(dek, p)
    requires AllList(dek, CutAt(p, StageOps(dek, dek', p, names, oldGen, newGen), cut), tries)
    ensures SameLive(p, Retry(dek, CutAt(p, StageOps(dek, dek', p, names, oldGen, newGen), cut), tries))
  {
    var ops := StageOps(dek, dek', p, names, oldGen, newGen);
    ShadowOpsOnStaging(dek, dek', p, names);
    StagingOnly(p, ops, cut);
    StageKeepsShut(dek, p, ops, cut);
    RollBackKeepsLive(dek, CutAt(p, ops, cut), tries);
  }

  // ---------------------------------------------------------------- what a roll-back leaves behind

  lemma {:induction false} UnlinkAllRemoves(p: Pool, order: seq<string>)
    ensures ApplyAll(p, UnlinkAll(order)).files.Keys == p.files.Keys - (set n | n in order)
    decreases |order|
  {
    if order != [] {
      assert UnlinkAll(order)[1..] == UnlinkAll(order[1..]);
      UnlinkAllRemoves(Apply(p, Unlink(order[0])), order[1..]);
      assert order == [order[0]] + order[1..];
    }
  }

  /** A completed recovery on the old line clears the staging area exactly when it found an intent or
      there was nothing to clear: shadows staged before a cut that the intent had not followed yet, or
      left by a roll-back cut after it unlinked the intent, stay. */
  lemma RollBackClearsIff(dek: Dek, p: Pool, order: seq<string>)
    requires Shut(dek, p) && Lists(order, p)
    ensures
      (forall n <- ApplyAll(p, RecoverOps(dek, p, order)).files :: !Staging(n))
      <==> (INTENT_NAME in p.files || forall n <- p.files :: !Staging(n))
  {
    if INTENT_NAME in p.files {
      UnlinkAllRemoves(p, order);
      var q := ApplyAll(p, UnlinkAll(order));
      assert RecoverOps(dek, p, order) == UnlinkAll(order);
      forall n | n in q.files ensures !Staging(n) { assert n in q.files.Keys; }
    }
  }

  /** And such a pool is reached: a stage cut right after its first shadow, of any database it can re-key,
      leaves that shadow and no intent, and recovery under either key finds nothing to do. */
  lemma CutStageLeavesShadow(dek: Dek, dek': Dek, p: Pool, names: seq<string>, oldGen: nat, newGen: nat, order: seq<string>, key: Dek)
    requires INTENT_NAME !in p.files && names != [] && ResealDb(dek, dek', p, names[0]).Some?
    ensures
      var q := CutAt(p, StageOps(dek, dek', p, names, oldGen, newGen), Cut(4, false));
      var shadow := Shadow(ResealDb(dek, dek', p, names[0]).value[0].0);
      && shadow in q.files && Staging(shadow) && INTENT_NAME !in q.files
      && RecoverOps(key, q, order) == [] && shadow in ApplyAll(q, RecoverOps(key, q, order)).files
  {
    var files := ResealDb(dek, dek', p, names[0]).value;
    var (n, f) := files[0];
    var first := ImportOps(Shadow(n), f);
    ShadowNames(n, n);
    FirstImported(dek, dek', p, names, oldGen, newGen);
    var ops := StageOps(dek, dek', p, names, oldGen, newGen);
    hide StageOps, ResealDb;
    assert ops[0] == first[0] && ops[1..][0] == first[1] && ops[1..][1..][0] == first[2] && ops[1..][1..][1..][0] == first[3];
    var p1 := Apply(p, first[0]);
    var p2 := Apply(p1, first[1]);
    var p3 := Apply(p2, first[2]);
    var p4 := Apply(p3, first[3]);
    assert CutAt(p, ops, Cut(4, false)) == CutAt(p1, ops[1..], Cut(3, false)) == CutAt(p2, ops[1..][1..], Cut(2, false));
    assert CutAt(p2, ops[1..][1..], Cut(2, false)) == CutAt(p3, ops[1..][1..][1..], Cut(1, false)) == CutAt(p4, ops[1..][1..][1..][1..], Cut(0, false));
    assert Shadow(n) in p4.files && INTENT_NAME !in p4.files;
  }

  lemma FirstImported(dek: Dek, dek': Dek, p: Pool, names: seq<string>, oldGen: nat, newGen: nat)
    requires names != [] && ResealDb(dek, dek', p, names[0]).Some?
    ensures
      var files := ResealDb(dek, dek', p, names[0]).value;
      files != [] && ImportOps(Shadow(files[0].0), files[0].1) <= StageOps(dek, dek', p, names, oldGen, newGen)
  {
    var files := ResealDb(dek, dek', p, names[0]).value;
    hide ResealDb, ImportOps, ApplyAll, Recordable;
    assert ImportOps(Shadow(files[0].0), files[0].1) <= Import(files) <= ShadowOps(dek, dek', p, names).0;
  }

  // ---------------------------------------------------------------- after the envelope put

  /** The re-keyed files a rotation installs: distinct live names with their new contents. */
  ghost predicate Plan(plan: seq<(string, File)>) {
    && (forall i :: 0 <= i < |plan| ==> !Staging(plan[i].0))
    && (forall i, j :: 0 <= i < j < |plan| ==> plan[i].0 != plan[j].0)
  }

  function Names(plan: seq<(string, File)>): (names: seq<string>)
    ensures |names| == |plan| && forall i :: 0 <= i < |plan| ==> names[i] == plan[i].0
  {
    seq(|plan|, i requires 0 <= i < |plan| => plan[i].0)
  }

  /** A file is still in its shadow, or already live. */
  predicate Placed(p: Pool, name: string, content: File) {
    if Shadow(name) in p.files then p.files[Shadow(name)] == content else name in p.files && p.files[name] == content
  }

  predicate Installed(p: Pool, name: string, content: File) {
    Shadow(name) !in p.files && name in p.files && p.files[name] == content
  }

  ghost predicate AllPlaced(p: Pool, plan: seq<(string, File)>) {
    forall i :: 0 <= i < |plan| ==> Placed(p, plan[i].0, plan[i].1)
  }

  ghost predicate AllInstalled(p: Pool, plan: seq<(string, File)>) {
    forall i :: 0 <= i < |plan| ==> Installed(p, plan[i].0, plan[i].1)
  }

  /** The anchor under the new key holds the carried entries up to some point, unchanged. */
  ghost predicate Carried(dek: Dek, a: Slots<Table>, es: seq<AnchorEntry>) {
    Anchor.Wf(dek, a) && Load(dek, a).entries <= es
  }

  /** Files that the rotation does not concern. */
  predicate Concerns(plan: seq<(string, File)>, name: string) {
    name == INTENT_NAME || exists f <- plan :: name == f.0 || name == Shadow(f.0)
  }

  ghost predicate SameElsewhere(p: Pool, q: Pool, plan: seq<(string, File)>) {
    forall n :: !Concerns(plan, n) ==> (n in p.files <==> n in q.files) && (n in p.files ==> p.files[n] == q.files[n])
  }

  /** What a rotation is about: the new key, the plan, the intent. */
  datatype Job = Job(dek: Dek, plan: seq<(string, File)>, intent: Intent)

  ghost predicate JobOk(job: Job) {
    && Plan(job.plan) && Targets(job.intent.names) == Names(job.plan)
    && DistinctUuids(job.intent.anchors) && |job.intent.anchors| <= ANCHOR_CAP
  }

  /** The roll-forward has not completed. */
  ghost predicate Rolling(job: Job, p: Pool) {
    && INTENT_NAME in p.files && p.files[INTENT_NAME] == SealIntent(job.dek, job.intent)
    && AllPlaced(p, job.plan) && Carried(job.dek, p.anchor, job.intent.anchors)
  }

  /** It has. */
  ghost predicate Done(job: Job, p: Pool) {
    && INTENT_NAME !in p.files && AllInstalled(p, job.plan)
    && Anchor.Wf(job.dek, p.anchor) && Load(job.dek, p.anchor).entries == job.intent.anchors
  }

  // ---------------------------------------------------------------- every operation of a roll-forward is safe

  ghost predicate SafeFile(job: Job, p: Pool, op: Op, i: nat)
    requires i < |job.plan|
  {
    var (n, f) := job.plan[i];
    match op
    case Unlink(m) => (m == n && Shadow(n) in p.files) || (m == Shadow(n) && n in p.files && p.files[n] == f)
    case Create(m) => m == n && Shadow(n) in p.files
    case Resize(m) => m == n && Shadow(n) in p.files
    case Write(m, _) => m == n && Shadow(n) in p.files
    case SaveAnchor(_, _) => false
  }

  ghost predicate SafeSave(job: Job, p: Pool, op: Op) {
    && op.SaveAnchor? && op.dek == job.dek && op.table.seqno == Load(job.dek, p.anchor).seqno + 1
    && op.table.entries <= job.intent.anchors
  }

  ghost predicate Safe(job: Job, p: Pool, op: Op) {
    SafeSave(job, p, op) || exists i :: 0 <= i < |job.plan| && SafeFile(job, p, op, i)
  }

  ghost predicate AllSafe(job: Job, p: Pool, ops: seq<Op>)
    decreases |ops|
  {
    ops == [] || (Safe(job, p, ops[0]) && AllSafe(job, Apply(p, ops[0]), ops[1..]))
  }

  lemma FileOpKeeps(job: Job, p: Pool, op: Op, i: nat)
    requires JobOk(job) && Rolling(job, p) && i < |job.plan| && SafeFile(job, p, op, i)
    ensures Rolling(job, Apply(p, op)) && Rolling(job, Tear(p, op))
    ensures SameElsewhere(p, Apply(p, op), job.plan) && SameElsewhere(p, Tear(p, op), job.plan)
  {
    var n := job.plan[i].0;
    ShadowNames(n, n);
    assert job.plan[i] in job.plan;
    forall q | q == Apply(p, op) || q == Tear(p, op) ensures AllPlaced(q, job.plan) {
      forall j | 0 <= j < |job.plan| ensures Placed(q, job.plan[j].0, job.plan[j].1) {
        var m := job.plan[j].0;
        ShadowNames(m, n);
        ShadowNames(n, m);
        assert j != i ==> m != n && Shadow(m) != Shadow(n);
        assert m != Shadow(n) && n != Shadow(m);
        assert Placed(p, m, job.plan[j].1);
      }
    }
  }

  lemma SaveOpKeeps(job: Job, p: Pool, op: Op)
    requires Rolling(job, p) && SafeSave(job, p, op)
    ensures Rolling(job, Apply(p, op)) && Rolling(job, Tear(p, op))
    ensures Load(job.dek, Apply(p, op).anchor) == op.table
  {
    SaveIsAtomic(job.dek, p.anchor, op.table);
    assert Apply(p, op).files == p.files && Tear(p, op).files == p.files;
  }

  lemma SafeKeeps(job: Job, p: Pool, op: Op)
    requires JobOk(job) && Rolling(job, p) && Safe(job, p, op)
    ensures Rolling(job, Apply(p, op)) && Rolling(job, Tear(p, op))
    ensures SameElsewhere(p, Apply(p, op), job.plan) && SameElsewhere(p, Tear(p, op), job.plan)
  {
    if SafeSave(job, p, op) {
      SaveOpKeeps(job, p, op);
    } else {
      var i :| 0 <= i < |job.plan| && SafeFile(job, p, op, i);
      FileOpKeeps(job, p, op, i);
    }
  }

  lemma {:induction false} SafeRun(job: Job, p: Pool, ops: seq<Op>, cut: Cut)
    requires JobOk(job) && Rolling(job, p) && AllSafe(job, p, ops)
    ensures Rolling(job, CutAt(p, ops, cut)) && SameElsewhere(p, CutAt(p, ops, cut), job.plan)
    ensures Rolling(job, ApplyAll(p, ops)) && SameElsewhere(p, ApplyAll(p, ops), job.plan)
    decreases |ops|
  {
    hide Rolling, Safe, Apply, Tear, Concerns;
    if ops != [] {
      SafeKeeps(job, p, ops[0]);
      SafeRun(job, Apply(p, ops[0]), ops[1..], if cut.landed > 0 then Cut(cut.landed - 1, cut.torn) else cut);
    }
  }

  lemma {:induction false} SafeConcat(job: Job, p: Pool, a: seq<Op>, b: seq<Op>)
    requires AllSafe(job, p, a) && AllSafe(job, ApplyAll(p, a), b)
    ensures AllSafe(job, p, a + b)
    decreases |a|
  {
    hide Safe, Apply;
    if a == [] {
      assert a + b == b;
    } else {
      assert (a + b)[1..] == a[1..] + b;
      SafeConcat(job, Apply(p, a[0]), a[1..], b);
    }
  }

  lemma {:induction false} CutLast(p: Pool, a: seq<Op>, op: Op, cut: Cut)
    ensures CutAt(p, a + [op], cut) ==
      if cut.landed < |a| then CutAt(p, a, cut)
      else if cut.landed > |a| then Apply(ApplyAll(p, a), op)
      else if cut.torn then Tear(ApplyAll(p, a), op) else ApplyAll(p, a)
    decreases |a|
  {
    hide Apply, Tear;
    if a == [] {
      assert [] + [op] == [op] && [op][1..] == [];
    } else {
      assert (a + [op])[1..] == a[1..] + [op];
      if cut.landed > 0 { CutLast(Apply(p, a[0]), a[1..], op, Cut(cut.landed - 1, cut.torn)); }
    }
  }

  // ---------------------------------------------------------------- the file loop

  lemma SegmentIs(n: string, f: File)
    ensures Segment(n, f) == ImportOps(n, f) + [Unlink(Shadow(n))]
  {
  }

  function AfterSegment(p: Pool, n: string, f: File): Pool {
    p.(files := p.files[n := f] - {Shadow(n)})
  }

  lemma SegmentEffect(p: Pool, n: string, f: File)
    ensures ApplyAll(p, Segment(n, f)) == AfterSegment(p, n, f)
    ensures
      var p1 := Apply(p, Unlink(n));
      var p2 := Apply(p1, Create(n));
      var p3 := Apply(p2, Resize(n));
      var p4 := Apply(p3, Write(n, f));
      p4.files == p.files[n := f] && p4.anchor == p.anchor
  {
    var s := Segment(n, f);
    assert s[1..] == [Create(n), Resize(n), Write(n, f), Unlink(Shadow(n))];
    assert s[1..][1..] == [Resize(n), Write(n, f), Unlink(Shadow(n))];
    assert s[1..][1..][1..] == [Write(n, f), Unlink(Shadow(n))];
    assert s[1..][1..][1..][1..] == [Unlink(Shadow(n))];
    var p1 := Apply(p, Unlink(n));
    var p2 := Apply(p1, Create(n));
    var p3 := Apply(p2, Resize(n));
    var p4 := Apply(p3, Write(n, f));
    var p5 := Apply(p4, Unlink(Shadow(n)));
    assert p4.files == p.files[n := f];
    assert ApplyAll(p4, [Unlink(Shadow(n))]) == p5;
    assert ApplyAll(p3, [Write(n, f), Unlink(Shadow(n))]) == p5;
    assert ApplyAll(p2, [Resize(n), Write(n, f), Unlink(Shadow(n))]) == p5;
    assert ApplyAll(p1, s[1..]) == p5;
  }

  lemma SegmentIsSafe(job: Job, p: Pool, i: nat)
    requires JobOk(job) && Rolling(job, p) && i < |job.plan| && Shadow(job.plan[i].0) in p.files
    ensures AllSafe(job, p, Segment(job.plan[i].0, p.files[Shadow(job.plan[i].0)]))
  {
    var (n, f) := job.plan[i];
    assert Placed(p, n, f);
    ShadowNames(n, n);
    var s := Segment(n, f);
    assert s[1..] == [Create(n), Resize(n), Write(n, f), Unlink(Shadow(n))];
    assert s[1..][1..] == [Resize(n), Write(n, f), Unlink(Shadow(n))];
    assert s[1..][1..][1..] == [Write(n, f), Unlink(Shadow(n))];
    assert s[1..][1..][1..][1..] == [Unlink(Shadow(n))];
    assert n != Shadow(n);
    var p1 := Apply(p, Unlink(n));
    var p2 := Apply(p1, Create(n));
    var p3 := Apply(p2, Resize(n));
    var p4 := Apply(p3, Write(n, f));
    assert SafeFile(job, p, s[0], i) && SafeFile(job, p1, Create(n), i) && SafeFile(job, p2, Resize(n), i);
    assert SafeFile(job, p3, Write(n, f), i) && SafeFile(job, p4, Unlink(Shadow(n)), i);
    hide SafeFile, Apply;
    assert AllSafe(job, p4, [Unlink(Shadow(n))]);
    assert AllSafe(job, p3, [Write(n, f), Unlink(Shadow(n))]);
    assert AllSafe(job, p2, [Resize(n), Write(n, f), Unlink(Shadow(n))]);
    assert AllSafe(job, p1, s[1..]);
  }

  ghost predicate InstalledUpTo(job: Job, p: Pool, i: nat) {
    forall k :: 0 <= k < i && k < |job.plan| ==> Installed(p, job.plan[k].0, job.plan[k].1)
  }

  lemma SegmentInstalls(job: Job, p: Pool, i: nat)
    requires JobOk(job) && i < |job.plan| && Shadow(job.plan[i].0) in p.files && InstalledUpTo(job, p, i)
    ensures
      var q := AfterSegment(p, job.plan[i].0, job.plan[i].1);
      InstalledUpTo(job, q, i + 1) && q.anchor == p.anchor
  {
    var (n, f) := job.plan[i];
    ShadowNames(n, n);
    forall k | 0 <= k < |job.plan| && k != i
      ensures Shadow(job.plan[k].0) != Shadow(n) && job.plan[k].0 != n && Shadow(job.plan[k].0) != n && job.plan[k].0 != Shadow(n)
    {
      ShadowNames(job.plan[k].0, n);
    }
  }

  lemma {:induction false} RollIsSafe(job: Job, p: Pool, i: nat)
    requires JobOk(job) && Rolling(job, p) && i <= |job.plan| && InstalledUpTo(job, p, i)
    ensures
      var ops := RollOps(p, Names(job.plan)[i..]);
      && AllSafe(job, p, ops)
      && AllInstalled(ApplyAll(p, ops), job.plan) && ApplyAll(p, ops).anchor == p.anchor
    decreases |job.plan| - i
  {
    if i < |job.plan| {
      var (n, f) := job.plan[i];
      var names := Names(job.plan)[i..];
      assert names[0] == n && names[1..] == Names(job.plan)[i + 1..];
      assert Placed(p, n, f);
      if Shadow(n) in p.files {
        var q := AfterSegment(p, n, f);
        SegmentIsSafe(job, p, i);
        SegmentEffect(p, n, f);
        SegmentInstalls(job, p, i);
        SafeRun(job, p, Segment(n, f), Cut(0, false));
        hide Rolling, AllInstalled, InstalledUpTo, AfterSegment, Safe, Apply;
        RollIsSafe(job, q, i + 1);
        var rest := RollOps(q, names[1..]);
        SafeConcat(job, p, Segment(n, f), rest);
        ApplyAllConcat(p, Segment(n, f), rest);
        assert RollOps(p, names) == Segment(n, f) + rest;
      } else {
        assert [] + RollOps(p, names[1..]) == RollOps(p, names[1..]);
        RollIsSafe(job, p, i + 1);
      }
    }
  }

  // ---------------------------------------------------------------- the anchor loop

  lemma {:induction false} FindDistinct(es: seq<AnchorEntry>, i: nat)
    requires i < |es| && DistinctUuids(es)
    ensures Find(es, es[i].uuid) == i
  {
    if i > 0 { FindDistinct(es[1..], i - 1); }
  }

  lemma {:induction false} FindAbsent(es: seq<AnchorEntry>, u: Uuid)
    requires forall e <- es :: e.uuid != u
    ensures Find(es, u) == |es|
  {
    if es != [] { FindAbsent(es[1..], u); }
  }

  /** Recording the carried entry i over a table that holds the first j of them. */
  lemma UpsertCarried(es: seq<AnchorEntry>, i: nat, j: nat)
    requires DistinctUuids(es) && |es| <= ANCHOR_CAP && i < |es| && i <= j <= |es|
    ensures Upsert(es[..j], Carry(es[i])) == Some(es[..Max(j, i + 1)])
  {
    if i < j {
      FindDistinct(es[..j], i);
      assert es[..j][i := es[i]] == es[..j];
    } else {
      FindAbsent(es[..j], es[i].uuid);
      assert es[..i] + [es[i]] == es[..i + 1];
    }
  }

  ghost predicate HoldsFirst(job: Job, a: Slots<Table>, j: nat) {
    Anchor.Wf(job.dek, a) && j <= |job.intent.anchors| && Load(job.dek, a).entries == job.intent.anchors[..j]
  }

  lemma OneSaveSafe(job: Job, p: Pool, t: Table, j: nat)
    requires Rolling(job, p) && j <= |job.intent.anchors|
    requires t.seqno == Load(job.dek, p.anchor).seqno + 1 && t.entries == job.intent.anchors[..j]
    ensures SafeSave(job, p, SaveAnchor(job.dek, t))
    ensures HoldsFirst(job, Save(job.dek, p.anchor, t), j) && Load(job.dek, Save(job.dek, p.anchor, t)) == t
  {
    SaveIsAtomic(job.dek, p.anchor, t);
  }

  lemma CarryOneSafe(job: Job, p: Pool, i: nat, j: nat)
    requires JobOk(job) && Rolling(job, p) && i < |job.intent.anchors| && i <= j && HoldsFirst(job, p.anchor, j)
    ensures
      var saves := Saves(Load(job.dek, p.anchor), Carry(job.intent.anchors[i]));
      && saves.Some?
      && var q := p.(anchor := SaveAll(job.dek, p.anchor, saves.value));
         && AllSafe(job, p, SaveOps(job.dek, saves.value)) && ApplyAll(p, SaveOps(job.dek, saves.value)) == q
         && HoldsFirst(job, q.anchor, Max(j, i + 1))
  {
    var es := job.intent.anchors;
    UpsertCarried(es, i, j);
    var ts := Saves(Load(job.dek, p.anchor), Carry(es[i])).value;
    var j' := Max(j, i + 1);
    var a, dek := p.anchor, job.dek;
    OneSaveSafe(job, p, ts[0], j');
    var op0 := SaveAnchor(dek, ts[0]);
    var p1 := Apply(p, op0);
    SaveOpKeeps(job, p, op0);
    assert ts[..1] == [ts[0]] && ts[..0] == [] && [ts[0]][..0] == [];
    assert SaveAll(dek, a, [ts[0]]) == Save(dek, a, ts[0]);
    if |ts| == 2 {
      var op1 := SaveAnchor(dek, ts[1]);
      OneSaveSafe(job, p1, ts[1], j');
      assert ts[..2][..1] == [ts[0]] && ts[1..] == [ts[1]] && ts[1..][1..] == [];
      assert SaveAll(dek, a, ts) == Save(dek, Save(dek, a, ts[0]), ts[1]);
      assert SaveOps(dek, ts[1..]) == [op1];
      assert SaveOps(dek, ts) == [op0, op1] && [op0, op1][1..] == [op1];
      hide Safe, Apply, Rolling;
      assert Safe(job, p, op0) && Safe(job, p1, op1) by { SafeOfSave(job, p, op0); SafeOfSave(job, p1, op1); }
      assert AllSafe(job, p1, [op1]);
      assert ApplyAll(p1, [op1]) == Apply(p1, op1);
    } else {
      assert ts == [ts[0]] && ts[1..] == [];
      assert SaveOps(dek, ts) == [op0] && [op0][1..] == [];
    }
  }

  lemma SafeOfSave(job: Job, p: Pool, op: Op)
    requires SafeSave(job, p, op)
    ensures Safe(job, p, op)
  {
  }

  lemma {:induction false} CarryIsSafe(job: Job, p: Pool, i: nat, j: nat)
    requires JobOk(job) && Rolling(job, p) && i <= |job.intent.anchors| && i <= j && HoldsFirst(job, p.anchor, j)
    ensures
      var (ops, ok) := CarryOps(job.dek, p.anchor, job.intent.anchors[i..]);
      && ok && AllSafe(job, p, ops)
      && ApplyAll(p, ops).files == p.files && HoldsFirst(job, ApplyAll(p, ops).anchor, |job.intent.anchors|)
    decreases |job.intent.anchors| - i
  {
    var es := job.intent.anchors[i..];
    if es != [] {
      assert es[0] == job.intent.anchors[i] && es[1..] == job.intent.anchors[i + 1..];
      CarryOneSafe(job, p, i, j);
      var ts := Saves(Load(job.dek, p.anchor), Carry(es[0])).value;
      var q := p.(anchor := SaveAll(job.dek, p.anchor, ts));
      SafeRun(job, p, SaveOps(job.dek, ts), Cut(0, false));
      hide Rolling, HoldsFirst, Safe, Apply, Load, Saves, SaveAll, SaveOps;
      CarryIsSafe(job, q, i + 1, Max(j, i + 1));
      var (rest, ok) := CarryOps(job.dek, q.anchor, es[1..]);
      SafeConcat(job, p, SaveOps(job.dek, ts), rest);
      ApplyAllConcat(p, SaveOps(job.dek, ts), rest);
    }
  }

  // ---------------------------------------------------------------- a recovery attempt, cut or whole

  /** The operations before the intent is dropped. */
  lemma RecoverIsSafe(job: Job, p: Pool, order: seq<string>) returns (ops: seq<Op>)
    requires JobOk(job) && Rolling(job, p)
    ensures RecoverOps(job.dek, p, order) == ops + [Unlink(INTENT_NAME)] && CarryOps(job.dek, p.anchor, job.intent.anchors).1
    ensures AllSafe(job, p, ops)
    ensures Done(job, Apply(ApplyAll(p, ops), Unlink(INTENT_NAME)))
  {
    var names, es := Names(job.plan), job.intent.anchors;
    var roll := RollOps(p, names);
    assert names[0..] == names && es[0..] == es && es[..|es|] == es;
    RollIsSafe(job, p, 0);
    var q := ApplyAll(p, roll);
    var (carried, ok) := CarryOps(job.dek, p.anchor, es);
    ops := roll + carried;
    assert InstalledUpTo(job, q, |job.plan|);
    hide RollOps, CarryOps, AllSafe, ApplyAll, AllInstalled, Names, Targets, InstalledUpTo;
    SafeRun(job, p, roll, Cut(0, false));
    RollingHolds(job, q);
    CarryIsSafe(job, q, 0, |Load(job.dek, q.anchor).entries|);
    SafeConcat(job, p, roll, carried);
    ApplyAllConcat(p, roll, carried);
    InstalledCarries(job, q, ApplyAll(p, ops));
    LastUnlinkIsDone(job, ApplyAll(p, ops));
    RecoverUnfolds(job, p, order, roll, carried);
  }

  lemma RollingHolds(job: Job, p: Pool)
    requires Rolling(job, p)
    ensures HoldsFirst(job, p.anchor, |Load(job.dek, p.anchor).entries|)
  {
  }

  lemma InstalledCarries(job: Job, q: Pool, r: Pool)
    requires AllInstalled(q, job.plan) && r.files == q.files
    ensures AllInstalled(r, job.plan)
  {
  }

  lemma LastUnlinkIsDone(job: Job, r: Pool)
    requires JobOk(job) && AllInstalled(r, job.plan) && HoldsFirst(job, r.anchor, |job.intent.anchors|)
    ensures Done(job, Apply(r, Unlink(INTENT_NAME)))
  {
    var es := job.intent.anchors;
    assert es[..|es|] == es;
    forall i | 0 <= i < |job.plan| ensures Shadow(job.plan[i].0) != INTENT_NAME && job.plan[i].0 != INTENT_NAME {
      ShadowNames(job.plan[i].0, job.plan[i].0);
    }
  }

  lemma RecoverUnfolds(job: Job, p: Pool, order: seq<string>, roll: seq<Op>, carried: seq<Op>)
    requires JobOk(job) && Rolling(job, p)
    requires roll == RollOps(p, Names(job.plan)) && CarryOps(job.dek, p.anchor, job.intent.anchors) == (carried, true)
    ensures RecoverOps(job.dek, p, order) == roll + carried + [Unlink(INTENT_NAME)]
  {
  }

  lemma AttemptKeeps(job: Job, p: Pool, t: Attempt)
    requires JobOk(job) && (Rolling(job, p) || Done(job, p))
    ensures
      var q := CutAt(p, RecoverOps(job.dek, p, t.order), t.cut);
      (Rolling(job, q) || Done(job, q)) && SameElsewhere(p, q, job.plan)
  {
    if Rolling(job, p) {
      var ops := RecoverIsSafe(job, p, t.order);
      CutLast(p, ops, Unlink(INTENT_NAME), t.cut);
      SafeRun(job, p, ops, t.cut);
      assert forall n :: !Concerns(job.plan, n) ==> n != INTENT_NAME;
    }
  }

  /** A completed attempt finishes the rotation. */
  lemma WholeAttemptFinishes(job: Job, p: Pool, order: seq<string>)
    requires JobOk(job) && (Rolling(job, p) || Done(job, p))
    ensures
      var q := ApplyAll(p, RecoverOps(job.dek, p, order));
      Done(job, q) && SameElsewhere(p, q, job.plan) && RecoverOps(job.dek, q, order) == []
  {
    if Rolling(job, p) {
      var ops := RecoverIsSafe(job, p, order);
      var last := [Unlink(INTENT_NAME)];
      ApplyAllConcat(p, ops, last);
      SafeRun(job, p, ops, Cut(0, false));
      var r := ApplyAll(p, ops);
      assert ApplyAll(r, last) == Apply(r, last[0]) by { assert last[1..] == []; }
      assert forall n :: !Concerns(job.plan, n) ==> n != INTENT_NAME;
    }
  }

  /** The table has an entry that is no less. */
  predicate Held(es: seq<AnchorEntry>, e: AnchorEntry) {
    exists l <- es :: NoLess(e, l)
  }

  lemma HeldLater(es: seq<AnchorEntry>, later: seq<AnchorEntry>, e: AnchorEntry)
    requires Held(es, e) && Below(es, later)
    ensures Held(later, e)
  {
    var l :| l in es && NoLess(e, l);
    var i :| 0 <= i < |es| && es[i] == l;
    assert NoLess(es[i], later[i]) && later[i] in later;
  }

  lemma CarriedIsHeld(es: seq<AnchorEntry>, e: AnchorEntry)
    requires Upsert(es, Carry(e)).Some?
    ensures Held(Upsert(es, Carry(e)).value, e)
  {
    UpsertPlace(es, Carry(e));
    hide Upsert;
    var (later, i) := (Upsert(es, Carry(e)).value, Find(es, e.uuid));
    assert later[i] in later && later[i].uuid == e.uuid;
    hide Find;
    assert NoLess(e, later[i]);
  }

  /** The saves of one carried entry. */
  lemma CarriedOne(dek: Dek, p: Pool, e: AnchorEntry)
    requires Anchor.Wf(dek, p.anchor) && Saves(Load(dek, p.anchor), Carry(e)).Some?
    ensures
      var ts := Saves(Load(dek, p.anchor), Carry(e)).value;
      var q := p.(anchor := SaveAll(dek, p.anchor, ts));
      && ApplyAll(p, SaveOps(dek, ts)) == q && Anchor.Wf(dek, q.anchor)
      && Below(Load(dek, p.anchor).entries, Load(dek, q.anchor).entries) && Held(Load(dek, q.anchor).entries, e)
  {
    var (t, b) := (Load(dek, p.anchor), Carry(e));
    var ts := Saves(t, b).value;
    RecordKeeps(dek, p.anchor, b, 2, false);
    UpsertRaises(t.entries, b);
    CarriedIsHeld(t.entries, e);
    hide Upsert, Load, Anchor.Wf, Held, Below, Save, SaveAll, SaveOps, ApplyAll;
    assert ts[..Min(2, |ts|)] == ts;
    SavesApply(dek, p, ts);
  }

  lemma SavesApply(dek: Dek, p: Pool, ts: seq<Table>)
    requires |ts| in {1, 2}
    ensures ApplyAll(p, SaveOps(dek, ts)) == p.(anchor := SaveAll(dek, p.anchor, ts))
  {
    hide Save;
    var op0 := SaveAnchor(dek, ts[0]);
    assert SaveAll(dek, p.anchor, []) == p.anchor && [ts[0]][..0] == [];
    assert SaveAll(dek, p.anchor, [ts[0]]) == Save(dek, p.anchor, ts[0]);
    if |ts| == 2 {
      var op1 := SaveAnchor(dek, ts[1]);
      assert ts[..1] == [ts[0]] && ts[1..] == [ts[1]] && ts[1..][1..] == [];
      assert SaveOps(dek, ts[1..]) == [op1] + SaveOps(dek, []) == [op1];
      assert SaveOps(dek, ts) == [op0] + [op1] == [op0, op1] && [op0, op1][1..] == [op1] && [op1][1..] == [];
      assert ApplyAll(Apply(p, op0), [op1]) == Apply(Apply(p, op0), op1);
    } else {
      assert ts == [ts[0]] && ts[1..] == [] && SaveOps(dek, ts) == [op0] && [op0][1..] == [];
    }
  }

  lemma NoRoom(es: seq<AnchorEntry>, seqno: nat, e: AnchorEntry)
    requires Saves(Table(seqno, es), Carry(e)).None?
    ensures |es| >= 101 && forall l <- es :: l.uuid != e.uuid
  {
  }

  /** Into any anchor: either every entry is carried, so that the anchor holds no less, or the table is full and
      one of them is not in it. Nothing that was there is lost. */
  lemma {:induction false} CarriesAllOrFull(dek: Dek, p: Pool, es: seq<AnchorEntry>)
    requires Anchor.Wf(dek, p.anchor)
    ensures
      var (ops, ok) := CarryOps(dek, p.anchor, es);
      var q := ApplyAll(p, ops);
      && q.files == p.files && Anchor.Wf(dek, q.anchor) && Below(Load(dek, p.anchor).entries, Load(dek, q.anchor).entries)
      && (ok ==> forall e <- es :: Held(Load(dek, q.anchor).entries, e))
      && (!ok ==> |Load(dek, q.anchor).entries| >= 101 && exists e <- es :: forall l <- Load(dek, q.anchor).entries :: l.uuid != e.uuid)
    decreases |es|
  {
    if es != [] {
      var t := Load(dek, p.anchor);
      assert es == [es[0]] + es[1..];
      if Saves(t, Carry(es[0])).None? {
        NoRoom(t.entries, t.seqno, es[0]);
        hide Load, Saves, Carry;
      } else {
        var ts := Saves(t, Carry(es[0])).value;
        var q := p.(anchor := SaveAll(dek, p.anchor, ts));
        CarriedOne(dek, p, es[0]);
        CarriesAllOrFull(dek, q, es[1..]);
        ApplyAllConcat(p, SaveOps(dek, ts), CarryOps(dek, q.anchor, es[1..]).0);
        hide Load, Saves, SaveAll, SaveOps, ApplyAll, Held, Anchor.Wf, Carry;
        HeldLater(Load(dek, q.anchor).entries, Load(dek, ApplyAll(q, CarryOps(dek, q.anchor, es[1..]).0).anchor).entries, es[0]);
        BelowIsTransitive(t.entries, Load(dek, q.anchor).entries, Load(dek, ApplyAll(q, CarryOps(dek, q.anchor, es[1..]).0).anchor).entries);
      }
    } else {
      hide Load;
    }
  }

  lemma BelowIsTransitive(a: seq<AnchorEntry>, b: seq<AnchorEntry>, c: seq<AnchorEntry>)
    requires Below(a, b) && Below(b, c)
    ensures Below(a, c)
  {
    forall i | 0 <= i < |a| ensures NoLess(a[i], c[i]) { assert NoLess(a[i], b[i]) && NoLess(b[i], c[i]); }
  }

  lemma {:induction false} RollSparesIntent(p: Pool, targets: seq<string>)
    requires forall n <- targets :: n != INTENT_NAME
    ensures Spares(RollOps(p, targets), INTENT_NAME)
    decreases |targets|
  {
    if targets != [] {
      var n := targets[0];
      assert n in targets && forall m <- targets[1..] :: m in targets;
      ShadowNames(n, n);
      var ops := if Shadow(n) in p.files then Segment(n, p.files[Shadow(n)]) else [];
      RollSparesIntent(ApplyAll(p, ops), targets[1..]);
    }
  }

  lemma {:induction false} TargetsSpareIntent(names: seq<string>)
    requires forall n <- names :: DbName(n)
    ensures forall n <- Targets(names) :: n != INTENT_NAME
  {
    if names != [] {
      assert names[0] in names && forall n <- names[1..] :: n in names;
      NamesDiffer(names[0], names[0]);
      TargetsSpareIntent(names[1..]);
    }
  }

  lemma {:induction false} CarrySpares(dek: Dek, a: Slots<Table>, es: seq<AnchorEntry>, name: string)
    ensures Spares(CarryOps(dek, a, es).0, name)
    decreases |es|
  {
    if es != [] && Saves(Load(dek, a), Carry(es[0])).Some? {
      var ts := Saves(Load(dek, a), Carry(es[0])).value;
      CarrySpares(dek, SaveAll(dek, a, ts), es[1..], name);
      SavesSpare(dek, ts, name);
    }
  }

  lemma {:induction false} SavesSpare(dek: Dek, ts: seq<Table>, name: string)
    ensures Spares(SaveOps(dek, ts), name)
  {
    if ts != [] { SavesSpare(dek, ts[1..], name); }
  }

  /** On the new line, whatever the pool: rolled forward, the intent is gone and the anchor holds everything it
      carried; with a full anchor the intent stays as it was, for the next attempt, and some entry it carries
      has no place. */
  lemma NewLineReport(dek: Dek, p: Pool, intent: Intent, order: seq<string>)
    requires INTENT_NAME in p.files && OpenIntent(dek, p.files[INTENT_NAME]) == Some(intent)
    requires Anchor.Wf(dek, p.anchor) && forall n <- intent.names :: DbName(n)
    ensures
      var (report, q) := (Verdict(dek, p), ApplyAll(p, RecoverOps(dek, p, order)));
      var es := Load(dek, q.anchor).entries;
      && report in {RolledForward, AnchorFull}
      && (report == RolledForward ==> INTENT_NAME !in q.files && forall e <- intent.anchors :: Held(es, e))
      && (report == AnchorFull ==>
           && INTENT_NAME in q.files && q.files[INTENT_NAME] == p.files[INTENT_NAME]
           && |es| >= 101 && exists e <- intent.anchors :: forall l <- es :: l.uuid != e.uuid)
  {
    var roll := RollOps(p, Targets(intent.names));
    var (carried, ok) := CarryOps(dek, p.anchor, intent.anchors);
    var r := ApplyAll(p, roll);
    RollKeepsAnchor(p, Targets(intent.names));
    CarriesAllOrFull(dek, r, intent.anchors);
    ApplyAllConcat(p, roll, carried);
    TargetsSpareIntent(intent.names);
    RollSparesIntent(p, Targets(intent.names));
    CarrySpares(dek, p.anchor, intent.anchors, INTENT_NAME);
    SparedFile(p, roll, INTENT_NAME);
    SparedFile(r, carried, INTENT_NAME);
    var last: seq<Op> := [Unlink(INTENT_NAME)];
    ApplyAllConcat(p, roll + carried, last);
    RecoverIs(dek, p, intent, order);
    hide RollOps, CarryOps, Load, Held, Anchor.Wf, Targets, DbName, OpenIntent, RecoverOps, Spares;
    assert last[1..] == [] && roll + carried + [] == roll + carried;
    assert ApplyAll(ApplyAll(r, carried), last) == Apply(ApplyAll(r, carried), last[0]);
  }

  lemma RecoverIs(dek: Dek, p: Pool, intent: Intent, order: seq<string>)
    requires INTENT_NAME in p.files && OpenIntent(dek, p.files[INTENT_NAME]) == Some(intent)
    ensures
      var (carried, ok) := CarryOps(dek, p.anchor, intent.anchors);
      && RecoverOps(dek, p, order) == RollOps(p, Targets(intent.names)) + carried + (if ok then [Unlink(INTENT_NAME)] else [])
      && Verdict(dek, p) == if ok then RolledForward else AnchorFull
  {
    hide RollOps, CarryOps;
  }

  /** The report of a recovery is true of it: rolled forward when it finished a rotation, nothing to do when
      the rotation was already finished and it issues nothing. */
  lemma ReportIsTrue(job: Job, p: Pool, order: seq<string>)
    requires JobOk(job) && (Rolling(job, p) || Done(job, p))
    ensures
      var (report, q) := (Verdict(job.dek, p), ApplyAll(p, RecoverOps(job.dek, p, order)));
      && report in {RolledForward, NothingToDo}
      && (report == RolledForward <==> Rolling(job, p)) && (report == RolledForward ==> Done(job, q))
      && (report == NothingToDo <==> Done(job, p)) && (report == NothingToDo ==> RecoverOps(job.dek, p, order) == [] && q == p)
  {
    WholeAttemptFinishes(job, p, order);
    if Rolling(job, p) { var _ := RecoverIsSafe(job, p, order); }
    hide AllPlaced, AllInstalled, RollOps, CarryOps, JobOk, Anchor.Wf, Load;
  }

  /** On the old line: rolled back exactly when there was an intent, and then nothing is staged. */
  lemma OldLineReport(dek: Dek, p: Pool, order: seq<string>)
    requires Shut(dek, p) && Lists(order, p)
    ensures
      var (report, q) := (Verdict(dek, p), ApplyAll(p, RecoverOps(dek, p, order)));
      && report == (if INTENT_NAME in p.files then RolledBack else NothingToDo)
      && (report == RolledBack ==> forall n <- q.files :: !Staging(n))
      && (report == NothingToDo ==> RecoverOps(dek, p, order) == [] && q == p)
  {
    RollBackClearsIff(dek, p, order);
  }

  lemma {:induction false} RetriesKeep(job: Job, p: Pool, tries: seq<Attempt>)
    requires JobOk(job) && (Rolling(job, p) || Done(job, p))
    ensures
      var q := Retry(job.dek, p, tries);
      (Rolling(job, q) || Done(job, q)) && SameElsewhere(p, q, job.plan)
    decreases |tries|
  {
    hide Rolling, Done, Concerns, RecoverOps;
    if tries != [] {
      AttemptKeeps(job, p, tries[0]);
      RetriesKeep(job, CutAt(p, RecoverOps(job.dek, p, tries[0].order), tries[0].cut), tries[1..]);
    }
  }

  // ---------------------------------------------------------------- a completed stage

  /** The name of a main database file, as the session forms it. */
  predicate DbName(n: string) {
    |n| >= 3 && n[|n| - 3..] == ".db"
  }

  /** What the ceremony is handed: the distinct `.db` files of the pool. */
  ghost predicate Stageable(p: Pool, names: seq<string>) {
    && (forall n <- names :: DbName(n) && n in p.files)
    && (forall i, j :: 0 <= i < j < |names| ==> names[i] != names[j])
  }

  /** The new key is random: nothing in the anchor or in a staged manifest opens under it. */
  ghost predicate NewKey(dek': Dek, p: Pool, names: seq<string>) {
    && Anchor.Read(dek', p.anchor, 0).None? && Anchor.Read(dek', p.anchor, 1).None?
    && forall n <- names :: ManifestName(n) in p.files && p.files[ManifestName(n)].Manifest?
                            ==> Unused(dek', n, p.files[ManifestName(n)].m)
  }

  lemma LastOfStaging(n: string)
    requires Staging(n)
    ensures |n| >= 2 && (n[|n| - 1] == '_' || (n[|n| - 1] == 't' && n[|n| - 2] == 'o'))
  {
    if n == INTENT_NAME {
      assert n[|n| - 1] == '_';
    } else {
      var tail := n[|n| - 4..];
      assert tail == "~rot" && tail[3] == 't' && tail[2] == 'o';
    }
  }

  lemma LastOfDb(n: string)
    requires DbName(n)
    ensures n[|n| - 1] == 'b'
  {
    var tail := n[|n| - 3..];
    assert tail == ".db" && tail[2] == 'b';
  }

  lemma LastOfManifest(n: string)
    ensures ManifestName(n)[|ManifestName(n)| - 1] == 't' && ManifestName(n)[|ManifestName(n)| - 2] == 's'
    ensures ManifestName(n)[..|n|] == n && |ManifestName(n)| == |n| + 9
  {
    var m := "#manifest";
    assert m[8] == 't' && m[7] == 's' && ManifestName(n) == n + m;
  }

  lemma NamesDiffer(a: string, b: string)
    requires DbName(a) && DbName(b)
    ensures !Staging(a) && !Staging(ManifestName(a))
    ensures a != ManifestName(b) && (ManifestName(a) == ManifestName(b) ==> a == b)
  {
    hide *;
    LastOfDb(a);
    LastOfManifest(a);
    LastOfManifest(b);
    if Staging(a) { LastOfStaging(a); }
    if Staging(ManifestName(a)) { LastOfStaging(ManifestName(a)); }
    assert ManifestName(a)[..|ManifestName(a)| - 9] == a && ManifestName(b)[..|ManifestName(b)| - 9] == b;
  }

  lemma {:induction false} TargetsOfPlan(dek: Dek, dek': Dek, p: Pool, names: seq<string>)
    requires ResealAll(dek, dek', p, names).1 && forall n <- names :: n in p.files
    ensures Names(ResealAll(dek, dek', p, names).0) == Targets(names)
  {
    if names != [] {
      assert names[0] in names && forall n <- names[1..] :: n in names;
      TargetsOfPlan(dek, dek', p, names[1..]);
      var files, rest := ResealDb(dek, dek', p, names[0]).value, ResealAll(dek, dek', p, names[1..]).0;
      assert |files| == 2 && files[0].0 == names[0] && files[1].0 == ManifestName(names[0]);
      assert Names(files + rest) == Names(files) + Names(rest);
    }
  }

  lemma {:induction false} TargetsAt(names: seq<string>, i: nat)
    requires i < |Targets(names)|
    ensures i / 2 < |names|
    ensures Targets(names)[i] == if i % 2 == 0 then names[i / 2] else ManifestName(names[i / 2])
  {
    if i >= 2 { TargetsAt(names[1..], i - 2); }
  }

  lemma PlanIsPlan(dek: Dek, dek': Dek, p: Pool, names: seq<string>)
    requires ResealAll(dek, dek', p, names).1 && Stageable(p, names)
    ensures Plan(ResealAll(dek, dek', p, names).0)
  {
    var plan, targets := ResealAll(dek, dek', p, names).0, Targets(names);
    TargetsOfPlan(dek, dek', p, names);
    forall i | 0 <= i < |plan| ensures !Staging(plan[i].0) {
      TargetsAt(names, i);
      NamesDiffer(names[i / 2], names[i / 2]);
      assert plan[i].0 == targets[i];
    }
    forall i, j | 0 <= i < j < |plan| ensures plan[i].0 != plan[j].0 {
      TargetsAt(names, i);
      TargetsAt(names, j);
      NamesDiffer(names[i / 2], names[j / 2]);
      NamesDiffer(names[j / 2], names[i / 2]);
      assert plan[i].0 == targets[i] && plan[j].0 == targets[j];
    }
  }

  lemma ImportOneEffect(p: Pool, n: string, f: File)
    ensures ApplyAll(p, ImportOps(n, f)) == p.(files := p.files[n := f])
  {
    SegmentEffect(p, n, f);
    var s := ImportOps(n, f);
    assert s[1..] == [Create(n), Resize(n), Write(n, f)] && s[1..][1..] == [Resize(n), Write(n, f)];
    assert s[1..][1..][1..] == [Write(n, f)];
    var p1 := Apply(p, Unlink(n));
    var p2 := Apply(p1, Create(n));
    var p3 := Apply(p2, Resize(n));
    var p4 := Apply(p3, Write(n, f));
    assert ApplyAll(p3, [Write(n, f)]) == p4;
    assert ApplyAll(p2, [Resize(n), Write(n, f)]) == p4;
    assert ApplyAll(p1, s[1..]) == p4;
  }

  ghost predicate ShadowsHold(p: Pool, plan: seq<(string, File)>) {
    forall f <- plan :: Shadow(f.0) in p.files && p.files[Shadow(f.0)] == f.1
  }

  predicate IsShadow(files: seq<(string, File)>, name: string) {
    exists f <- files :: name == Shadow(f.0)
  }

  ghost predicate SameOffShadows(p: Pool, q: Pool, files: seq<(string, File)>) {
    && q.anchor == p.anchor
    && forall n :: !IsShadow(files, n) ==> (n in q.files <==> n in p.files) && (n in p.files ==> q.files[n] == p.files[n])
  }

  lemma LaterShadows(files: seq<(string, File)>)
    requires files != [] && forall i, j :: 0 <= i < j < |files| ==> files[i].0 != files[j].0
    ensures !IsShadow(files[1..], Shadow(files[0].0))
    ensures forall n :: IsShadow(files, n) <==> n == Shadow(files[0].0) || IsShadow(files[1..], n)
  {
    hide Shadow;
    var n := files[0].0;
    assert files == [files[0]] + files[1..];
    forall g | g in files[1..] ensures Shadow(g.0) != Shadow(n) {
      ShadowNames(g.0, n);
      var k :| 0 <= k < |files[1..]| && files[1..][k] == g;
      assert files[k + 1] == g;
    }
  }

  /** One shadow in front of others. */
  lemma OneMoreShadow(p: Pool, p1: Pool, q: Pool, files: seq<(string, File)>)
    requires files != [] && p1 == p.(files := p.files[Shadow(files[0].0) := files[0].1])
    requires !IsShadow(files[1..], Shadow(files[0].0))
    requires forall n :: IsShadow(files, n) <==> n == Shadow(files[0].0) || IsShadow(files[1..], n)
    requires ShadowsHold(q, files[1..]) && SameOffShadows(p1, q, files[1..])
    ensures ShadowsHold(q, files) && SameOffShadows(p, q, files)
  {
    hide Shadow, IsShadow;
    assert files == [files[0]] + files[1..];
  }

  /** Imports install every shadow and touch nothing but shadows. */
  lemma {:induction false} ImportInstalls(p: Pool, files: seq<(string, File)>)
    requires forall i, j :: 0 <= i < j < |files| ==> files[i].0 != files[j].0
    ensures ShadowsHold(ApplyAll(p, Import(files)), files) && SameOffShadows(p, ApplyAll(p, Import(files)), files)
    decreases |files|
  {
    if files != [] {
      var (n, f) := files[0];
      var p1 := p.(files := p.files[Shadow(n) := f]);
      ImportOneEffect(p, Shadow(n), f);
      ApplyAllConcat(p, ImportOps(Shadow(n), f), Import(files[1..]));
      LaterShadows(files);
      hide ShadowsHold, SameOffShadows, IsShadow, Shadow, ImportOps, ApplyAll;
      ImportInstalls(p1, files[1..]);
      OneMoreShadow(p, p1, ApplyAll(p1, Import(files[1..])), files);
    }
  }

  lemma {:induction false} ImportConcat(a: seq<(string, File)>, b: seq<(string, File)>)
    ensures Import(a + b) == Import(a) + Import(b)
  {
    if a == [] {
      assert a + b == b;
    } else {
      assert (a + b)[1..] == a[1..] + b;
      ImportConcat(a[1..], b);
    }
  }

  /** Staging one database does not change what the others re-key to. */
  lemma {:induction false} StageReadsTheOriginal(dek: Dek, dek': Dek, p: Pool, q: Pool, names: seq<string>)
    requires SameLive(p, q) && forall n <- names :: DbName(n)
    ensures ShadowOps(dek, dek', q, names) == (Import(ResealAll(dek, dek', p, names).0), ResealAll(dek, dek', p, names).1)
    decreases |names|
  {
    if names != [] {
      assert names[0] in names && forall n <- names[1..] :: n in names;
      NamesDiffer(names[0], names[0]);
      assert ResealDb(dek, dek', q, names[0]) == ResealDb(dek, dek', p, names[0]);
      if ResealDb(dek, dek', p, names[0]).Some? {
        var files := ResealDb(dek, dek', p, names[0]).value;
        ImportOnStaging(files);
        StagingOnly(q, Import(files), Cut(0, false));
        StageReadsTheOriginal(dek, dek', p, ApplyAll(q, Import(files)), names[1..]);
        ImportConcat(files, ResealAll(dek, dek', p, names[1..]).0);
      }
    }
  }

  function JobOf(dek: Dek, dek': Dek, p: Pool, names: seq<string>, oldGen: nat, newGen: nat): Job {
    Job(dek', ResealAll(dek, dek', p, names).0, Intent(oldGen, newGen, names, Load(dek, p.anchor).entries))
  }

  lemma StageIs(dek: Dek, dek': Dek, p: Pool, names: seq<string>, oldGen: nat, newGen: nat)
    requires ResealAll(dek, dek', p, names).1 && Stageable(p, names)
    requires Recordable(JobOf(dek, dek', p, names, oldGen, newGen).intent)
    ensures
      var job := JobOf(dek, dek', p, names, oldGen, newGen);
      StageOps(dek, dek', p, names, oldGen, newGen) == Import(job.plan) + ImportOps(INTENT_NAME, SealIntent(dek', job.intent))
  {
    hide ResealAll, ShadowOps, ResealDb;
    StageReadsTheOriginal(dek, dek', p, p, names);
  }

  /** The pool with every shadow in place and then the intent. */
  lemma ArmedPool(job: Job, p: Pool, p1: Pool)
    requires Plan(job.plan) && ShadowsHold(p1, job.plan) && SameOffShadows(p, p1, job.plan)
    requires Anchor.Read(job.dek, p.anchor, 0).None? && Anchor.Read(job.dek, p.anchor, 1).None?
    ensures
      var q := p1.(files := p1.files[INTENT_NAME := SealIntent(job.dek, job.intent)]);
      Rolling(job, q) && SameElsewhere(p, q, job.plan)
  {
    var q := p1.(files := p1.files[INTENT_NAME := SealIntent(job.dek, job.intent)]);
    forall i | 0 <= i < |job.plan| ensures Placed(q, job.plan[i].0, job.plan[i].1) {
      ShadowNames(job.plan[i].0, job.plan[i].0);
      assert job.plan[i] in job.plan;
    }
    assert Load(job.dek, q.anchor) == Table(0, []);
    forall n | !Concerns(job.plan, n)
      ensures (n in p.files <==> n in q.files) && (n in p.files ==> p.files[n] == q.files[n])
    {
      assert !IsShadow(job.plan, n);
    }
  }

  lemma {:induction false} ResealAllIff(dek: Dek, dek': Dek, p: Pool, names: seq<string>)
    ensures ResealAll(dek, dek', p, names).1 <==> forall n <- names :: ResealDb(dek, dek', p, n).Some?
  {
    if names != [] {
      hide ResealDb;
      assert names == [names[0]] + names[1..];
      ResealAllIff(dek, dek', p, names[1..]);
    }
  }

  /** No operation is on the file. */
  predicate Spares(ops: seq<Op>, name: string) {
    forall op <- ops :: op.SaveAnchor? || op.name != name
  }

  lemma {:induction false} SparedFile(p: Pool, ops: seq<Op>, name: string)
    requires Spares(ops, name)
    ensures
      var q := ApplyAll(p, ops);
      (name in q.files <==> name in p.files) && (name in p.files ==> q.files[name] == p.files[name])
    decreases |ops|
  {
    if ops != [] {
      assert ops[0] in ops && forall op <- ops[1..] :: op in ops;
      SparedFile(Apply(p, ops[0]), ops[1..], name);
    }
  }

  /** A stage arms the roll-forward exactly when every database can be re-keyed and the intent fits its record. */
  lemma StageArmsIff(dek: Dek, dek': Dek, p: Pool, names: seq<string>, oldGen: nat, newGen: nat)
    requires INTENT_NAME !in p.files && forall n <- names :: DbName(n)
    ensures
      var intent := Intent(oldGen, newGen, names, Load(dek, p.anchor).entries);
      var q := ApplyAll(p, StageOps(dek, dek', p, names, oldGen, newGen));
      && (INTENT_NAME in q.files <==> (forall n <- names :: ResealDb(dek, dek', p, n).Some?) && Recordable(intent))
      && (INTENT_NAME in q.files ==> q.files[INTENT_NAME] == SealIntent(dek', intent))
  {
    var intent := Intent(oldGen, newGen, names, Load(dek, p.anchor).entries);
    StageReadsTheOriginal(dek, dek', p, p, names);
    ResealAllIff(dek, dek', p, names);
    ShadowOpsOnStaging(dek, dek', p, names);
    var (shadows, ok) := ShadowOps(dek, dek', p, names);
    SparedFile(p, shadows, INTENT_NAME);
    var p1 := ApplyAll(p, shadows);
    hide ResealAll, ShadowOps, ResealDb, Import, ImportOps, ApplyAll, Recordable, Load, DbName;
    if ok && Recordable(intent) {
      ApplyAllConcat(p, shadows, ImportOps(INTENT_NAME, SealIntent(dek', intent)));
      ImportOneEffect(p1, INTENT_NAME, SealIntent(dek', intent));
    } else {
      assert shadows + [] == shadows;
    }
  }

  /** A stage that ran to its end arms the roll-forward, whatever leftovers the pool had. */
  lemma StageArms(dek: Dek, dek': Dek, p: Pool, names: seq<string>, oldGen: nat, newGen: nat)
    requires ResealAll(dek, dek', p, names).1 && Stageable(p, names) && NewKey(dek', p, names)
    requires DistinctUuids(Load(dek, p.anchor).entries)
    requires Recordable(JobOf(dek, dek', p, names, oldGen, newGen).intent)
    ensures
      var (job, q) := (JobOf(dek, dek', p, names, oldGen, newGen), ApplyAll(p, StageOps(dek, dek', p, names, oldGen, newGen)));
      JobOk(job) && Rolling(job, q) && SameElsewhere(p, q, job.plan)
  {
    var job := JobOf(dek, dek', p, names, oldGen, newGen);
    hide ResealAll, StageOps, Load, Import, ImportOps, Rolling, SameElsewhere, ApplyAll;
    PlanIsPlan(dek, dek', p, names);
    TargetsOfPlan(dek, dek', p, names);
    StageIs(dek, dek', p, names, oldGen, newGen);
    ImportInstalls(p, job.plan);
    var p1 := ApplyAll(p, Import(job.plan));
    ApplyAllConcat(p, Import(job.plan), ImportOps(INTENT_NAME, SealIntent(dek', job.intent)));
    ImportOneEffect(p1, INTENT_NAME, SealIntent(dek', job.intent));
    ArmedPool(job, p, p1);
  }

  lemma SameElsewhereChains(a: Pool, b: Pool, c: Pool, plan: seq<(string, File)>)
    requires SameElsewhere(a, b, plan) && SameElsewhere(b, c, plan)
    ensures SameElsewhere(a, c, plan)
  {
  }

  /** After the envelope put: however often recovery under the new key is cut, the next one that
      completes installs exactly the re-keyed files, leaves no shadow and no intent behind, carries
      every anchor entry unchanged, touches no other file, and has nothing left to do. */
  lemma NewLineCompletes(dek: Dek, dek': Dek, p: Pool, names: seq<string>, oldGen: nat, newGen: nat,
                         tries: seq<Attempt>, order: seq<string>)
    requires ResealAll(dek, dek', p, names).1 && Stageable(p, names) && NewKey(dek', p, names)
    requires DistinctUuids(Load(dek, p.anchor).entries)
    requires Recordable(JobOf(dek, dek', p, names, oldGen, newGen).intent)
    ensures
      var job := JobOf(dek, dek', p, names, oldGen, newGen);
      var cut := Retry(dek', ApplyAll(p, StageOps(dek, dek', p, names, oldGen, newGen)), tries);
      var q := ApplyAll(cut, RecoverOps(dek', cut, order));
      && Done(job, q) && SameElsewhere(p, q, job.plan)
      && Load(dek', q.anchor).entries == Load(dek, p.anchor).entries
      && RecoverOps(dek', q, order) == []
  {
    var job := JobOf(dek, dek', p, names, oldGen, newGen);
    hide JobOk, Rolling, SameElsewhere, StageOps, RecoverOps, ResealAll, ApplyAll, Retry, Load, Anchor.Wf, Anchor.Read;
    StageArms(dek, dek', p, names, oldGen, newGen);
    var staged := ApplyAll(p, StageOps(dek, dek', p, names, oldGen, newGen));
    var cut := Retry(dek', staged, tries);
    var q := ApplyAll(cut, RecoverOps(dek', cut, order));
    RetriesKeep(job, staged, tries);
    WholeAttemptFinishes(job, cut, order);
    SameElsewhereChains(p, staged, cut, job.plan);
    SameElsewhereChains(p, cut, q, job.plan);
  }

  /** A database decrypts under the new key to the image it had under the old one, and its manifest says the
      same payload. */
  predicate MeansTheSame(dek: Dek, dek': Dek, p: Pool, q: Pool, db: string) {
    var man := ManifestName(db);
    && db in p.files && db in q.files && man in p.files && man in q.files
    && p.files[db].Main? && q.files[db].Main? && p.files[man].Manifest? && q.files[man].Manifest?
    && p.files[man].m.header.Some? && q.files[man].m.header == p.files[man].m.header
    && ReadManifest(dek', db, q.files[man].m) == ReadManifest(dek, db, p.files[man].m)
    && var u := p.files[man].m.header.value;
       var image := Commit.Decrypt(Commit.Db(dek, db), u, db, p.files[db].cells);
       image.Some? && Commit.Decrypt(Commit.Db(dek', db), u, db, q.files[db].cells) == image
  }

  /** And the installed files mean what the old ones meant. */
  lemma {:induction false} InstalledMeanTheSame(dek: Dek, dek': Dek, p: Pool, q: Pool, names: seq<string>, i: nat)
    requires ResealAll(dek, dek', p, names).1 && Stageable(p, names) && NewKey(dek', p, names) && i < |names|
    requires forall f <- ResealAll(dek, dek', p, names).0 :: f.0 in q.files && q.files[f.0] == f.1
    ensures MeansTheSame(dek, dek', p, q, names[i])
    decreases |names|
  {
    assert names[0] in names;
    if i > 0 {
      assert forall n <- names[1..] :: n in names;
      assert names[1..][i - 1] == names[i];
      hide MeansTheSame;
      InstalledMeanTheSame(dek, dek', p, q, names[1..], i - 1);
    } else {
      var db := names[0];
      var files := ResealDb(dek, dek', p, db).value;
      assert files[0] in ResealAll(dek, dek', p, names).0 && files[1] in ResealAll(dek, dek', p, names).0;
      FirstMeansTheSame(dek, dek', p, q, db);
    }
  }

  lemma FirstMeansTheSame(dek: Dek, dek': Dek, p: Pool, q: Pool, db: string)
    requires ResealDb(dek, dek', p, db).Some? && db in p.files && Unused(dek', db, p.files[ManifestName(db)].m)
    requires forall f <- ResealDb(dek, dek', p, db).value :: f.0 in q.files && q.files[f.0] == f.1
    ensures MeansTheSame(dek, dek', p, q, db)
  {
    var m := p.files[ManifestName(db)].m;
    var files := ResealDb(dek, dek', p, db).value;
    assert files[0] in files && files[1] in files;
    ManifestKeepsMeaning(dek, dek', db, m);
    MainKeepsMeaning(dek, dek', db, m.header.value, p.files[db].cells);
    ImageCarriesOver(dek, dek', db, m.header.value, p.files[db].cells);
    hide ReadManifest, Commit.Decrypt, ResealMain, ResealManifest, Unused;
  }

  /** The promise of a rotation whose envelope put happened: however often recovery was cut, once one has
      completed, every database decrypts under the new key to the image it had under the old one, and its
      manifest says the same payload. */
  lemma RotationKeepsPlaintext(dek: Dek, dek': Dek, p: Pool, names: seq<string>, oldGen: nat, newGen: nat,
                               tries: seq<Attempt>, order: seq<string>, i: nat)
    requires ResealAll(dek, dek', p, names).1 && Stageable(p, names) && NewKey(dek', p, names) && i < |names|
    requires DistinctUuids(Load(dek, p.anchor).entries)
    requires Recordable(JobOf(dek, dek', p, names, oldGen, newGen).intent)
    ensures
      var cut := Retry(dek', ApplyAll(p, StageOps(dek, dek', p, names, oldGen, newGen)), tries);
      var q := ApplyAll(cut, RecoverOps(dek', cut, order));
      MeansTheSame(dek, dek', p, q, names[i])
  {
    NewLineCompletes(dek, dek', p, names, oldGen, newGen, tries, order);
    var cut := Retry(dek', ApplyAll(p, StageOps(dek, dek', p, names, oldGen, newGen)), tries);
    var q := ApplyAll(cut, RecoverOps(dek', cut, order));
    DoneHoldsPlan(JobOf(dek, dek', p, names, oldGen, newGen), q);
    hide StageOps, RecoverOps, ApplyAll, Retry, ResealAll, Recordable, MeansTheSame, Load, Done, DistinctUuids;
    InstalledMeanTheSame(dek, dek', p, q, names, i);
  }

  /** The same for every anchor that a pool can come to have: one entry a database is then no assumption. */
  lemma RotationAfterAnyRun(dek: Dek, dek': Dek, p: Pool, events: seq<Anchor.Event>, names: seq<string>, oldGen: nat, newGen: nat,
                            tries: seq<Attempt>, order: seq<string>)
    requires p.anchor == Anchor.Run(dek, Slots(Torn, Torn), events) && forall e <- events :: e.Lost? ==> e.slot < 2
    requires ResealAll(dek, dek', p, names).1 && Stageable(p, names) && NewKey(dek', p, names)
    requires Recordable(JobOf(dek, dek', p, names, oldGen, newGen).intent)
    ensures
      var job := JobOf(dek, dek', p, names, oldGen, newGen);
      var cut := Retry(dek', ApplyAll(p, StageOps(dek, dek', p, names, oldGen, newGen)), tries);
      var q := ApplyAll(cut, RecoverOps(dek', cut, order));
      && Done(job, q) && SameElsewhere(p, q, job.plan) && RecoverOps(dek', q, order) == []
      && Load(dek', q.anchor).entries == Load(dek, p.anchor).entries
      && forall i :: 0 <= i < |names| ==> MeansTheSame(dek, dek', p, q, names[i])
  {
    Anchor.RunIsDistinct(dek, events);
    NewLineCompletes(dek, dek', p, names, oldGen, newGen, tries, order);
    hide StageOps, RecoverOps, ApplyAll, Retry, ResealAll, Recordable, Load, Done, DistinctUuids, MeansTheSame, SameElsewhere, JobOf;
    var cut := Retry(dek', ApplyAll(p, StageOps(dek, dek', p, names, oldGen, newGen)), tries);
    var q := ApplyAll(cut, RecoverOps(dek', cut, order));
    forall i | 0 <= i < |names| ensures MeansTheSame(dek, dek', p, q, names[i]) {
      RotationKeepsPlaintext(dek, dek', p, names, oldGen, newGen, tries, order, i);
    }
  }

  lemma DoneHoldsPlan(job: Job, q: Pool)
    requires Done(job, q)
    ensures forall f <- job.plan :: f.0 in q.files && q.files[f.0] == f.1
  {
    forall f | f in job.plan ensures f.0 in q.files && q.files[f.0] == f.1 {
      var i :| 0 <= i < |job.plan| && job.plan[i] == f;
      assert Installed(q, job.plan[i].0, job.plan[i].1);
    }
  }

  /** Unlinking a shadow must be one step, as the fault gate has it. The code truncates the file before
      it clears the name; were the power to fail in between, the next recovery would install the empty
      shadow over the live file. */
  lemma EmptiedShadowReplacesTheFile(job: Job, p: Pool, i: nat, order: seq<string>)
    requires JobOk(job) && Rolling(job, p) && i < |job.plan|
    ensures
      var n := job.plan[i].0;
      var emptied := p.(files := p.files[Shadow(n) := Incomplete]);
      var q := ApplyAll(emptied, RecoverOps(job.dek, emptied, order));
      n in q.files && q.files[n] == Incomplete
  {
    var n := job.plan[i].0;
    var emptied := p.(files := p.files[Shadow(n) := Incomplete]);
    var plan' := job.plan[i := (n, Incomplete)];
    var job' := job.(plan := plan');
    ShadowNames(n, n);
    assert Names(plan') == Names(job.plan);
    forall k | 0 <= k < |plan'| ensures Placed(emptied, plan'[k].0, plan'[k].1) {
      ShadowNames(job.plan[k].0, n);
      assert Placed(p, job.plan[k].0, job.plan[k].1);
    }
    WholeAttemptFinishes(job', emptied, order);
    assert Installed(ApplyAll(emptied, RecoverOps(job.dek, emptied, order)), plan'[i].0, plan'[i].1);
  }

  // ---------------------------------------------------------------- the pool

  /** The pool as the code sees it, what is durable behind it, and the fault gate between the two. */
  class OpfsPool {
    const dek: Dek
    var pool: Pool
    var disk: Pool
    var power: Power
    ghost var start: Pool
    ghost var budget: Power
    ghost var issued: seq<Op>

    /** Everything issued happened in the pool; a prefix of it is durable. */
    ghost predicate Valid()
      reads this
    {
      && pool == ApplyAll(start, issued)
      && disk == ApplyAll(start, issued[..budget.Survivors(|issued|)])
      && power == SpentBy(budget, |issued|)
    }

    constructor (dek: Dek, disk: Pool, power: Power)
      ensures Valid() && this.dek == dek && start == pool == disk && budget == power && issued == []
    {
      this.dek, this.pool, this.disk, this.power := dek, disk, disk, power;
      start, budget, issued := disk, power, [];
    }

    /** One gated operation. */
    method Persist(op: Op)
      requires Valid()
      modifies this
      ensures Valid() && start == old(start) && budget == old(budget) && issued == old(issued) + [op]
    {
      NextSurvivor(budget, |issued|);
      ghost var k := budget.Survivors(|issued|);
      ApplyAllConcat(start, issued, [op]);
      assert [op][1..] == [] && ApplyAll(pool, [op]) == Apply(pool, op);
      assert (issued + [op])[..k] == issued[..k];
      if power.Lands() {
        assert issued[..|issued|] == issued && (issued + [op])[..k + 1] == issued + [op];
        disk := Apply(disk, op);
      }
      pool, power := Apply(pool, op), power.Spent();
      issued := issued + [op];
    }

    lemma Grown(before: seq<Op>, ops: seq<Op>)
      requires Valid() && issued == before + ops
      ensures pool == ApplyAll(ApplyAll(start, before), ops)
    {
      ApplyAllConcat(start, before, ops);
    }

    method ImportCiphertextFile(name: string, content: File)
      requires Valid()
      modifies this
      ensures Valid() && start == old(start) && budget == old(budget) && issued == old(issued) + ImportOps(name, content)
      ensures pool == ApplyAll(old(pool), ImportOps(name, content))
    {
      Persist(Unlink(name));
      Persist(Create(name));
      Persist(Resize(name));
      Persist(Write(name, content));
      assert issued == old(issued) + ImportOps(name, content);
      Grown(old(issued), ImportOps(name, content));
    }

    /** One carried entry. */
    method CarryOne(e: AnchorEntry) returns (ok: bool)
      requires Valid()
      modifies this
      ensures Valid() && start == old(start) && budget == old(budget)
      ensures ok <==> Saves(Load(dek, old(pool).anchor), Carry(e)).Some?
      ensures !ok ==> issued == old(issued) && pool == old(pool)
      ensures ok ==>
        var ts := Saves(Load(dek, old(pool).anchor), Carry(e)).value;
        issued == old(issued) + SaveOps(dek, ts) && pool.anchor == SaveAll(dek, old(pool).anchor, ts)
    {
      hide Saves, Load, Save, SaveAll, SaveOps, Valid, Carry;
      var saves := Saves(Load(dek, pool.anchor), Carry(e));
      if saves.None? { return false; }
      SaveTables(saves.value);
      ok := true;
    }

    /** The anchor half of a roll-forward, one carried entry at a time. */
    method CarryAnchors(es: seq<AnchorEntry>) returns (ok: bool)
      requires Valid()
      modifies this
      ensures Valid() && start == old(start) && budget == old(budget)
      ensures (issued, ok) == (old(issued) + CarryOps(dek, old(pool).anchor, es).0, CarryOps(dek, old(pool).anchor, es).1)
    {
      hide CarryOps, Saves, Load, Save, SaveAll, SaveOps, Valid, Carry;
      ghost var all := CarryOps(dek, pool.anchor, es);
      assert es[0..] == es;
      for i := 0 to |es|
        invariant Valid() && start == old(start) && budget == old(budget)
        invariant issued + CarryOps(dek, pool.anchor, es[i..]).0 == old(issued) + all.0
        invariant CarryOps(dek, pool.anchor, es[i..]).1 == all.1
      {
        ghost var before, was := issued, pool;
        CarryFrom(dek, was.anchor, es, i, before);
        var carried := CarryOne(es[i]);
        if !carried { return false; }
      }
      CarryNothing(dek, pool.anchor, es[|es|..], issued);
      ok := true;
    }

    method SaveTables(ts: seq<Table>)
      requires Valid()
      modifies this
      ensures Valid() && start == old(start) && budget == old(budget) && issued == old(issued) + SaveOps(dek, ts)
      ensures pool.anchor == SaveAll(dek, old(pool).anchor, ts)
    {
      assert ts[0..] == ts && ts[..0] == [];
      for i := 0 to |ts|
        invariant Valid() && start == old(start) && budget == old(budget)
        invariant issued + SaveOps(dek, ts[i..]) == old(issued) + SaveOps(dek, ts)
        invariant pool.anchor == SaveAll(dek, old(pool).anchor, ts[..i])
      {
        assert ts[i..][1..] == ts[i + 1..] && ts[..i + 1][..i] == ts[..i];
        ghost var before := issued;
        ghost var was := pool;
        Persist(SaveAnchor(dek, ts[i]));
        ApplyAllConcat(start, before, [SaveAnchor(dek, ts[i])]);
        assert [SaveAnchor(dek, ts[i])][1..] == [];
        assert pool == Apply(was, SaveAnchor(dek, ts[i]));
        assert issued + SaveOps(dek, ts[i + 1..]) == before + SaveOps(dek, ts[i..]);
      }
      assert ts[..|ts|] == ts;
    }

    /** `reseal_db_ciphertext`. */
    method ResealDbCiphertext(db: string, newDek: Dek) returns (r: Option<seq<(string, File)>>)
      ensures r == ResealDb(dek, newDek, pool, db)
    {
      var name := ManifestName(db);
      if name !in pool.files || !pool.files[name].Manifest? || pool.files[name].m.header.None? { return None; }
      var m := ResealManifest(dek, newDek, db, pool.files[name].m).value;
      var out: seq<(string, File)> := [];
      if db in pool.files {
        if !pool.files[db].Main? { return None; }
        var cells := ResealMainFile(dek, newDek, db, m.header.value, pool.files[db].cells);
        if cells.None? { return None; }
        out := out + [(db, Main(cells.value))];
      }
      out := out + [(name, Manifest(m))];
      assert out == if db in pool.files then [out[0], (name, Manifest(m))] else [(name, Manifest(m))];
      r := Some(out);
    }

    /** The shadows of one database. */
    method ImportShadows(files: seq<(string, File)>)
      requires Valid()
      modifies this
      ensures Valid() && start == old(start) && budget == old(budget) && issued == old(issued) + Import(files)
      ensures pool == ApplyAll(old(pool), Import(files))
    {
      for i := 0 to |files|
        invariant Valid() && start == old(start) && budget == old(budget)
        invariant issued + Import(files[i..]) == old(issued) + Import(files)
      {
        assert files[i..][1..] == files[i + 1..] && files[i..][0] == files[i];
        ghost var before := issued;
        ImportCiphertextFile(Shadow(files[i].0), files[i].1);
        assert before + Import(files[i..]) == issued + Import(files[i + 1..]);
      }
      assert files[|files|..] == [] && issued + [] == issued;
      Grown(old(issued), Import(files));
    }

    /** The shadow loop of `stage_rotation`. */
    method StageShadows(newDek: Dek, names: seq<string>) returns (ok: bool)
      requires Valid()
      modifies this
      ensures Valid() && start == old(start) && budget == old(budget) && pool.anchor == old(pool).anchor
      ensures issued == old(issued) + ShadowOps(dek, newDek, old(pool), names).0
      ensures ok == ShadowOps(dek, newDek, old(pool), names).1
    {
      hide ResealDb, Import, OnStaging;
      for i := 0 to |names|
        invariant Valid() && start == old(start) && budget == old(budget) && pool.anchor == old(pool).anchor
        invariant issued + ShadowOps(dek, newDek, pool, names[i..]).0 == old(issued) + ShadowOps(dek, newDek, old(pool), names).0
        invariant ShadowOps(dek, newDek, pool, names[i..]).1 == ShadowOps(dek, newDek, old(pool), names).1
      {
        assert names[i..][1..] == names[i + 1..] && names[i..][0] == names[i];
        var files := ResealDbCiphertext(names[i], newDek);
        if files.None? {
          assert issued + [] == issued;
          return false;
        }
        ghost var before, was := issued, pool;
        ImportOnStaging(files.value);
        StagingOnly(pool, Import(files.value), Cut(0, false));
        ImportShadows(files.value);
        ghost var rest := ShadowOps(dek, newDek, pool, names[i + 1..]).0;
        assert ShadowOps(dek, newDek, was, names[i..]).0 == Import(files.value) + rest;
        assert before + (Import(files.value) + rest) == issued + rest;
      }
      assert names[|names|..] == [] && issued + [] == issued;
      ok := true;
    }

    /** `stage_rotation`. On a refusal the shadows staged so far stay. */
    method StageRotation(newDek: Dek, names: seq<string>, oldGen: nat, newGen: nat) returns (ok: bool)
      requires Valid()
      modifies this
      ensures Valid() && start == old(start) && budget == old(budget)
      ensures issued == old(issued) + StageOps(dek, newDek, old(pool), names, oldGen, newGen)
      ensures ok <==> ShadowOps(dek, newDek, old(pool), names).1 && Recordable(Intent(oldGen, newGen, names, Load(dek, old(pool).anchor).entries))
    {
      hide ShadowOps, Load, Valid;
      ok := StageShadows(newDek, names);
      ghost var shadows := ShadowOps(dek, newDek, old(pool), names).0;
      assert issued == old(issued) + shadows;
      var intent := Intent(oldGen, newGen, names, Load(dek, pool.anchor).entries);
      if !ok || !Recordable(intent) {
        assert shadows + [] == shadows;
        return false;
      }
      ImportCiphertextFile(INTENT_NAME, SealIntent(newDek, intent));
    }

    /** The roll-forward's file loop. */
    method RollFiles(targets: seq<string>)
      requires Valid()
      modifies this
      ensures Valid() && start == old(start) && budget == old(budget) && issued == old(issued) + RollOps(old(pool), targets)
      ensures pool == ApplyAll(old(pool), RollOps(old(pool), targets))
    {
      for i := 0 to |targets|
        invariant Valid() && start == old(start) && budget == old(budget)
        invariant issued + RollOps(pool, targets[i..]) == old(issued) + RollOps(old(pool), targets)
      {
        hide Segment, ImportOps, Apply, Valid;
        assert targets[i..][1..] == targets[i + 1..] && targets[i..][0] == targets[i];
        ghost var before, was := issued, pool;
        var n := targets[i];
        ghost var ops := [];
        assert issued == before + ops;
        if Shadow(n) in pool.files {
          var content := pool.files[Shadow(n)];
          ops := Segment(n, content);
          ImportCiphertextFile(n, content);
          Persist(Unlink(Shadow(n)));
          SegmentIs(n, content);
          assert issued == before + ops;
        }
        Grown(before, ops);
        assert pool == ApplyAll(was, ops);
        ghost var rest := RollOps(pool, targets[i + 1..]);
        assert RollOps(was, targets[i..]) == ops + rest;
        assert before + (ops + rest) == issued + rest;
      }
      assert targets[|targets|..] == [] && issued + [] == issued;
      Grown(old(issued), RollOps(old(pool), targets));
    }

    /** The names `discard_rotation_staging` collects, in some order. */
    method StagingFiles() returns (order: seq<string>)
      ensures Lists(order, pool)
    {
      order := [];
      var left := pool.files.Keys;
      while left != {}
        invariant left <= pool.files.Keys
        invariant forall n :: n in order <==> n in pool.files && n !in left && Staging(n)
        decreases |left|
      {
        var n :| n in left;
        if Staging(n) { order := order + [n]; }
        left := left - {n};
      }
    }

    /** `discard_rotation_staging`: it unlinks exactly the staging files. */
    method DiscardRotationStaging() returns (order: seq<string>)
      requires Valid()
      modifies this
      ensures Valid() && start == old(start) && budget == old(budget) && issued == old(issued) + UnlinkAll(order)
      ensures Lists(order, old(pool)) && forall n <- pool.files :: !Staging(n)
    {
      order := StagingFiles();
      for i := 0 to |order|
        invariant Valid() && start == old(start) && budget == old(budget)
        invariant issued + UnlinkAll(order[i..]) == old(issued) + UnlinkAll(order)
      {
        assert order[i..][1..] == order[i + 1..] && order[i..][0] == order[i];
        ghost var before := issued;
        Persist(Unlink(order[i]));
        assert before + UnlinkAll(order[i..]) == issued + UnlinkAll(order[i + 1..]);
      }
      assert order[|order|..] == [] && issued + [] == issued;
      Grown(old(issued), UnlinkAll(order));
      UnlinkAllRemoves(old(pool), order);
      forall n | n in pool.files ensures !Staging(n) { assert n in pool.files.Keys; }
    }

    /** `recover_rotation`. `order` lists the staging files it unlinked when it rolled back. */
    method RecoverRotation() returns (outcome: Recovered, order: seq<string>)
      requires Valid()
      modifies this
      ensures Valid() && start == old(start) && budget == old(budget)
      ensures issued == old(issued) + RecoverOps(dek, old(pool), order)
      ensures outcome == Verdict(dek, old(pool)) && (outcome.RolledBack? ==> Lists(order, old(pool)))
    {
      hide Valid, RollOps, CarryOps;
      order := [];
      if INTENT_NAME !in pool.files {
        return NothingToDo, order;
      }
      var intent := OpenIntent(dek, pool.files[INTENT_NAME]);
      if intent.None? {
        order := DiscardRotationStaging();
        return RolledBack, order;
      }
      ghost var before, p := issued, pool;
      RollFiles(Targets(intent.value.names));
      ghost var roll := RollOps(p, Targets(intent.value.names));
      RollKeepsAnchor(p, Targets(intent.value.names));
      var ok := CarryAnchors(intent.value.anchors);
      ghost var carried := CarryOps(dek, p.anchor, intent.value.anchors).0;
      assert issued == before + (roll + carried);
      if !ok {
        assert roll + carried + [] == roll + carried;
        return AnchorFull, order;
      }
      Persist(Unlink(INTENT_NAME));
      assert issued == before + (roll + carried + [Unlink(INTENT_NAME)]);
      outcome := RolledForward;
    }

    /** What is durable is a cut of what was issued: `StageOps` and `RecoverOps` are cut nowhere else. */
    lemma DurableIsCut()
      requires Valid()
      ensures disk == CutAt(start, issued, Cut(budget.Survivors(|issued|), false))
    {
      PrefixIsCut(start, issued, budget.Survivors(|issued|));
    }
  }

  /** What is left to carry from entry `i` on, behind operations already issued. */
  lemma CarryFrom(dek: Dek, a: Slots<Table>, es: seq<AnchorEntry>, i: nat, before: seq<Op>)
    requires i < |es|
    ensures
      var (saves, rest) := (Saves(Load(dek, a), Carry(es[i])), CarryOps(dek, a, es[i..]));
      && (saves.None? ==> before + rest.0 == before && !rest.1)
      && (saves.Some? ==>
           var more := CarryOps(dek, SaveAll(dek, a, saves.value), es[i + 1..]);
           before + rest.0 == before + SaveOps(dek, saves.value) + more.0 && rest.1 == more.1)
  {
    hide Saves, Load, SaveAll, SaveOps, Carry;
    assert es[i..][1..] == es[i + 1..] && es[i..][0] == es[i];
  }

  lemma CarryNothing(dek: Dek, a: Slots<Table>, es: seq<AnchorEntry>, before: seq<Op>)
    requires es == []
    ensures CarryOps(dek, a, es) == ([], true) && before + CarryOps(dek, a, es).0 == before
  {
  }

  lemma {:induction false} RollKeepsAnchor(p: Pool, targets: seq<string>)
    ensures ApplyAll(p, RollOps(p, targets)).anchor == p.anchor
    decreases |targets|
  {
    if targets != [] {
      var n := targets[0];
      var ops := if Shadow(n) in p.files then Segment(n, p.files[Shadow(n)]) else [];
      if ops != [] { SegmentEffect(p, n, p.files[Shadow(n)]); }
      ApplyAllConcat(p, ops, RollOps(ApplyAll(p, ops), targets[1..]));
      RollKeepsAnchor(ApplyAll(p, ops), targets[1..]);
    }
  }

  /** The gate's prefix is a cut. */
  lemma {:induction false} PrefixIsCut(p: Pool, ops: seq<Op>, k: nat)
    requires k <= |ops|
    ensures ApplyAll(p, ops[..k]) == CutAt(p, ops, Cut(k, false))
    decreases |ops|
  {
    if k > 0 {
      assert ops[..k][0] == ops[0] && ops[..k][1..] == ops[1..][..k - 1];
      PrefixIsCut(Apply(p, ops[0]), ops[1..], k - 1);
    }
  }
}
