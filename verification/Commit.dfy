/** Opening a main database and sealing a commit (`open_main_db`, `journal_finalize_barrier`,
    `on_main_synced` and their helpers in vfs.rs). */
module Commit {
  import opened Bytes
  import opened Crypto
  import opened Anchor
  import opened Manifest
  import opened Journal
  import opened Fault
  import BlockDevice

  /** One database of a pool: the pool's key and the file name. */
  datatype Db = Db(dek: Dek, name: string)

  function JournalName(name: string): string {
    name + "-journal"
  }

  /** What is durable: the main file, the journal if it exists, the manifest if it exists, the anchor. */
  datatype Disk = Disk(main: seq<Cell<Page>>, journal: Option<seq<Cell<Page>>>,
                       manifest: Option<ManifestFile>, anchor: Slots<Table>)

  /** What an open database remembers between commits. */
  datatype DbState = DbState(uuid: Uuid, generation: nat, committedRoot: Root)

  // ------------------------------------------------------------------------------- reading

  function Block(db: Db, uuid: Uuid, file: string, cells: seq<Cell<Page>>, k: nat): Option<Page>
    requires k < |cells|
  {
    cells[k].Open(DbKey(db.dek, uuid), file, uuid, k)
  }

  /** Every block of the file authenticates. */
  predicate Authentic(db: Db, uuid: Uuid, file: string, cells: seq<Cell<Page>>) {
    forall k :: 0 <= k < |cells| ==> Block(db, uuid, file, cells, k).Some?
  }

  function Plain(db: Db, uuid: Uuid, file: string, cells: seq<Cell<Page>>): (pages: seq<Page>)
    requires Authentic(db, uuid, file, cells)
    ensures |pages| == |cells|
  {
    seq(|cells|, k requires 0 <= k < |cells| => Block(db, uuid, file, cells, k).value)
  }

  /** `decrypt_whole_file`: one block that does not authenticate refuses the file. */
  function Decrypt(db: Db, uuid: Uuid, file: string, cells: seq<Cell<Page>>): Option<seq<Page>> {
    if Authentic(db, uuid, file, cells) then Some(Plain(db, uuid, file, cells)) else None
  }

  method DecryptWholeFile(db: Db, uuid: Uuid, file: string, cells: seq<Cell<Page>>) returns (r: Option<seq<Page>>)
    ensures r == Decrypt(db, uuid, file, cells)
  {
    var pages: seq<Page> := [];
    for k := 0 to |cells|
      invariant |pages| == k
      invariant forall i :: 0 <= i < k ==> Block(db, uuid, file, cells, i) == Some(pages[i])
    {
      var p := cells[k].Open(DbKey(db.dek, uuid), file, uuid, k);
      if p.None? {
        assert Block(db, uuid, file, cells, k).None?;
        return None;
      }
      pages := pages + [p.value];
    }
    assert pages == Plain(db, uuid, file, cells);
    r := Some(pages);
  }

  /** The plaintext byte stream of a journal's blocks. */
  function Stream(pages: seq<Page>): (j: seq<byte>) {
    if pages == [] then [] else pages[0] + Stream(pages[1..])
  }

  /** `journal_is_hot`: block 0 authenticates under the owner's key and starts with the magic. */
  predicate Hot(db: Db, uuid: Uuid, journal: Option<seq<Cell<Page>>>) {
    && journal.Some? && |journal.value| > 0
    && var p := Block(db, uuid, JournalName(db.name), journal.value, 0);
       p.Some? && MAGIC <= p.value
  }

  predicate GoodHeader(page: Page) {
    BlockDevice.SQLITE_MAGIC <= page && BlockDevice.PageSize(page) == BLOCK_SIZE
  }

  lemma GoodHeaderBytes(page: Page)
    ensures GoodHeader(page) <==> BlockDevice.StartsSqlite(page) && page[16] == 0x10 && page[17] == 0x00
  {
    BlockDevice.MagicIsAscii(page);
    BlockDevice.PageSizeBytes(page);
    hide BlockDevice.StartsSqlite, BlockDevice.PageSize;
  }

  /** Over every run of calls on a main file that keep headers whole, the header that the block device lets
      through is the one that an open asks for. */
  lemma LetThroughIsGood(db: Db, uuid: Uuid, f: BlockDevice.File, calls: seq<(BlockDevice.Call, Power)>)
    requires BlockDevice.FirstHeaderOk(BlockDevice.Binding(DbKey(db.dek, uuid), db.name, uuid), f.cells)
    requires forall c <- calls :: BlockDevice.WholeHeaders(c.0)
    ensures
      var cells := BlockDevice.MainRun(BlockDevice.Binding(DbKey(db.dek, uuid), db.name, uuid), f, calls).cells;
      cells != [] && Block(db, uuid, db.name, cells, 0).Some? && BlockDevice.StartsSqlite(Block(db, uuid, db.name, cells, 0).value) ==>
        GoodHeader(Block(db, uuid, db.name, cells, 0).value)
  {
    var b := BlockDevice.Binding(DbKey(db.dek, uuid), db.name, uuid);
    BlockDevice.HeaderStaysOk(b, f, calls);
    var cells := BlockDevice.MainRun(b, f, calls).cells;
    if cells != [] && Block(db, uuid, db.name, cells, 0).Some? { GoodHeaderBytes(Block(db, uuid, db.name, cells, 0).value); }
    hide BlockDevice.MainRun, BlockDevice.WholeHeaders, BlockDevice.StartsSqlite, GoodHeader;
  }

  predicate Accepted(p: Payload, r: Root) {
    r == p.root || (p.prevRoot != ZeroRoot && r == p.prevRoot)
  }

  /** The length the manifest authenticates for a file, if it lists it. */
  function Listed(files: seq<(string, nat)>, name: string): Option<nat> {
    if files == [] then None
    else if files[0].0 == name then Some(files[0].1)
    else Listed(files[1..], name)
  }

  /** The image the open checks: the replayed shadow when the journal is hot, the disk image otherwise. */
  function Served(db: Db, uuid: Uuid, disk: Disk): Option<seq<Page>> {
    var main := Decrypt(db, uuid, db.name, disk.main);
    if !Hot(db, uuid, disk.journal) then main
    else
      var j := Decrypt(db, uuid, JournalName(db.name), disk.journal.value);
      if j.None? || main.None? then None
      else
        match Replay(Stream(j.value), main.value)
        case Ok(image) => Some(image)
        case Err => None
  }

  // ------------------------------------------------------------------------------- durable operations

  datatype Op =
    | SaveAnchor(table: Table)
    | DropManifest
    | NewManifest(uuid: Uuid)
    | SealManifest(payload: Payload)
    | WriteMain(at: nat, page: Page)
    | TruncateMain(blocks: nat)
    | SetJournal(cells: Option<seq<Cell<Page>>>)

  function SealMain(db: Db, uuid: Uuid, k: nat, page: Page): Cell<Page> {
    Sealed(DbKey(db.dek, uuid), db.name, uuid, k, page)
  }

  function Apply(db: Db, disk: Disk, op: Op): Disk {
    match op
    case SaveAnchor(t) => disk.(anchor := Save(db.dek, disk.anchor, t))
    case DropManifest => disk.(manifest := None)
    case NewManifest(uuid) => disk.(manifest := Some(ManifestFile(Some(uuid), Slots(Torn, Torn))))
    case SealManifest(p) =>
      if disk.manifest.None? then disk
      else disk.(manifest := Some(WriteSlot(db.dek, db.name, disk.manifest.value, p)))
    case WriteMain(k, page) =>
      if disk.manifest.None? || disk.manifest.value.header.None? || k > |disk.main| then disk
      else
        var c := SealMain(db, disk.manifest.value.header.value, k, page);
        disk.(main := if k < |disk.main| then disk.main[k := c] else disk.main + [c])
    case TruncateMain(n) => if n <= |disk.main| then disk.(main := disk.main[..n]) else disk
    case SetJournal(j) => disk.(journal := j)
  }

  function ApplyAll(db: Db, disk: Disk, ops: seq<Op>): Disk
    decreases |ops|
  {
    if ops == [] then disk else ApplyAll(db, Apply(db, disk, ops[0]), ops[1..])
  }

  lemma {:induction false} ApplyAllSnoc(db: Db, disk: Disk, ops: seq<Op>, op: Op)
    ensures ApplyAll(db, disk, ops + [op]) == Apply(db, ApplyAll(db, disk, ops), op)
    decreases |ops|
  {
    if ops == [] {
      assert ([] + [op])[1..] == [];
    } else {
      assert (ops + [op])[0] == ops[0] && (ops + [op])[1..] == ops[1..] + [op];
      ApplyAllSnoc(db, Apply(db, disk, ops[0]), ops[1..], op);
    }
  }

  // ------------------------------------------------------------------------------- open_main_db

  datatype Verdict = Create | Refuse | Admit(state: DbState, image: Option<seq<Page>>)

  function BumpGen(uuid: Uuid, committed: Option<nat>, inFlight: nat): Bump {
    Bump(uuid, committed, Some(inFlight), None)
  }

  /** The checks that run after the manifest was read and the anchor recorded. */
  function Check(db: Db, disk: Disk, p: Payload): Verdict {
    var state := DbState(p.uuid, p.generation, p.root);
    var hot := Hot(db, p.uuid, disk.journal);
    var image := Served(db, p.uuid, disk);
    if disk.main == [] then Admit(state, None)
    else if !hot && Listed(p.files, db.name) !in {None, Some(|disk.main| * BLOCK_SIZE)} then Refuse
    else if !hot && (Block(db, p.uuid, db.name, disk.main, 0).None?
                     || !GoodHeader(Block(db, p.uuid, db.name, disk.main, 0).value)) then Refuse
    else if p.root == ZeroRoot then Admit(state, None)
    else if image.None? || !Accepted(p, ImageRoot(image.value)) then Refuse
    else Admit(state, image)
  }

  /** The verdict of `open_main_db`. `image` is what it certifies before SQLite reads a page. */
  function Examine(db: Db, disk: Disk): Verdict {
    var read := if disk.manifest.None? then None else ReadManifest(db.dek, db.name, disk.manifest.value);
    if read.None? then if disk.main == [] then Create else Refuse
    else
      var p := read.value;
      var t := Load(db.dek, disk.anchor);
      if !Fresh(t, p.uuid, p.generation) then Refuse
      else if Saves(t, BumpGen(p.uuid, Some(p.generation), p.generation)).None? then Refuse
      else Check(db, disk, p)
  }

  /** The operations an open makes durable, in order. A refusal after the freshness check has already
      recorded the generation. `newUuid` is the random uuid of a database being created. */
  function OpenOps(db: Db, disk: Disk, newUuid: Uuid): seq<Op> {
    var read := if disk.manifest.None? then None else ReadManifest(db.dek, db.name, disk.manifest.value);
    var t := Load(db.dek, disk.anchor);
    if read.None? then
      if disk.main != [] then []
      else
        (if disk.manifest.Some? then [DropManifest] else [])
        + [NewManifest(newUuid), SealManifest(NewPayload(db, newUuid))]
        + SaveOps(t, BumpGen(newUuid, Some(1), 1))
    else if !Fresh(t, read.value.uuid, read.value.generation) then []
    else SaveOps(t, BumpGen(read.value.uuid, Some(read.value.generation), read.value.generation))
  }

  /** The verdict with the creation of an empty database carried out. */
  function OpenVerdict(db: Db, disk: Disk, newUuid: Uuid): Verdict {
    if Examine(db, disk) != Create then Examine(db, disk)
    else if Saves(Load(db.dek, disk.anchor), BumpGen(newUuid, Some(1), 1)).None? then Refuse
    else Admit(DbState(newUuid, 1, ZeroRoot), None)
  }

  function SaveOps(t: Table, b: Bump): seq<Op>
    requires b.epochFloor.None?
  {
    match Saves(t, b)
    case None => []
    case Some(ts) => [SaveAnchor(ts[0])]
  }

  function NewPayload(db: Db, newUuid: Uuid): Payload {
    Payload(1, newUuid, ZeroRoot, ZeroRoot, [(db.name, 0)])
  }

  // ------------------------------------------------------------------------------- the commit barrier

  function SealedPayload(db: Db, st: DbState, image: seq<Page>, journalLen: Option<nat>): Payload {
    Payload(st.generation + 1, st.uuid, ImageRoot(image), st.committedRoot,
            [(db.name, |image| * BLOCK_SIZE)]
            + if journalLen.Some? then [(JournalName(db.name), journalLen.value)] else [])
  }

  /** The first half of `on_main_synced`: record the generation in flight, then seal the manifest with
      the root of the main file and the previous root. */
  function BarrierHead(db: Db, disk: Disk, st: DbState, journalLen: Option<nat>): Option<(Op, Op)> {
    var t := Saves(Load(db.dek, disk.anchor), BumpGen(st.uuid, None, st.generation + 1));
    var image := Decrypt(db, st.uuid, db.name, disk.main);
    if t.None? || image.None? || disk.manifest.None? then None
    else Some((SaveAnchor(t.value[0]), SealManifest(SealedPayload(db, st, image.value, journalLen))))
  }

  /** All of `on_main_synced`: the head, then the generation recorded as committed. `None` when it fails
      before its last operation. */
  function BarrierOps(db: Db, disk: Disk, st: DbState, journalLen: Option<nat>): Option<seq<Op>> {
    var head := BarrierHead(db, disk, st, journalLen);
    if head.None? then None
    else
      var t := Saves(Load(db.dek, Apply(db, disk, head.value.0).anchor),
                     BumpGen(st.uuid, Some(st.generation + 1), st.generation + 1));
      if t.None? then None else Some([head.value.0, head.value.1, SaveAnchor(t.value[0])])
  }

  /** The operations that a barrier issues before it fails, or all of them. */
  function BarrierIssues(db: Db, disk: Disk, st: DbState, journalLen: Option<nat>): seq<Op> {
    var first := Saves(Load(db.dek, disk.anchor), BumpGen(st.uuid, None, st.generation + 1));
    var head := BarrierHead(db, disk, st, journalLen);
    var ops := BarrierOps(db, disk, st, journalLen);
    if ops.Some? then ops.value
    else if head.Some? then [head.value.0, head.value.1]
    else if first.Some? then [SaveAnchor(first.value[0])]
    else []
  }

  function AfterBarrier(db: Db, disk: Disk, st: DbState): DbState
    requires Authentic(db, st.uuid, db.name, disk.main)
  {
    DbState(st.uuid, st.generation + 1, ImageRoot(Plain(db, st.uuid, db.name, disk.main)))
  }

  // ------------------------------------------------------------------------------- the pool, with its fault gate

  function Gate(db: Db, disk: Disk, p: Power, op: Op): Disk {
    if p.Lands() then Apply(db, disk, op) else disk
  }

  /** A list of operations, each offered to the gate in turn. */
  function GateAll(db: Db, disk: Disk, p: Power, ops: seq<Op>): Disk
    decreases |ops|
  {
    if ops == [] then disk else GateAll(db, Gate(db, disk, p, ops[0]), p.Spent(), ops[1..])
  }

  /** A prefix lands and the rest vanish. */
  lemma {:induction false} GatedPrefix(db: Db, disk: Disk, p: Power, ops: seq<Op>)
    ensures GateAll(db, disk, p, ops) == ApplyAll(db, disk, ops[..p.Survivors(|ops|)])
    decreases |ops|
  {
    if ops != [] {
      var k := p.Survivors(|ops|);
      GatedPrefix(db, Gate(db, disk, p, ops[0]), p.Spent(), ops[1..]);
      if p.Lands() {
        assert p.Spent().Survivors(|ops| - 1) == k - 1;
        assert ops[..k][1..] == ops[1..][..k - 1] && ops[..k][0] == ops[0];
      } else {
        assert p.Spent().Survivors(|ops| - 1) == 0 && ops[..0] == [] && ops[1..][..0] == [];
      }
    }
  }

  /** Three gated operations leave a landed prefix, whatever the third would have been after a cut. */
  lemma ThreeLand(db: Db, disk: Disk, p: Power, a: Op, b: Op, c: Op, actual: Op)
    requires p.Lands() && p.Spent().Lands() ==> actual == c
    ensures Gate(db, Gate(db, Gate(db, disk, p, a), p.Spent(), b), p.Spent().Spent(), actual)
         == ApplyAll(db, disk, [a, b, c][..p.Survivors(3)])
  {
    GatedPrefix(db, disk, p, [a, b, c]);
    assert [a, b, c][1..] == [b, c] && [b, c][1..] == [c] && [c][1..] == [];
    var d1 := Gate(db, disk, p, a);
    var d2 := Gate(db, d1, p.Spent(), b);
    assert GateAll(db, disk, p, [a, b, c]) == GateAll(db, d1, p.Spent(), [b, c]);
    assert GateAll(db, d1, p.Spent(), [b, c]) == GateAll(db, d2, p.Spent().Spent(), [c]);
  }

  /** Room for one record of a database is room for any other. */
  lemma SameRoom(t: Table, a: Bump, b: Bump)
    requires a.uuid == b.uuid
    ensures Saves(t, a).Some? <==> Saves(t, b).Some?
  {
  }

  /** A barrier after its head: the last record finds the anchor that the head left, and there is room for
      it unless the barrier has none and nothing was cut. */
  lemma TailHasRoom(db: Db, d0: Disk, p0: Power, st: DbState, len: Option<nat>, disk: Disk)
    requires BarrierHead(db, d0, st, len).Some?
    requires
      var head := BarrierHead(db, d0, st, len).value;
      disk == Gate(db, Gate(db, d0, p0, head.0), p0.Spent(), head.1)
    ensures
      var t := Saves(Load(db.dek, disk.anchor), BumpGen(st.uuid, Some(st.generation + 1), st.generation + 1));
      var ops := BarrierOps(db, d0, st, len);
      && (ops.Some? ==> t.Some? && (p0.Lands() ==> ops.value[2] == SaveAnchor(t.value[0])))
      && (ops.None? && p0.Survivors(3) == 3 ==> t.None?)
  {
    var head := BarrierHead(db, d0, st, len).value;
    var last := BumpGen(st.uuid, Some(st.generation + 1), st.generation + 1);
    SameRoom(Load(db.dek, d0.anchor), BumpGen(st.uuid, None, st.generation + 1), last);
    assert disk.anchor == if p0.Lands() then Apply(db, d0, head.0).anchor else d0.anchor;
    hide Saves, Load, Decrypt;
  }

  lemma HeadFirst(db: Db, disk: Disk, st: DbState, len: Option<nat>)
    ensures
      var (ops, head) := (BarrierOps(db, disk, st, len), BarrierHead(db, disk, st, len));
      ops.Some? ==> head.Some? && ops.value == [head.value.0, head.value.1, ops.value[2]]
  {
  }

  /** Offering the last record to the gate leaves a prefix of the whole barrier. */
  lemma BarrierTail(db: Db, d0: Disk, p0: Power, st: DbState, len: Option<nat>, disk: Disk)
    requires BarrierHead(db, d0, st, len).Some? && BarrierOps(db, d0, st, len).Some?
    requires
      var head := BarrierHead(db, d0, st, len).value;
      disk == Gate(db, Gate(db, d0, p0, head.0), p0.Spent(), head.1)
    ensures
      var t := Saves(Load(db.dek, disk.anchor), BumpGen(st.uuid, Some(st.generation + 1), st.generation + 1));
      && t.Some?
      && Gate(db, disk, p0.Spent().Spent(), SaveAnchor(t.value[0]))
         == ApplyAll(db, d0, BarrierOps(db, d0, st, len).value[..p0.Survivors(3)])
  {
    HeadFirst(db, d0, st, len);
    TailHasRoom(db, d0, p0, st, len, disk);
    hide BarrierOps, BarrierHead, Saves, Load, ApplyAll, Apply;
    var t := Saves(Load(db.dek, disk.anchor), BumpGen(st.uuid, Some(st.generation + 1), st.generation + 1));
    var ops := BarrierOps(db, d0, st, len).value;
    ThreeLand(db, d0, p0, ops[0], ops[1], ops[2], SaveAnchor(t.value[0]));
  }

  /** What has landed when a barrier fails after its first record or before, and after its head. */
  lemma BarrierStops(db: Db, disk: Disk, p: Power, st: DbState, len: Option<nat>)
    ensures
      var first := Saves(Load(db.dek, disk.anchor), BumpGen(st.uuid, None, st.generation + 1));
      var head := BarrierHead(db, disk, st, len);
      var issued := BarrierIssues(db, disk, st, len);
      var landed := ApplyAll(db, disk, issued[..p.Survivors(|issued|)]);
      && (head.None? ==> landed == if first.None? then disk else Gate(db, disk, p, SaveAnchor(first.value[0])))
      && (head.Some? && BarrierOps(db, disk, st, len).None? ==>
            landed == Gate(db, Gate(db, disk, p, head.value.0), p.Spent(), head.value.1))
      && (BarrierOps(db, disk, st, len).Some? ==> issued == BarrierOps(db, disk, st, len).value && |issued| == 3)
  {
    hide Saves, Load, Decrypt, Apply;
    var issued := BarrierIssues(db, disk, st, len);
    GatedPrefix(db, disk, p, issued);
    if issued != [] {
      assert GateAll(db, disk, p, issued) == GateAll(db, Gate(db, disk, p, issued[0]), p.Spent(), issued[1..]);
      if |issued| == 2 {
        assert issued[1..] == [issued[1]] && [issued[1]][1..] == [];
      }
    }
  }

  /** A barrier that has no room for its last record issues nothing more that lands. */
  lemma NothingMore(db: Db, d0: Disk, p0: Power, st: DbState, len: Option<nat>, disk: Disk)
    requires BarrierHead(db, d0, st, len).Some? && BarrierOps(db, d0, st, len).None?
    requires
      var head := BarrierHead(db, d0, st, len).value;
      disk == Gate(db, Gate(db, d0, p0, head.0), p0.Spent(), head.1)
    ensures Saves(Load(db.dek, disk.anchor), BumpGen(st.uuid, Some(st.generation + 1), st.generation + 1)).Some? ==> !p0.Spent().Spent().Lands()
  {
    hide Saves, Load, Decrypt;
    var head := BarrierHead(db, d0, st, len).value;
    assert disk.anchor == if p0.Lands() then Apply(db, d0, head.0).anchor else d0.anchor;
  }

  class Vfs {
    const db: Db
    var disk: Disk
    var state: Option<DbState>
    var power: Power

    constructor (db: Db, disk: Disk, power: Power)
      ensures this.db == db && this.disk == disk && this.state == None && this.power == power
    {
      this.db, this.disk, this.state, this.power := db, disk, None, power;
    }

    /** One gated durable operation. */
    method Persist(op: Op)
      modifies this`disk, this`power
      ensures power == old(power).Spent()
      ensures disk == if old(power).Lands() then Apply(db, old(disk), op) else old(disk)
    {
      if power.Lands() { disk := Apply(db, disk, op); }
      power := power.Spent();
    }

    method AnchorRecord(b: Bump) returns (ok: bool)
      requires b.epochFloor.None?
      modifies this`disk, this`power
      ensures ok == Saves(Load(db.dek, old(disk).anchor), b).Some?
      ensures !ok ==> disk == old(disk) && power == old(power)
      ensures ok ==> power == old(power).Spent()
      ensures ok && old(power).Lands() ==>
        disk == Apply(db, old(disk), SaveAnchor(Saves(Load(db.dek, old(disk).anchor), b).value[0]))
      ensures !old(power).Lands() ==> disk == old(disk)
    {
      var t := AnchorLoad(db.dek, disk.anchor);
      var es := Upsert(t.entries, b);
      if es.None? { return false; }
      Persist(SaveAnchor(Table(t.seqno + 1, es.value)));
      ok := true;
    }

    /** `full_state_root`: the root of the whole blocks that the tracked length covers. One that is missing
        or does not authenticate is an error. */
    method FullStateRootOf(uuid: Uuid, logical: nat) returns (r: Option<Root>)
      ensures logical / BLOCK_SIZE > |disk.main| ==> r == None
      ensures logical / BLOCK_SIZE <= |disk.main| ==>
        r == match Decrypt(db, uuid, db.name, disk.main[..logical / BLOCK_SIZE]) case Some(i) => Some(ImageRoot(i)) case None => None
    {
      var blocks := logical / BLOCK_SIZE;
      if blocks > |disk.main| { return None; }
      var image := DecryptWholeFile(db, uuid, db.name, disk.main[..blocks]);
      if image.None? { return None; }
      var root := HashImage(image.value);
      r := Some(root);
    }

    /** The first two operations of the barrier: the generation in flight, then the sealed manifest. */
    method RecordAndSeal(st: DbState, journalLen: Option<nat>) returns (root: Option<Root>)
      modifies this`disk, this`power
      ensures root.Some? <==> BarrierHead(db, old(disk), st, journalLen).Some?
      ensures root.Some? ==>
        var ops := BarrierHead(db, old(disk), st, journalLen).value;
        && Authentic(db, st.uuid, db.name, old(disk).main) && root.value == AfterBarrier(db, old(disk), st).committedRoot
        && power == old(power).Spent().Spent()
        && disk == Gate(db, Gate(db, old(disk), old(power), ops.0), old(power).Spent(), ops.1)
      ensures root.None? ==>
        var first := Saves(Load(db.dek, old(disk).anchor), BumpGen(st.uuid, None, st.generation + 1));
        && disk == (if first.None? then old(disk) else Gate(db, old(disk), old(power), SaveAnchor(first.value[0])))
        && power == (if first.None? then old(power) else old(power).Spent())
    {
      var ok := AnchorRecord(BumpGen(st.uuid, None, st.generation + 1));
      if !ok { return None; }
      var image := DecryptWholeFile(db, st.uuid, db.name, disk.main);
      if image.None? || disk.manifest.None? { return None; }
      var r := HashImage(image.value);
      Persist(SealManifest(SealedPayload(db, st, image.value, journalLen)));
      root := Some(r);
    }

    /** `on_main_synced`: wherever the power fails, exactly a prefix of the operations that the barrier
        issues lands, also when it fails before its end. */
    method OnMainSynced(journalLen: Option<nat>) returns (ok: bool)
      modifies this
      ensures old(state).None? ==> ok && disk == old(disk) && state == old(state)
      ensures old(state).Some? ==>
        var ops := BarrierOps(db, old(disk), old(state).value, journalLen);
        var issued := BarrierIssues(db, old(disk), old(state).value, journalLen);
        && disk == ApplyAll(db, old(disk), issued[..old(power).Survivors(|issued|)])
        && (old(power).Survivors(3) == 3 ==> ok == ops.Some?)
      ensures !ok ==> state == old(state)
      ensures old(state).Some? && ok ==>
        && Authentic(db, old(state).value.uuid, db.name, old(disk).main)
        && state == Some(AfterBarrier(db, old(disk), old(state).value))
    {
      hide BarrierOps, BarrierHead, BarrierIssues, Saves, Load, Decrypt, ApplyAll, Apply, Plain, ImageRoot;
      if state.None? { return true; }
      var st := state.value;
      ghost var p0, d0 := power, disk;
      HeadFirst(db, d0, st, journalLen);
      var root := RecordAndSeal(st, journalLen);
      BarrierStops(db, d0, p0, st, journalLen);
      if root.None? { return false; }
      TailHasRoom(db, d0, p0, st, journalLen, disk);
      if BarrierOps(db, d0, st, journalLen).Some? { BarrierTail(db, d0, p0, st, journalLen, disk); }
      else { NothingMore(db, d0, p0, st, journalLen, disk); }
      ok := AnchorRecord(BumpGen(st.uuid, Some(st.generation + 1), st.generation + 1));
      if ok { state := Some(DbState(st.uuid, st.generation + 1, root.value)); }
    }

    /** The checks of `open_main_db` behind the freshness check: length, header page and full-state root. */
    method CheckImage(p: Payload) returns (ok: bool)
      ensures ok == Check(db, disk, p).Admit?
    {
      if disk.main == [] { return true; }
      var hot := Hot(db, p.uuid, disk.journal);
      if !hot {
        var listed := Listed(p.files, db.name);
        if listed.Some? && listed.value != |disk.main| * BLOCK_SIZE { return false; }
        var header := Block(db, p.uuid, db.name, disk.main, 0);
        if header.None? || !GoodHeader(header.value) { return false; }
      }
      if p.root == ZeroRoot { return true; }
      if hot {
        var j := DecryptWholeFile(db, p.uuid, JournalName(db.name), disk.journal.value);
        if j.None? { return false; }
        var main := DecryptWholeFile(db, p.uuid, db.name, disk.main);
        if main.None? { return false; }
        var root := ReplayJournalRoot(Stream(j.value), main.value);
        ok := root.Ok? && Accepted(p, root.value);
      } else {
        var root := FullStateRootOf(p.uuid, |disk.main| * BLOCK_SIZE);
        assert |disk.main| * BLOCK_SIZE / BLOCK_SIZE == |disk.main| && disk.main[..|disk.main|] == disk.main;
        ok := root.Some? && Accepted(p, root.value);
      }
    }

    /** `create_manifest`: the manifest is durable before the anchor is touched. */
    method CreateManifest(newUuid: Uuid) returns (ok: bool)
      modifies this
      ensures
        var b := BumpGen(newUuid, Some(1), 1);
        var seals := [NewManifest(newUuid), SealManifest(NewPayload(db, newUuid))];
        && ok == Saves(Load(db.dek, old(disk).anchor), b).Some?
        && disk == GateAll(db, old(disk), old(power), seals + SaveOps(Load(db.dek, old(disk).anchor), b))
      ensures state == if ok then Some(DbState(newUuid, 1, ZeroRoot)) else old(state)
    {
      ghost var d0, p0 := disk, power;
      Persist(NewManifest(newUuid));
      Persist(SealManifest(NewPayload(db, newUuid)));
      ok := AnchorRecord(BumpGen(newUuid, Some(1), 1));
      if ok { state := Some(DbState(newUuid, 1, ZeroRoot)); }
      ghost var seals := [NewManifest(newUuid), SealManifest(NewPayload(db, newUuid))];
      ghost var save := SaveOps(Load(db.dek, d0.anchor), BumpGen(newUuid, Some(1), 1));
      assert (seals + save)[1..] == [seals[1]] + save && ([seals[1]] + save)[1..] == save;
      assert save != [] ==> save[1..] == [];
      ghost var d1 := Gate(db, d0, p0, seals[0]);
      ghost var d2 := Gate(db, d1, p0.Spent(), seals[1]);
      assert GateAll(db, d0, p0, seals + save) == GateAll(db, d1, p0.Spent(), [seals[1]] + save);
      assert GateAll(db, d1, p0.Spent(), [seals[1]] + save)
          == GateAll(db, d2, p0.Spent().Spent(), save);
      assert d2.anchor == d0.anchor && save == SaveOps(Load(db.dek, d2.anchor), BumpGen(newUuid, Some(1), 1));
      assert save != [] ==> GateAll(db, d2, p0.Spent().Spent(), save) == Gate(db, d2, p0.Spent().Spent(), save[0]);
    }

    /** `open_main_db`: it admits exactly what `OpenVerdict` admits, and wherever the power fails a
        prefix of `OpenOps` has landed. */
    method OpenMainDb(newUuid: Uuid) returns (admitted: Option<DbState>)
      modifies this
      ensures disk == GateAll(db, old(disk), old(power), OpenOps(db, old(disk), newUuid))
      ensures admitted == match OpenVerdict(db, old(disk), newUuid) case Admit(st, _) => Some(st) case _ => None
      ensures state == if admitted.Some? then admitted else old(state)
    {
      if disk.manifest.None? {
        if disk.main != [] { return None; }
        var ok := CreateManifest(newUuid);
        assert [] + [NewManifest(newUuid), SealManifest(NewPayload(db, newUuid))]
            == [NewManifest(newUuid), SealManifest(NewPayload(db, newUuid))];
        return if ok then state else None;
      }
      var read := ScanManifest(db.dek, db.name, disk.manifest.value);
      if read.None? {
        if disk.main != [] { return None; }
        ghost var d0 := disk;
        Persist(DropManifest);
        var ok := CreateManifest(newUuid);
        assert OpenOps(db, d0, newUuid)[0] == DropManifest;
        assert OpenOps(db, d0, newUuid)[1..]
            == [NewManifest(newUuid), SealManifest(NewPayload(db, newUuid))] + SaveOps(Load(db.dek, d0.anchor), BumpGen(newUuid, Some(1), 1));
        return if ok then state else None;
      }
      var p := read.value;
      var t := AnchorLoad(db.dek, disk.anchor);
      if !Fresh(t, p.uuid, p.generation) { return None; }
      ghost var d0 := disk;
      var recorded := AnchorRecord(BumpGen(p.uuid, Some(p.generation), p.generation));
      if !recorded { return None; }
      var ok := CheckImage(p);
      assert Check(db, disk, p) == Check(db, d0, p);
      assert OpenOps(db, d0, newUuid)[1..] == [];
      if !ok { return None; }
      state := Some(DbState(p.uuid, p.generation, p.root));
      admitted := state;
    }

    /** `journal_finalize_barrier`: seal exactly when the journal on disk is hot. A journal whose database
        is not open cannot be authenticated, so one with a full header block is refused. */
    method JournalFinalizeBarrier(journalLen: Option<nat>) returns (ok: bool)
      modifies this
      ensures old(state).None? ==>
        disk == old(disk) && state == old(state) && ok == (old(disk).journal in {None, Some([])})
      ensures old(state).Some? ==>
        var st := old(state).value;
        if !Hot(db, st.uuid, old(disk).journal) then ok && disk == old(disk) && state == old(state)
        else
          var issued := BarrierIssues(db, old(disk), st, journalLen);
          && disk == ApplyAll(db, old(disk), issued[..old(power).Survivors(|issued|)])
          && (old(power).Survivors(3) == 3 ==> ok == BarrierOps(db, old(disk), st, journalLen).Some?)
          && (!ok ==> state == old(state))
          && (ok ==> Authentic(db, st.uuid, db.name, old(disk).main) && state == Some(AfterBarrier(db, old(disk), st)))
    {
      if disk.journal.None? { return true; }
      if state.None? { return disk.journal.value == []; }
      ok := true;
      if Hot(db, state.value.uuid, disk.journal) { ok := OnMainSynced(journalLen); }
    }
  }
}
