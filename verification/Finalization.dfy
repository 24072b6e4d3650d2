/** When a commit is sealed: the journal hooks of `xWrite`, `xTruncate` and `delete_file` (vfs.rs), from the
    creation of a database on, over every run of calls, power cuts inside calls, and sessions. */
module Finalization {
  import opened Bytes
  import opened Crypto
  import opened Anchor
  import opened Manifest
  import opened Journal
  import opened Commit
  import opened CrashSafety
  import BD = BlockDevice

  /** The durable state, what the session remembers while there is one, and the tracked length of the
      journal file. */
  datatype World = World(disk: Disk, session: Option<DbState>, len: nat)

  /** One call of SQLite. Opening a journal creates its file when there is none. */
  datatype Call =
    | OpenJournal
    | WriteJournal(off: nat, data: seq<byte>)
    | TruncateJournal(size: nat)
    | DeleteJournal
    | WritePage(at: nat, page: Page)
    | CutMain(blocks: nat)

  /** What a cut may leave of the files that a call was writing: anything at all. */
  datatype Left = Left(main: seq<Cell<Page>>, journal: Option<seq<Cell<Page>>>)

  /** A call that ran to its end; a call that the power cut, after `landed` operations of its barrier and
      then, if those were all, somewhere in its own writes; the end of a session; an open, whose own
      record lands, vanishes or is torn. */
  datatype Event =
    | Did(call: Call)
    | CutIn(call: Call, landed: nat, torn: bool, left: Left)
    | Close
    | Reopen(recorded: bool, torn: bool)

  // ------------------------------------------------------------------------- the calls

  function JournalBinding(db: Db, uuid: Uuid): BD.Binding {
    BD.Binding(DbKey(db.dek, uuid), JournalName(db.name), uuid)
  }

  function JournalLen(w: World): Option<nat> {
    if w.disk.journal.None? then None else Some(w.len)
  }

  /** The call itself, after the barrier: the block device writes, truncates, or the file goes. */
  function Act(db: Db, uuid: Uuid, w: World, c: Call): World {
    var b := JournalBinding(db, uuid);
    match c
    case OpenJournal => if w.disk.journal.None? then w.(disk := w.disk.(journal := Some([])), len := 0) else w
    case WriteJournal(off, data) =>
      if w.disk.journal.None? then w
      else
        var f := BD.Written(b, false, BD.File(w.disk.journal.value, Some(w.len)), off, data, BD.ON).1;
        w.(disk := w.disk.(journal := Some(f.cells)), len := f.Len())
    case TruncateJournal(n) =>
      if w.disk.journal.None? then w
      else
        var f := BD.Truncated(b, BD.File(w.disk.journal.value, Some(w.len)), n, BD.ON).1;
        w.(disk := w.disk.(journal := Some(f.cells)), len := f.Len())
    case DeleteJournal => w.(disk := w.disk.(journal := None), len := 0)
    case WritePage(k, page) => w.(disk := Apply(db, w.disk, WriteMain(k, page)))
    case CutMain(n) => w.(disk := Apply(db, w.disk, TruncateMain(n)))
  }

  /** The hooks treat the call as a finalization: a header write without the magic, a truncate to zero,
      a delete. */
  predicate Finalizes(c: Call) {
    match c
    case WriteJournal(off, data) => off == 0 && |data| >= 8 && !(MAGIC <= data)
    case TruncateJournal(n) => n == 0
    case DeleteJournal => true
    case _ => false
  }

  /** The call runs the barrier: it is a finalization, and the journal is hot. */
  predicate Hooked(db: Db, w: World, c: Call) {
    w.session.Some? && Finalizes(c) && Hot(db, w.session.value.uuid, w.disk.journal)
  }

  function Barrier(db: Db, w: World): Option<seq<Op>>
    requires w.session.Some?
  {
    BarrierOps(db, w.disk, w.session.value, JournalLen(w))
  }

  /** The call's barrier seals. */
  predicate Seals(db: Db, w: World, c: Call) {
    Hooked(db, w, c) && Barrier(db, w).Some?
  }

  /** The state after a barrier that seals. */
  function AfterSeal(db: Db, w: World): World
    requires w.session.Some? && Barrier(db, w).Some?
  {
    w.(disk := ApplyAll(db, w.disk, Barrier(db, w).value), session := Some(AfterBarrier(db, w.disk, w.session.value)))
  }

  /** The operations of the call's barrier, those of one that fails included. */
  function Issued(db: Db, w: World, c: Call): seq<Op> {
    if Hooked(db, w, c) then BarrierIssues(db, w.disk, w.session.value, JournalLen(w)) else []
  }

  /** A whole call. One whose barrier fails is refused. */
  function Do(db: Db, w: World, c: Call): World {
    if w.session.None? then w
    else if !Hooked(db, w, c) then Act(db, w.session.value.uuid, w, c)
    else if Barrier(db, w).None? then w.(disk := ApplyAll(db, w.disk, Issued(db, w, c)))
    else Act(db, w.session.value.uuid, AfterSeal(db, w), c)
  }

  /** The disk a cut leaves. */
  function CutDisk(db: Db, w: World, c: Call, landed: nat, torn: bool, left: Left): Disk {
    var issued := Issued(db, w, c);
    if landed < |issued| then
      var disk := ApplyAll(db, w.disk, issued[..landed]);
      if torn then Tear(db, disk, issued[landed]) else disk
    else ApplyAll(db, w.disk, issued).(main := left.main, journal := left.journal)
  }

  /** The journal's tracked length after an open: the one the manifest lists, where that agrees with the
      file, else its whole blocks. */
  function ReopenedLen(db: Db, disk: Disk): nat {
    var m := Current(db, disk);
    var blocks := if disk.journal.None? then 0 else |disk.journal.value|;
    var listed := if m.None? then None else Listed(m.value.files, JournalName(db.name));
    if listed.Some? && BD.Blocks(listed.value) == blocks then listed.value else blocks * BLOCK_SIZE
  }

  /** A journal whose listed length takes up just its blocks reopens at that length, any other at its blocks. */
  lemma ReopenedLenIs(db: Db, disk: Disk, p: Payload)
    requires Current(db, disk) == Some(p) && disk.journal.Some?
    ensures
      var (listed, blocks) := (Listed(p.files, db.name + "-journal"), |disk.journal.value|);
      ReopenedLen(db, disk) == if listed.Some? && (listed.value + 4095) / 4096 == blocks then listed.value else blocks * 4096
  {
    hide Listed, ReadManifest;
  }

  function Step(db: Db, w: World, e: Event): World {
    match e
    case Did(c) => Do(db, w, c)
    case CutIn(c, landed, torn, left) => if w.session.None? then w else w.(disk := CutDisk(db, w, c, landed, torn, left), session := None)
    case Close => w.(session := None)
    case Reopen(landed, torn) =>
      if w.session.Some? then w
      else
        var disk := OpenStep(db, w.disk, landed, torn);
        match Examine(db, w.disk)
        case Admit(st, _) => World(disk, if landed then Some(st) else None, ReopenedLen(db, disk))
        case _ => w.(disk := disk)
  }

  /** SQLite's calls on the journal: header writes are whole, everything else stays clear of the magic. A
      database that never sealed is not opened over main pages without a hot journal. */
  predicate Shaped(db: Db, w: World, e: Event) {
    match e
    case Did(WriteJournal(off, data)) => (off == 0 && |data| >= 8) || off >= 8
    case Did(TruncateJournal(n)) => n == 0 || n >= 8
    case Reopen(_, _) =>
      var m := Current(db, w.disk);
      w.session.None? && m.Some? && m.value.root == ZeroRoot ==> w.disk.main == [] || Hot(db, m.value.uuid, w.disk.journal)
    case _ => true
  }

  // ------------------------------------------------------------------------- seals and deaths

  /** The call takes a hot journal dead. */
  predicate Kills(db: Db, w: World, c: Call) {
    && w.session.Some? && Hot(db, w.session.value.uuid, w.disk.journal)
    && !Hot(db, w.session.value.uuid, Do(db, w, c).disk.journal)
  }

  lemma OverlaidMagic(off: nat, data: seq<byte>, page: Page)
    requires MAGIC <= page && (data == [] || (off == 0 && |data| >= 8) || off >= 8)
    ensures MAGIC <= BD.Overlay(off, data, 0, page) <==> data == [] || off >= 8 || MAGIC <= data
  {
    var after := BD.Overlay(off, data, 0, page);
    assert after[..8] == if data == [] || off >= 8 then page[..8] else data[..8];
    assert page[..8] == MAGIC;
    if data != [] && off == 0 && MAGIC <= data { assert data[..8] == MAGIC; }
  }

  lemma ZeroedMagic(page: Page, n: nat)
    requires MAGIC <= page && 0 < n < BLOCK_SIZE
    ensures MAGIC <= BD.Zeroed(page, n) <==> n >= 8
  {
    var after := BD.Zeroed(page, n);
    if n >= 8 {
      assert after[..8] == page[..8];
    } else {
      assert after[7] == 0 && MAGIC[7] == 0xd7;
    }
  }

  /** A hot journal after a call: dead exactly after a delete, a truncate into the magic, or a write that
      leaves something else there. */
  lemma HotAfterAct(db: Db, uuid: Uuid, w: World, c: Call)
    requires Hot(db, uuid, w.disk.journal)
    ensures
      var page := Block(db, uuid, JournalName(db.name), w.disk.journal.value, 0).value;
      !Hot(db, uuid, Act(db, uuid, w, c).disk.journal) <==>
        match c
        case WriteJournal(off, data) => data != [] && !(MAGIC <= BD.Overlay(off, data, 0, page))
        case TruncateJournal(n) => n < 8
        case DeleteJournal => true
        case _ => false
  {
    var b := JournalBinding(db, uuid);
    var page := Block(db, uuid, JournalName(db.name), w.disk.journal.value, 0).value;
    var f := BD.File(w.disk.journal.value, Some(w.len));
    hide BD.Written, BD.Truncated, BD.Overlay, BD.Zeroed, Apply;
    match c
    case WriteJournal(off, data) => BD.FirstBlockWritten(b, f, off, data, page);
    case TruncateJournal(n) =>
      BD.FirstBlockTruncated(b, f, n, page);
      if 0 < n < BLOCK_SIZE { ZeroedMagic(page, n); }
    case WritePage(k, p) => MainOnly(db, w.disk, WriteMain(k, p));
    case CutMain(n) => MainOnly(db, w.disk, TruncateMain(n));
    case _ =>
  }

  lemma MainOnly(db: Db, disk: Disk, op: Op)
    requires op.WriteMain? || op.TruncateMain?
    ensures Apply(db, disk, op) == disk.(main := Apply(db, disk, op).main)
  {
  }

  lemma BarrierKeepsFiles(db: Db, disk: Disk, st: DbState, len: Option<nat>)
    ensures
      var after := ApplyAll(db, disk, BarrierIssues(db, disk, st, len));
      after.main == disk.main && after.journal == disk.journal
  {
    var ops := BarrierIssues(db, disk, st, len);
    IssuesAreRecords(db, disk, st, len);
    hide BarrierIssues;
    RecordsKeepFiles(db, disk, ops);
  }

  lemma IssuesAreRecords(db: Db, disk: Disk, st: DbState, len: Option<nat>)
    ensures forall op <- BarrierIssues(db, disk, st, len) :: op.SaveAnchor? || op.SealManifest?
  {
    hide Saves, Load, Decrypt, SealedPayload, Apply;
  }

  lemma {:induction false} RecordsKeepFiles(db: Db, disk: Disk, ops: seq<Op>)
    requires forall op <- ops :: op.SaveAnchor? || op.SealManifest?
    ensures ApplyAll(db, disk, ops).main == disk.main && ApplyAll(db, disk, ops).journal == disk.journal
    decreases |ops|
  {
    if ops != [] {
      assert ops[0] in ops && forall op <- ops[1..] :: op in ops;
      RecordsKeepFiles(db, Apply(db, disk, ops[0]), ops[1..]);
    }
  }

  lemma IssuedIsBarrier(db: Db, w: World, c: Call)
    requires Hooked(db, w, c) && Barrier(db, w).Some?
    ensures Issued(db, w, c) == Barrier(db, w).value
  {
  }

  /** The journal after a whole call. */
  lemma JournalAfterDo(db: Db, w: World, c: Call)
    requires w.session.Some?
    ensures
      var uuid := w.session.value.uuid;
      Hot(db, uuid, Do(db, w, c).disk.journal)
      <==> if Hooked(db, w, c) && Barrier(db, w).None? then Hot(db, uuid, w.disk.journal) else Hot(db, uuid, Act(db, uuid, w, c).disk.journal)
  {
    if Hooked(db, w, c) {
      BarrierKeepsFiles(db, w.disk, w.session.value, JournalLen(w));
      if Barrier(db, w).Some? { IssuedIsBarrier(db, w, c); }
    }
    hide Hot, ApplyAll, BarrierOps, BarrierIssues, BD.Written, BD.Truncated, Apply, AfterBarrier;
  }

  /** With the calls SQLite makes, whatever state its files are in, a barrier seals if and only if the call
      takes a hot journal dead. */
  lemma SealsAreDeaths(db: Db, w: World, c: Call)
    requires Shaped(db, w, Did(c))
    ensures Seals(db, w, c) <==> Kills(db, w, c)
  {
    if w.session.Some? && Hot(db, w.session.value.uuid, w.disk.journal) {
      var uuid := w.session.value.uuid;
      JournalAfterDo(db, w, c);
      HotAfterAct(db, uuid, w, c);
      var page := Block(db, uuid, JournalName(db.name), w.disk.journal.value, 0).value;
      if c.WriteJournal? { OverlaidMagic(c.off, c.data, page); }
      hide Do, Act, Barrier, Hot, BD.Overlay;
    }
  }

  /** Without that discipline a seal is still a death, but a shorter write into the magic or a truncate
      into it kills the journal unsealed. */
  lemma UnsealedDeaths(db: Db, w: World, c: Call)
    requires w.session.Some? && Hot(db, w.session.value.uuid, w.disk.journal)
    ensures Seals(db, w, c) ==> Kills(db, w, c)
    ensures
      var page := Block(db, w.session.value.uuid, JournalName(db.name), w.disk.journal.value, 0).value;
      Kills(db, w, c) && !Seals(db, w, c) <==>
      match c
      case WriteJournal(off, data) => data != [] && off < 8 && !(off == 0 && |data| >= 8) && !(MAGIC <= BD.Overlay(off, data, 0, page))
      case TruncateJournal(n) => 0 < n < 8
      case _ => false
  {
    var uuid := w.session.value.uuid;
    JournalAfterDo(db, w, c);
    HotAfterAct(db, uuid, w, c);
    var page := Block(db, uuid, JournalName(db.name), w.disk.journal.value, 0).value;
    if c.WriteJournal? && (c.data == [] || (c.off == 0 && |c.data| >= 8) || c.off >= 8) { OverlaidMagic(c.off, c.data, page); }
    hide Do, Act, Barrier, Hot, BD.Overlay;
  }

  // ------------------------------------------------------------------------- the journal as bytes

  /** A journal of these bytes would be replayed: SQLite's own notion of hot. */
  predicate HotBytes(j: Option<seq<byte>>) {
    j.Some? && MAGIC <= j.value
  }

  /** The hot test on sealed blocks is the hot test on the journal's bytes. */
  lemma HotIsMagic(db: Db, uuid: Uuid, cells: seq<Cell<Page>>, len: nat)
    requires BD.Holds(JournalBinding(db, uuid), cells, len)
    ensures Hot(db, uuid, Some(cells)) <==> HotBytes(Some(BD.Content(JournalBinding(db, uuid), cells, len)))
  {
    var b := JournalBinding(db, uuid);
    var content := BD.Content(b, cells, len);
    assert forall i :: 0 <= i < 8 && i < len ==> content[i] == BD.ByteAt(b, cells, i);
    assert len == 0 <==> |cells| == 0;
    if |cells| > 0 {
      assert BD.OpenBlock(b, cells, 0).Some?;
      var page := BD.PlainAt(b, cells, 0);
      assert Block(db, uuid, JournalName(db.name), cells, 0) == Some(page);
      assert forall i: nat :: i < 8 ==> BD.ByteAt(b, cells, i) == page[i];
      if MAGIC <= page {
        assert page[7] == MAGIC[7] == 0xd7;
        assert len >= 8;
        assert forall i :: 0 <= i < 8 ==> content[i] == page[i] == MAGIC[i];
      }
      if MAGIC <= content {
        assert forall i :: 0 <= i < 8 ==> page[i] == content[i] == MAGIC[i];
        assert page[..8] == MAGIC;
      }
    }
  }

  // ------------------------------------------------------------------------- what a run keeps

  /** The payload of a database that has sealed these images, oldest first. */
  function PayloadAt(uuid: Uuid, images: seq<seq<Page>>): Payload {
    var n := |images|;
    Payload(n + 1, uuid, if n == 0 then ZeroRoot else ImageRoot(images[n - 1]), if n < 2 then ZeroRoot else ImageRoot(images[n - 2]), [])
  }

  /** The anchor has an entry for the database: its generation in flight was recorded before it was sealed, and
      the committed one is the manifest's, or the one before that while the record of the last seal is still
      to land. */
  predicate AnchorTracks(e: Option<AnchorEntry>, generation: nat, lag: nat) {
    && e.Some? && lag <= 1
    && e.value.committed + lag == generation && e.value.inFlight >= generation && e.value.epochFloor <= 1
  }

  /** The manifest says exactly what was sealed so far, and the anchor all of it but for the lag. */
  ghost predicate DiskTracks(db: Db, disk: Disk, uuid: Uuid, images: seq<seq<Page>>, lag: nat) {
    && disk.manifest.Some? && Manifest.Wf(db.dek, db.name, disk.manifest.value)
    && disk.manifest.value.header == Some(uuid)
    && Current(db, disk).Some?
    && var p := Current(db, disk).value;
       && p.(files := []) == PayloadAt(uuid, images)
       && (images != [] ==> Listed(p.files, db.name) == Some(|images[|images| - 1]| * BLOCK_SIZE))
       && AnchorOk(db, disk, uuid, p.generation)
       && AnchorTracks(EntryOf(db, disk, uuid), p.generation, lag)
  }

  /** And so does the session, while there is one; the anchor does not lag behind it. */
  ghost predicate Tracks(db: Db, w: World, uuid: Uuid, images: seq<seq<Page>>, lag: nat) {
    && DiskTracks(db, w.disk, uuid, images, lag)
    && (w.session.Some? ==> lag == 0 && w.session.value == DbState(uuid, |images| + 1, PayloadAt(uuid, images).root))
  }

  lemma SomeSaves(t: Table, b: Bump)
    ensures Saves(t, b).Some? ==> Saves(t, b).value != []
  {
  }

  lemma BarrierIs(db: Db, disk: Disk, st: DbState, len: Option<nat>, image: seq<Page>, first: seq<Table>, last: seq<Table>)
    requires disk.manifest.Some? && Decrypt(db, st.uuid, db.name, disk.main) == Some(image) && first != [] && last != []
    requires Saves(Load(db.dek, disk.anchor), BumpGen(st.uuid, None, st.generation + 1)) == Some(first)
    requires Saves(Load(db.dek, Apply(db, disk, SaveAnchor(first[0])).anchor), BumpGen(st.uuid, Some(st.generation + 1), st.generation + 1)) == Some(last)
    ensures BarrierOps(db, disk, st, len)
         == Some([SaveAnchor(first[0]), SealManifest(SealedPayload(db, st, image, len)), SaveAnchor(last[0])])
  {
    hide Saves, Load, SealedPayload, Decrypt, Apply;
  }

  /** The three operations of a barrier over a database that is in order. */
  lemma BarrierRuns(db: Db, disk: Disk, st: DbState, len: Option<nat>, image: seq<Page>)
    requires AnchorOk(db, disk, st.uuid, st.generation) && disk.manifest.Some?
    requires Decrypt(db, st.uuid, db.name, disk.main) == Some(image)
    ensures BarrierOps(db, disk, st, len).Some?
    ensures
      var ops := BarrierOps(db, disk, st, len).value;
      var next := SealedPayload(db, st, image, len);
      var disk' := ApplyAll(db, disk, ops);
      && AnchorOk(db, disk', st.uuid, st.generation + 1)
      && disk'.manifest == Some(WriteSlot(db.dek, db.name, disk.manifest.value, next))
      && disk'.main == disk.main && disk'.journal == disk.journal
  {
    hide AnchorOk, Saves, Load, Save, SealedPayload, Decrypt, BarrierOps, ApplyAll, WriteSlot;
    var b1, b2 := BumpGen(st.uuid, None, st.generation + 1), BumpGen(st.uuid, Some(st.generation + 1), st.generation + 1);
    AnchorSaveKeeps(db, disk, st.uuid, st.generation, b1);
    SomeSaves(Load(db.dek, disk.anchor), b1);
    var first := Saves(Load(db.dek, disk.anchor), b1).value;
    var d1 := Apply(db, disk, SaveAnchor(first[0]));
    AnchorOkLater(db, d1, st.uuid, st.generation);
    AnchorSaveKeeps(db, d1, st.uuid, st.generation + 1, b2);
    SomeSaves(Load(db.dek, d1.anchor), b2);
    var last := Saves(Load(db.dek, d1.anchor), b2).value;
    BarrierIs(db, disk, st, len, image, first, last);
    var seal := SealManifest(SealedPayload(db, st, image, len));
    ApplyThree(db, disk, SaveAnchor(first[0]), seal, SaveAnchor(last[0]));
    SameAnchorOk(db, Apply(db, d1, SaveAnchor(last[0])), Apply(db, Apply(db, d1, seal), SaveAnchor(last[0])), st.uuid, st.generation + 1);
  }

  lemma SameAnchorOk(db: Db, a: Disk, b: Disk, uuid: Uuid, gen: nat)
    requires AnchorOk(db, a, uuid, gen) && a.anchor == b.anchor
    ensures AnchorOk(db, b, uuid, gen)
  {
  }

  lemma SameTracks(db: Db, a: Disk, b: Disk, uuid: Uuid, images: seq<seq<Page>>, lag: nat)
    requires DiskTracks(db, a, uuid, images, lag) && a.manifest == b.manifest && a.anchor == b.anchor
    ensures DiskTracks(db, b, uuid, images, lag)
  {
    SameAnchorOk(db, a, b, uuid, Current(db, a).value.generation);
    SameEntry(db, a, b, uuid);
    hide AnchorOk, ReadManifest, PayloadAt, EntryOf;
  }

  /** A record of this database, landed or torn: one that offers the manifest's generation as committed takes
      away the lag. */
  lemma SaveTracks(db: Db, disk: Disk, uuid: Uuid, images: seq<seq<Page>>, lag: nat, committed: Option<nat>, inFlight: nat)
    requires DiskTracks(db, disk, uuid, images, lag) && committed in {None, Some(|images| + 1)}
    ensures
      var saves := Saves(Load(db.dek, disk.anchor), BumpGen(uuid, committed, inFlight));
      && saves.Some? && saves.value != []
      && var op := SaveAnchor(saves.value[0]);
         var (landed, torn) := (Apply(db, disk, op), Tear(db, disk, op));
         && DiskTracks(db, landed, uuid, images, if committed.Some? then 0 else lag) && DiskTracks(db, torn, uuid, images, lag)
         && EntryOf(db, landed, uuid).value.inFlight >= inFlight
         && landed.main == disk.main && landed.journal == disk.journal && landed.manifest == disk.manifest
  {
    var b := BumpGen(uuid, committed, inFlight);
    assert Current(db, disk).value.generation == |images| + 1;
    AnchorSaveKeeps(db, disk, uuid, |images| + 1, b);
    SomeSaves(Load(db.dek, disk.anchor), b);
    SaveRecords(db, disk, b);
    hide AnchorOk, Saves, Load, Save, TornSave, ReadManifest, PayloadAt, EntryOf;
    var op := SaveAnchor(Saves(Load(db.dek, disk.anchor), b).value[0]);
    assert Current(db, Apply(db, disk, op)) == Current(db, disk) && Current(db, Tear(db, disk, op)) == Current(db, disk);
  }

  /** A seal of the session's next payload, which is already in flight, landed or torn. */
  lemma SealTracks(db: Db, disk: Disk, uuid: Uuid, images: seq<seq<Page>>, image: seq<Page>, len: Option<nat>)
    requires DiskTracks(db, disk, uuid, images, 0) && EntryOf(db, disk, uuid).value.inFlight >= |images| + 2
    ensures
      var op := SealManifest(SealedPayload(db, DbState(uuid, |images| + 1, PayloadAt(uuid, images).root), image, len));
      && DiskTracks(db, Apply(db, disk, op), uuid, images + [image], 1) && DiskTracks(db, Tear(db, disk, op), uuid, images, 0)
      && Apply(db, disk, op).main == disk.main && Apply(db, disk, op).anchor == disk.anchor
  {
    var next := SealedPayload(db, DbState(uuid, |images| + 1, PayloadAt(uuid, images).root), image, len);
    Manifest.SealIsAtomic(db.dek, db.name, disk.manifest.value, next);
    AnchorOkLater(db, disk, uuid, |images| + 1);
    var sealed, torn := Apply(db, disk, SealManifest(next)), Tear(db, disk, SealManifest(next));
    SameAnchorOk(db, disk, sealed, uuid, |images| + 2);
    SameAnchorOk(db, disk, torn, uuid, |images| + 1);
    SameEntry(db, disk, sealed, uuid);
    SameEntry(db, disk, torn, uuid);
    NextPayload(uuid, images, image);
    hide AnchorOk, ReadManifest, WriteSlot, TornSlot, Manifest.Wf, ImageRoot, PayloadAt, EntryOf;
    assert Current(db, sealed) == Some(next) && Current(db, torn) == Current(db, disk);
  }

  lemma NextPayload(uuid: Uuid, images: seq<seq<Page>>, image: seq<Page>)
    ensures PayloadAt(uuid, images + [image]) == Payload(|images| + 2, uuid, ImageRoot(image), PayloadAt(uuid, images).root, [])
  {
  }

  /** What a barrier issues: without a readable main file only its first record, else all three. */
  lemma BarrierShape(db: Db, disk: Disk, uuid: Uuid, images: seq<seq<Page>>, len: Option<nat>)
    requires DiskTracks(db, disk, uuid, images, 0)
    ensures
      var st := DbState(uuid, |images| + 1, PayloadAt(uuid, images).root);
      var (issued, image) := (BarrierIssues(db, disk, st, len), Decrypt(db, uuid, db.name, disk.main));
      var first := Saves(Load(db.dek, disk.anchor), BumpGen(uuid, None, |images| + 2));
      && first.Some? && first.value != [] && issued != [] && issued[0] == SaveAnchor(first.value[0])
      && (image.None? ==> |issued| == 1 && BarrierOps(db, disk, st, len).None? && BarrierHead(db, disk, st, len).None?)
      && (image.Some? ==>
           && BarrierOps(db, disk, st, len) == Some(issued) && BarrierHead(db, disk, st, len).Some?
           && |issued| == 3 && issued[1] == SealManifest(SealedPayload(db, st, image.value, len))
           && var last := Saves(Load(db.dek, Apply(db, disk, issued[0]).anchor), BumpGen(uuid, Some(|images| + 2), |images| + 2));
              last.Some? && last.value != [] && issued[2] == SaveAnchor(last.value[0]))
  {
    var st := DbState(uuid, |images| + 1, PayloadAt(uuid, images).root);
    var image := Decrypt(db, uuid, db.name, disk.main);
    assert disk.manifest.Some? && AnchorOk(db, disk, uuid, |images| + 1);
    SaveTracks(db, disk, uuid, images, 0, None, |images| + 2);
    var first := Saves(Load(db.dek, disk.anchor), BumpGen(uuid, None, |images| + 2)).value;
    var d1 := Apply(db, disk, SaveAnchor(first[0]));
    assert AnchorOk(db, d1, uuid, |images| + 1);
    AnchorOkLater(db, d1, uuid, |images| + 1);
    AnchorSaveKeeps(db, d1, uuid, |images| + 2, BumpGen(uuid, Some(|images| + 2), |images| + 2));
    SomeSaves(Load(db.dek, d1.anchor), BumpGen(uuid, Some(|images| + 2), |images| + 2));
    hide AnchorOk, DiskTracks, Saves, Load, Save, Decrypt, SealedPayload, PayloadAt, Apply;
    if image.Some? {
      BarrierIs(db, disk, st, len, image.value, first, Saves(Load(db.dek, d1.anchor), BumpGen(uuid, Some(|images| + 2), |images| + 2)).value);
    }
  }

  /** Wherever a barrier is cut, torn or not, the disk tracks the images sealed, the new one from its
      second operation on; only between the second and the last does the anchor lag. */
  lemma IssuedTracks(db: Db, disk: Disk, uuid: Uuid, images: seq<seq<Page>>, len: Option<nat>, landed: nat)
    requires DiskTracks(db, disk, uuid, images, 0)
    requires landed <= |BarrierIssues(db, disk, DbState(uuid, |images| + 1, PayloadAt(uuid, images).root), len)|
    ensures
      var st := DbState(uuid, |images| + 1, PayloadAt(uuid, images).root);
      var (issued, image) := (BarrierIssues(db, disk, st, len), Decrypt(db, uuid, db.name, disk.main));
      var sealed := if landed >= 2 then images + [image.value] else images;
      var now := ApplyAll(db, disk, issued[..landed]);
      && (landed >= 2 ==> image.Some?)
      && DiskTracks(db, now, uuid, sealed, if landed == 2 then 1 else 0)
      && (landed < |issued| ==> DiskTracks(db, Tear(db, now, issued[landed]), uuid, sealed, if landed == 2 then 1 else 0))
  {
    var st := DbState(uuid, |images| + 1, PayloadAt(uuid, images).root);
    var image := Decrypt(db, uuid, db.name, disk.main);
    BarrierShape(db, disk, uuid, images, len);
    SaveTracks(db, disk, uuid, images, 0, None, |images| + 2);
    hide *;
    var issued := BarrierIssues(db, disk, st, len);
    ApplyPrefix(db, disk, issued, landed);
    if landed <= 1 {
      if |issued| > 1 { SealTracks(db, Apply(db, disk, issued[0]), uuid, images, image.value, len); }
    } else {
      LateTracks(db, disk, uuid, images, image.value, len, issued);
    }
  }

  /** The second and third operations of a barrier, behind its first. */
  lemma LateTracks(db: Db, disk: Disk, uuid: Uuid, images: seq<seq<Page>>, image: seq<Page>, len: Option<nat>, ops: seq<Op>)
    requires |ops| == 3
    requires DiskTracks(db, Apply(db, disk, ops[0]), uuid, images, 0) && EntryOf(db, Apply(db, disk, ops[0]), uuid).value.inFlight >= |images| + 2
    requires ops[1] == SealManifest(SealedPayload(db, DbState(uuid, |images| + 1, PayloadAt(uuid, images).root), image, len))
    requires
      var last := Saves(Load(db.dek, Apply(db, disk, ops[0]).anchor), BumpGen(uuid, Some(|images| + 2), |images| + 2));
      last.Some? && last.value != [] && ops[2] == SaveAnchor(last.value[0])
    ensures
      var d2 := Apply(db, Apply(db, disk, ops[0]), ops[1]);
      && DiskTracks(db, d2, uuid, images + [image], 1) && DiskTracks(db, Tear(db, d2, ops[2]), uuid, images + [image], 1)
      && DiskTracks(db, Apply(db, d2, ops[2]), uuid, images + [image], 0)
  {
    hide *;
    SealTracks(db, Apply(db, disk, ops[0]), uuid, images, image, len);
    var d2 := Apply(db, Apply(db, disk, ops[0]), ops[1]);
    assert |images + [image]| == |images| + 1;
    SaveTracks(db, d2, uuid, images + [image], 1, Some(|images| + 2), |images| + 2);
  }

  lemma ApplyPrefix(db: Db, disk: Disk, ops: seq<Op>, landed: nat)
    requires landed <= |ops| <= 3
    ensures landed == 0 ==> ApplyAll(db, disk, ops[..landed]) == disk
    ensures landed == 1 ==> ApplyAll(db, disk, ops[..landed]) == Apply(db, disk, ops[0])
    ensures landed == 2 ==> ApplyAll(db, disk, ops[..landed]) == Apply(db, Apply(db, disk, ops[0]), ops[1])
    ensures landed == 3 ==> ApplyAll(db, disk, ops[..landed]) == Apply(db, Apply(db, Apply(db, disk, ops[0]), ops[1]), ops[2])
  {
    hide Apply;
    var p := ops[..landed];
    if landed == 0 {
      assert p == [];
    } else if landed == 1 {
      assert p == [ops[0]] && p[1..] == [];
    } else if landed == 2 {
      assert p == [ops[0], ops[1]] && p[1..] == [ops[1]] && [ops[1]][1..] == [];
      assert ApplyAll(db, disk, p) == ApplyAll(db, Apply(db, disk, ops[0]), [ops[1]]);
      assert ApplyAll(db, Apply(db, disk, ops[0]), [ops[1]]) == Apply(db, Apply(db, disk, ops[0]), ops[1]);
    } else {
      assert p == [ops[0], ops[1], ops[2]];
      ApplyThree(db, disk, ops[0], ops[1], ops[2]);
    }
  }

  /** The images an event seals: the main file's, when a whole call takes a hot journal dead, and when the
      seal of a call that was cut had landed. */
  function SealedBy(db: Db, w: World, e: Event): seq<seq<Page>> {
    match e
    case Did(c) => if Kills(db, w, c) then [MainImage(db, w.disk)] else []
    case CutIn(c, landed, _, _) => if CutSeals(db, w, c, landed) then [MainImage(db, w.disk)] else []
    case _ => []
  }

  /** The power was cut after the call's seal had landed. */
  predicate CutSeals(db: Db, w: World, c: Call, landed: nat) {
    Hooked(db, w, c) && landed >= 2 && |Issued(db, w, c)| >= 2
  }

  lemma ActKeepsRecords(db: Db, uuid: Uuid, w: World, c: Call)
    ensures
      var w' := Act(db, uuid, w, c);
      w'.disk.manifest == w.disk.manifest && w'.disk.anchor == w.disk.anchor && w'.session == w.session
  {
    hide BD.Written, BD.Truncated;
  }

  lemma ImageIs(db: Db, disk: Disk, uuid: Uuid, images: seq<seq<Page>>, lag: nat)
    requires DiskTracks(db, disk, uuid, images, lag)
    ensures Decrypt(db, uuid, db.name, disk.main).Some? ==> MainImage(db, disk) == Decrypt(db, uuid, db.name, disk.main).value
  {
    hide Decrypt, AnchorOk, ReadManifest, EntryOf;
  }

  /** How far the anchor lags behind the manifest after an event: by the last seal, when the call that made it
      was cut before its last record, until an open records it. */
  function LagAfter(db: Db, w: World, e: Event, lag: nat): nat {
    match e
    case CutIn(c, landed, _, _) => if w.session.Some? && CutSeals(db, w, c, landed) && landed == 2 then 1 else lag
    case Reopen(recorded, _) => if w.session.None? && recorded then 0 else lag
    case _ => lag
  }

  /** A whole call keeps it. */
  lemma DoTracks(db: Db, w: World, c: Call, uuid: Uuid, images: seq<seq<Page>>, lag: nat)
    requires Tracks(db, w, uuid, images, lag) && Shaped(db, w, Did(c))
    ensures Tracks(db, Do(db, w, c), uuid, images + SealedBy(db, w, Did(c)), lag)
  {
    SealsAreDeaths(db, w, c);
    assert images + [] == images;
    if w.session.Some? {
      var st := w.session.value;
      ActKeepsRecords(db, uuid, w, c);
      if !Hooked(db, w, c) {
        hide DiskTracks, Act, Kills, Hooked, PayloadAt;
        SameTracks(db, w.disk, Act(db, uuid, w, c).disk, uuid, images, lag);
      } else {
        HookedTracks(db, w, c, uuid, images);
      }
    }
  }

  lemma HookedTracks(db: Db, w: World, c: Call, uuid: Uuid, images: seq<seq<Page>>)
    requires Tracks(db, w, uuid, images, 0) && Hooked(db, w, c)
    ensures Tracks(db, Do(db, w, c), uuid, images + if Seals(db, w, c) then [MainImage(db, w.disk)] else [], 0)
  {
    var len := JournalLen(w);
    BarrierShape(db, w.disk, uuid, images, len);
    var issued := BarrierIssues(db, w.disk, w.session.value, len);
    IssuedTracks(db, w.disk, uuid, images, len, |issued|);
    assert issued[..|issued|] == issued && images + [] == images;
    ImageIs(db, w.disk, uuid, images, 0);
    if Seals(db, w, c) {
      var after := AfterSeal(db, w);
      var image := Decrypt(db, uuid, db.name, w.disk.main).value;
      ActKeepsRecords(db, uuid, after, c);
      NextPayload(uuid, images, image);
      assert after.session == Some(DbState(uuid, |images| + 2, ImageRoot(image)));
      hide DiskTracks, Act, BarrierIssues, BarrierOps, ApplyAll, Hot, PayloadAt, ImageRoot, Decrypt, MainImage;
      SameTracks(db, after.disk, Act(db, uuid, after, c).disk, uuid, images + [image], 0);
    }
  }

  /** A cut inside a call that runs a barrier. */
  lemma CutUnfolds(db: Db, w: World, c: Call, landed: nat, torn: bool, left: Left)
    requires w.session.Some? && Hooked(db, w, c) && |Issued(db, w, c)| in {1, 3}
    ensures Issued(db, w, c) == BarrierIssues(db, w.disk, w.session.value, JournalLen(w))
    ensures
      var (issued, e, after) := (Issued(db, w, c), CutIn(c, landed, torn, left), CutDisk(db, w, c, landed, torn, left));
      var n := Min(landed, |issued|);
      var now := ApplyAll(db, w.disk, issued[..n]);
      && n <= |issued| && SealedBy(db, w, e) == (if n >= 2 then [MainImage(db, w.disk)] else []) && LagAfter(db, w, e, 0) == (if n == 2 then 1 else 0)
      && (n < |issued| ==> after == if torn then Tear(db, now, issued[n]) else now)
      && (n == |issued| ==> after.manifest == now.manifest && after.anchor == now.anchor)
  {
    hide BarrierIssues, Hot, ApplyAll, Tear, MainImage;
    var issued := Issued(db, w, c);
    assert issued[..|issued|] == issued;
  }

  /** A cut keeps it, wherever it falls. */
  lemma CutTracks(db: Db, w: World, c: Call, landed: nat, torn: bool, left: Left, uuid: Uuid, images: seq<seq<Page>>)
    requires Tracks(db, w, uuid, images, 0) && w.session.Some?
    ensures DiskTracks(db, CutDisk(db, w, c, landed, torn, left), uuid, images + SealedBy(db, w, CutIn(c, landed, torn, left)), LagAfter(db, w, CutIn(c, landed, torn, left), 0))
  {
    assert images + [] == images;
    var issued := Issued(db, w, c);
    if Hooked(db, w, c) {
      assert w.session.value == DbState(uuid, |images| + 1, PayloadAt(uuid, images).root) && DiskTracks(db, w.disk, uuid, images, 0);
      assert issued == BarrierIssues(db, w.disk, w.session.value, JournalLen(w));
      hide *;
      var n := Min(landed, |issued|);
      BarrierShape(db, w.disk, uuid, images, JournalLen(w));
      CutUnfolds(db, w, c, landed, torn, left);
      IssuedTracks(db, w.disk, uuid, images, JournalLen(w), n);
      ImageIs(db, w.disk, uuid, images, 0);
      if n == |issued| {
        SameTracks(db, ApplyAll(db, w.disk, issued[..n]), CutDisk(db, w, c, landed, torn, left), uuid,
                   images + SealedBy(db, w, CutIn(c, landed, torn, left)), LagAfter(db, w, CutIn(c, landed, torn, left), 0));
      }
    } else {
      assert issued == [] && ApplyAll(db, w.disk, []) == w.disk;
      SameTracks(db, w.disk, CutDisk(db, w, c, landed, torn, left), uuid, images, 0);
    }
  }

  /** An open reads and at most records; a session that starts knows what the manifest says. */
  lemma ReopenTracks(db: Db, w: World, landed: bool, torn: bool, uuid: Uuid, images: seq<seq<Page>>, lag: nat)
    requires Tracks(db, w, uuid, images, lag)
    ensures Tracks(db, Step(db, w, Reopen(landed, torn)), uuid, images, LagAfter(db, w, Reopen(landed, torn), lag))
  {
    if w.session.None? {
      var p := Current(db, w.disk).value;
      SaveTracks(db, w.disk, uuid, images, lag, Some(|images| + 1), |images| + 1);
      assert Fresh(Load(db.dek, w.disk.anchor), p.uuid, p.generation);
      OpenIsRecord(db, w.disk, p);
      AdmitsAsManifest(db, w.disk, p);
      hide Examine, Saves, Load, Save, OpenOps, AnchorOk, ReadManifest, Fresh, EntryOf, DiskTracks;
    }
  }

  lemma OpenIsRecord(db: Db, disk: Disk, p: Payload)
    requires Current(db, disk) == Some(p) && Saves(Load(db.dek, disk.anchor), BumpGen(p.uuid, Some(p.generation), p.generation)).Some?
    requires Fresh(Load(db.dek, disk.anchor), p.uuid, p.generation)
    ensures OpenOps(db, disk, 0) == [SaveAnchor(Saves(Load(db.dek, disk.anchor), BumpGen(p.uuid, Some(p.generation), p.generation)).value[0])]
  {
    hide Saves, Load, ReadManifest, Fresh;
  }

  lemma AdmitsAsManifest(db: Db, disk: Disk, p: Payload)
    requires Current(db, disk) == Some(p)
    ensures Examine(db, disk).Admit? ==> Examine(db, disk).state == DbState(p.uuid, p.generation, p.root)
  {
    hide Saves, Load, ReadManifest, Fresh, Served, Hot;
  }

  /** Every event keeps it: calls, cuts inside them, closes and opens. */
  lemma StepTracks(db: Db, w: World, e: Event, uuid: Uuid, images: seq<seq<Page>>, lag: nat)
    requires Tracks(db, w, uuid, images, lag) && Shaped(db, w, e)
    ensures Tracks(db, Step(db, w, e), uuid, images + SealedBy(db, w, e), LagAfter(db, w, e, lag))
  {
    assert images + [] == images;
    match e
    case Did(c) => DoTracks(db, w, c, uuid, images, lag);
    case CutIn(c, landed, torn, left) =>
      if w.session.Some? { CutTracks(db, w, c, landed, torn, left, uuid, images); }
      hide DiskTracks, CutDisk, Issued, Hot;
    case Close =>
    case Reopen(landed, torn) => ReopenTracks(db, w, landed, torn, uuid, images, lag);
  }

  /** While the main file authenticates no barrier fails. */
  lemma BarrierSucceeds(db: Db, w: World, uuid: Uuid, images: seq<seq<Page>>)
    requires Tracks(db, w, uuid, images, 0) && w.session.Some? && Authentic(db, uuid, db.name, w.disk.main)
    ensures Barrier(db, w).Some?
  {
    BarrierShape(db, w.disk, uuid, images, JournalLen(w));
    hide DiskTracks, BarrierIssues, BarrierOps, BarrierHead, Saves, Load, Plain;
  }

  // ------------------------------------------------------------------------- the theorems

  function Run(db: Db, w: World, events: seq<Event>): World
    decreases |events|
  {
    if events == [] then w else Run(db, Step(db, w, events[0]), events[1..])
  }

  predicate AllShaped(db: Db, w: World, events: seq<Event>)
    decreases |events|
  {
    events == [] || (Shaped(db, w, events[0]) && AllShaped(db, Step(db, w, events[0]), events[1..]))
  }

  /** The images a run seals, in order. */
  function SealedIn(db: Db, w: World, events: seq<Event>): seq<seq<Page>>
    decreases |events|
  {
    if events == [] then [] else SealedBy(db, w, events[0]) + SealedIn(db, Step(db, w, events[0]), events[1..])
  }

  /** The hot-to-dead transitions of a run's whole calls. */
  function Deaths(db: Db, w: World, events: seq<Event>): nat
    decreases |events|
  {
    if events == [] then 0
    else (if events[0].Did? && Kills(db, w, events[0].call) then 1 else 0) + Deaths(db, Step(db, w, events[0]), events[1..])
  }

  /** The cuts of a run that came after the seal of the call they fell into. */
  function LateCuts(db: Db, w: World, events: seq<Event>): nat
    decreases |events|
  {
    if events == [] then 0
    else (if events[0].CutIn? && CutSeals(db, w, events[0].call, events[0].landed) then 1 else 0)
         + LateCuts(db, Step(db, w, events[0]), events[1..])
  }

  /** The lag at the end of a run. */
  function LagIn(db: Db, w: World, events: seq<Event>, lag: nat): nat
    decreases |events|
  {
    if events == [] then lag else LagIn(db, Step(db, w, events[0]), events[1..], LagAfter(db, w, events[0], lag))
  }

  lemma {:induction false} SealsAreCounted(db: Db, w: World, events: seq<Event>)
    ensures |SealedIn(db, w, events)| == Deaths(db, w, events) + LateCuts(db, w, events)
    decreases |events|
  {
    if events != [] {
      hide Step, Kills, CutSeals, MainImage;
      SealsAreCounted(db, Step(db, w, events[0]), events[1..]);
    }
  }

  lemma RunUnfolds(db: Db, w: World, events: seq<Event>)
    requires events != [] && AllShaped(db, w, events)
    ensures Shaped(db, w, events[0]) && AllShaped(db, Step(db, w, events[0]), events[1..])
    ensures Run(db, w, events) == Run(db, Step(db, w, events[0]), events[1..])
    ensures SealedIn(db, w, events) == SealedBy(db, w, events[0]) + SealedIn(db, Step(db, w, events[0]), events[1..])
    ensures forall lag :: LagIn(db, w, events, lag) == LagIn(db, Step(db, w, events[0]), events[1..], LagAfter(db, w, events[0], lag))
  {
    hide Step, Shaped, SealedBy, LagAfter;
  }

  lemma {:induction false} RunTracks(db: Db, w: World, events: seq<Event>, uuid: Uuid, images: seq<seq<Page>>, lag: nat)
    requires Tracks(db, w, uuid, images, lag) && AllShaped(db, w, events)
    ensures Tracks(db, Run(db, w, events), uuid, images + SealedIn(db, w, events), LagIn(db, w, events, lag))
    decreases |events|
  {
    if events == [] {
      hide Tracks;
      assert images + [] == images;
    } else {
      hide *;
      RunUnfolds(db, w, events);
      var now := SealedBy(db, w, events[0]);
      StepTracks(db, w, events[0], uuid, images, lag);
      RunTracks(db, Step(db, w, events[0]), events[1..], uuid, images + now, LagAfter(db, w, events[0], lag));
      assert images + now + SealedIn(db, Step(db, w, events[0]), events[1..]) == images + SealedIn(db, w, events);
    }
  }

  /** What an open of a database that does not exist yet leaves: `create_manifest`'s state. */
  function Created(db: Db, disk: Disk, uuid: Uuid): World {
    World(ApplyAll(db, disk, OpenOps(db, disk, uuid)), Some(DbState(uuid, 1, ZeroRoot)), 0)
  }

  /** The open creates a database: no main file, no journal, and a uuid that the anchor knows nothing
      later of. */
  ghost predicate Creates(db: Db, disk: Disk, uuid: Uuid) {
    && Examine(db, disk) == Create && disk.journal.None?
    && OpenVerdict(db, disk, uuid) == Admit(DbState(uuid, 1, ZeroRoot), None)
    && AnchorOk(db, disk, uuid, 1)
  }

  lemma CreatedTracks(db: Db, disk: Disk, uuid: Uuid)
    requires Creates(db, disk, uuid)
    ensures Tracks(db, Created(db, disk, uuid), uuid, [], 0)
  {
    var b := BumpGen(uuid, Some(1), 1);
    AnchorSaveKeeps(db, disk, uuid, 1, b);
    SaveRecords(db, disk, b);
    var m := WriteSlot(db.dek, db.name, ManifestFile(Some(uuid), Slots(Torn, Torn)), NewPayload(db, uuid));
    var save := SaveAnchor(Saves(Load(db.dek, disk.anchor), b).value[0]);
    CreateOps(db, disk, uuid);
    var w := Created(db, disk, uuid);
    assert w.disk == Disk([], None, Some(m), Apply(db, disk, save).anchor);
    SameAnchorOk(db, Apply(db, disk, save), w.disk, uuid, 1);
    SameEntry(db, Apply(db, disk, save), w.disk, uuid);
    assert ReadSlot(db.dek, db.name, uuid, m.slots, 1) == Some(NewPayload(db, uuid));
    assert ReadSlot(db.dek, db.name, uuid, m.slots, 0) == None;
    assert Current(db, w.disk) == Some(NewPayload(db, uuid));
  }

  lemma CreateOps(db: Db, disk: Disk, uuid: Uuid)
    requires Examine(db, disk) == Create && Saves(Load(db.dek, disk.anchor), BumpGen(uuid, Some(1), 1)).Some?
    ensures
      var m := WriteSlot(db.dek, db.name, ManifestFile(Some(uuid), Slots(Torn, Torn)), NewPayload(db, uuid));
      var save := SaveAnchor(Saves(Load(db.dek, disk.anchor), BumpGen(uuid, Some(1), 1)).value[0]);
      ApplyAll(db, disk, OpenOps(db, disk, uuid)) == Disk([], disk.journal, Some(m), Apply(db, disk, save).anchor)
  {
    var made := [NewManifest(uuid), SealManifest(NewPayload(db, uuid))];
    var save := SaveAnchor(Saves(Load(db.dek, disk.anchor), BumpGen(uuid, Some(1), 1)).value[0]);
    var ops := OpenOps(db, disk, uuid);
    hide Saves, Load, Save, NewPayload, WriteSlot;
    assert (made + [save])[1..] == [made[1]] + [save] && ([made[1]] + [save])[1..] == [save] && [save][1..] == [];
    assert [] + made + [save] == made + [save];
    if disk.manifest.Some? {
      assert ops == [DropManifest] + made + [save] && ops[1..] == made + [save] && ops[0] == DropManifest;
    }
    var d := if disk.manifest.Some? then Apply(db, disk, DropManifest) else disk;
    assert ApplyAll(db, disk, ops) == ApplyAll(db, d, made + [save]);
    assert ApplyAll(db, d, made + [save]) == ApplyAll(db, Apply(db, d, made[0]), [made[1]] + [save]);
    assert ApplyAll(db, Apply(db, d, made[0]), [made[1]] + [save])
        == ApplyAll(db, Apply(db, Apply(db, d, made[0]), made[1]), [save]);
    assert ApplyAll(db, Apply(db, Apply(db, d, made[0]), made[1]), [save]) == Apply(db, Apply(db, Apply(db, d, made[0]), made[1]), save);
  }

  /** From creation on, over every run of sessions and cuts: the generation is one more than the hot-to-dead
      transitions of whole calls and the cuts that came after a seal, redundant finalizations never move
      it, and the roots in the manifest and the session are those of the last two images sealed. */
  lemma GenerationCountsDeaths(db: Db, disk: Disk, uuid: Uuid, events: seq<Event>)
    requires Creates(db, disk, uuid) && AllShaped(db, Created(db, disk, uuid), events)
    ensures
      var w := Created(db, disk, uuid);
      var (end, images) := (Run(db, w, events), SealedIn(db, w, events));
      && Current(db, end.disk).Some?
      && Current(db, end.disk).value.(files := []) == PayloadAt(uuid, images)
      && Current(db, end.disk).value.generation == 1 + Deaths(db, w, events) + LateCuts(db, w, events)
      && (end.session.Some? ==> end.session.value == DbState(uuid, 1 + |images|, PayloadAt(uuid, images).root))
  {
    CreatedTracks(db, disk, uuid);
    RunTracks(db, Created(db, disk, uuid), events, uuid, [], 0);
    SealsAreCounted(db, Created(db, disk, uuid), events);
    assert [] + SealedIn(db, Created(db, disk, uuid), events) == SealedIn(db, Created(db, disk, uuid), events);
    hide Created, Run, SealedIn, Deaths, LateCuts, AnchorOk, ReadManifest, Creates;
  }

  /** While a session is open, the anchor does not lag. */
  lemma SessionsDoNotLag(db: Db, disk: Disk, uuid: Uuid, events: seq<Event>)
    requires Creates(db, disk, uuid) && AllShaped(db, Created(db, disk, uuid), events)
    ensures
      var w := Created(db, disk, uuid);
      LagIn(db, w, events, 0) <= 1 && (Run(db, w, events).session.Some? ==> LagIn(db, w, events, 0) == 0)
  {
    CreatedTracks(db, disk, uuid);
    RunTracks(db, Created(db, disk, uuid), events, uuid, [], 0);
    hide Created, Run, SealedIn, LagIn, AnchorOk, ReadManifest, Creates, EntryOf;
  }

  /** At the end of every run, put an older manifest of the database back, under whatever main file and journal:
      an open refuses it and makes nothing durable exactly when it is two generations behind the current
      one, or three while the anchor lags. The anchor does not object to any other. */
  lemma RollbackIsRefusedIff(db: Db, disk: Disk, uuid: Uuid, events: seq<Event>, back: Disk, past: Payload, newUuid: Uuid)
    requires Creates(db, disk, uuid) && AllShaped(db, Created(db, disk, uuid), events)
    requires Current(db, back) == Some(past) && past.uuid == uuid && past.generation >= 1
    requires back.anchor == Run(db, Created(db, disk, uuid), events).disk.anchor
    ensures
      var w := Created(db, disk, uuid);
      var (gen, lag) := (1 + |SealedIn(db, w, events)|, LagIn(db, w, events, 0));
      if past.generation + 2 + lag <= gen then Examine(db, back) == Refuse && OpenOps(db, back, newUuid) == []
      else Examine(db, back) == Check(db, back, past) && OpenOps(db, back, newUuid) != []
  {
    var w := Created(db, disk, uuid);
    var (end, images, lag) := (Run(db, w, events), SealedIn(db, w, events), LagIn(db, w, events, 0));
    CreatedTracks(db, disk, uuid);
    RunTracks(db, w, events, uuid, [], 0);
    assert [] + images == images;
    assert DiskTracks(db, end.disk, uuid, images, lag);
    hide Created, Run, SealedIn, LagIn, Creates, AllShaped;
    SameEntry(db, end.disk, back, uuid);
    TrackedVerdict(db, end.disk, uuid, images, lag, back, past, newUuid);
  }

  lemma TrackedVerdict(db: Db, was: Disk, uuid: Uuid, images: seq<seq<Page>>, lag: nat, back: Disk, past: Payload, newUuid: Uuid)
    requires DiskTracks(db, was, uuid, images, lag) && back.anchor == was.anchor
    requires Current(db, back) == Some(past) && past.uuid == uuid && past.generation >= 1
    ensures
      if past.generation + 2 + lag <= 1 + |images| then Examine(db, back) == Refuse && OpenOps(db, back, newUuid) == []
      else Examine(db, back) == Check(db, back, past) && OpenOps(db, back, newUuid) != []
  {
    var t := Load(db.dek, back.anchor);
    var i := Find(t.entries, uuid);
    assert EntryOf(db, was, uuid) == Some(t.entries[i]);
    hide Check, ReadManifest, Find, Load, Anchor.Wf;
  }

  /** A transaction under journal deletion: create the journal, make it hot, write any pages, delete it. */
  function Transaction(pages: seq<(nat, Page)>): seq<Event> {
    [Did(OpenJournal), Did(WriteJournal(0, MAGIC))] + Writes(pages) + [Did(DeleteJournal)]
  }

  function Writes(pages: seq<(nat, Page)>): (events: seq<Event>)
    ensures |events| == |pages|
  {
    if pages == [] then [] else [Did(WritePage(pages[0].0, pages[0].1))] + Writes(pages[1..])
  }

  /** It is one death and leaves no journal, so the next one can follow: the image it seals is the one its
      page writes made. */
  lemma TransactionIsOneDeath(db: Db, w: World, uuid: Uuid, images: seq<seq<Page>>, pages: seq<(nat, Page)>)
    requires Tracks(db, w, uuid, images, 0) && w.session.Some? && w.disk.journal.None? && Authentic(db, uuid, db.name, w.disk.main)
    ensures AllShaped(db, w, Transaction(pages))
    ensures SealedIn(db, w, Transaction(pages)) == [MainImage(db, Run(db, w, Writes(pages)).disk)]
    ensures Run(db, w, Transaction(pages)).disk.journal.None?
  {
    var (c0, c1) := (OpenJournal, WriteJournal(0, MAGIC));
    var rest := Writes(pages) + [Did(DeleteJournal)];
    assert Transaction(pages)[0] == Did(c0) && Transaction(pages)[1..] == [Did(c1)] + rest && ([Did(c1)] + rest)[1..] == rest;
    HotStart(db, w, uuid);
    StepTracks(db, w, Did(c0), uuid, images, 0);
    hide Tracks, MainImage, Kills, Do, Shaped, Hot, Authentic;
    var w1 := Step(db, w, Did(c0));
    var w2 := Step(db, w1, Did(c1));
    assert images + [] == images;
    StepTracks(db, w1, Did(c1), uuid, images, 0);
    WritesThenDelete(db, w2, w, uuid, images, pages);
  }

  lemma HotStart(db: Db, w: World, uuid: Uuid)
    requires w.session.Some? && w.session.value.uuid == uuid && w.disk.journal.None?
    ensures
      var (c0, c1) := (Did(OpenJournal), Did(WriteJournal(0, MAGIC)));
      var w1 := Step(db, w, c0);
      var w2 := Step(db, w1, c1);
      && Shaped(db, w, c0) && Shaped(db, w1, c1) && !Kills(db, w, OpenJournal) && !Kills(db, w1, WriteJournal(0, MAGIC))
      && Hot(db, uuid, w2.disk.journal)
      && w2.disk.main == w.disk.main && w2.disk.manifest == w.disk.manifest && w2.session == w.session
  {
    var b := JournalBinding(db, uuid);
    var f := BD.File([], Some(0));
    var now := BD.Written(b, false, f, 0, MAGIC, BD.ON).1;
    FirstMagic(b);
    assert Block(db, uuid, JournalName(db.name), now.cells, 0) == BD.OpenBlock(b, now.cells, 0);
  }

  lemma FirstMagic(b: BD.Binding)
    ensures
      var now := BD.Written(b, false, BD.File([], Some(0)), 0, MAGIC, BD.ON).1;
      now.cells != [] && BD.OpenBlock(b, now.cells, 0).Some? && MAGIC <= BD.OpenBlock(b, now.cells, 0).value
  {
    var cells: BD.Cells := [];
    BD.NothingOffered(b, cells, 0, MAGIC);
    BD.AuthenticNeverStops(b, cells, 0, MAGIC, 0);
    BD.CutWrite(b, cells, 0, MAGIC, 1);
    var page := BD.Overlay(0, MAGIC, 0, ZeroPage());
    assert page[..8] == MAGIC;
  }

  /** Pages written beside a hot journal, and then its deletion. */
  lemma {:induction false} WritesThenDelete(db: Db, w: World, plain: World, uuid: Uuid, images: seq<seq<Page>>, pages: seq<(nat, Page)>)
    requires Tracks(db, w, uuid, images, 0) && w.session.Some? && Hot(db, uuid, w.disk.journal) && plain.disk.journal.None?
    requires w.disk.main == plain.disk.main && w.disk.manifest == plain.disk.manifest && w.session == plain.session
    requires Authentic(db, uuid, db.name, w.disk.main)
    ensures
      var events := Writes(pages) + [Did(DeleteJournal)];
      && AllShaped(db, w, events) && Run(db, w, events).disk.journal.None?
      && SealedIn(db, w, events) == [MainImage(db, Run(db, plain, Writes(pages)).disk)]
    decreases |pages|
  {
    var events := Writes(pages) + [Did(DeleteJournal)];
    if pages == [] {
      assert events == [Did(DeleteJournal)] && events[1..] == [];
      BarrierSucceeds(db, w, uuid, images);
      Deleted(db, w, plain);
    } else {
      var c := WritePage(pages[0].0, pages[0].1);
      assert events[0] == Did(c) && events[1..] == Writes(pages[1..]) + [Did(DeleteJournal)];
      assert Writes(pages)[1..] == Writes(pages[1..]);
      StepTracks(db, w, Did(c), uuid, images, 0);
      PageWritten(db, w, plain, uuid, pages[0].0, pages[0].1);
      assert images + [] == images;
      hide Tracks, Hot, MainImage, Do, Kills, Authentic;
      WritesThenDelete(db, Step(db, w, Did(c)), Step(db, plain, Did(c)), uuid, images, pages[1..]);
    }
  }

  lemma Deleted(db: Db, w: World, plain: World)
    requires w.session.Some? && Hot(db, w.session.value.uuid, w.disk.journal) && Barrier(db, w).Some?
    requires w.disk.main == plain.disk.main && w.disk.manifest == plain.disk.manifest
    ensures
      && AllShaped(db, w, [Did(DeleteJournal)]) && Run(db, w, [Did(DeleteJournal)]).disk.journal.None?
      && SealedIn(db, w, [Did(DeleteJournal)]) == [MainImage(db, plain.disk)]
  {
    hide Barrier, BarrierIssues, ApplyAll, ReadManifest, Decrypt;
    var d: seq<Event> := [Did(DeleteJournal)];
    assert d[1..] == [];
    assert Kills(db, w, DeleteJournal);
    assert MainImage(db, w.disk) == MainImage(db, plain.disk);
  }

  lemma PageWritten(db: Db, w: World, plain: World, uuid: Uuid, k: nat, page: Page)
    requires w.session.Some? && w.session.value.uuid == uuid && Hot(db, uuid, w.disk.journal) && plain.disk.journal.None?
    requires w.disk.main == plain.disk.main && w.disk.manifest == plain.disk.manifest && w.session == plain.session
    requires Authentic(db, uuid, db.name, w.disk.main) && w.disk.manifest.Some? && w.disk.manifest.value.header == Some(uuid)
    ensures
      var (w', plain') := (Step(db, w, Did(WritePage(k, page))), Step(db, plain, Did(WritePage(k, page))));
      && !Kills(db, w, WritePage(k, page))
      && w'.disk.main == plain'.disk.main && w'.disk.manifest == plain'.disk.manifest && w'.session == plain'.session == w.session
      && w'.disk.journal == w.disk.journal && plain'.disk.journal.None? && Authentic(db, uuid, db.name, w'.disk.main)
  {
    var main := Apply(db, w.disk, WriteMain(k, page)).main;
    forall i | 0 <= i < |main| ensures Block(db, uuid, db.name, main, i).Some? {
      if i < |w.disk.main| { assert Block(db, uuid, db.name, w.disk.main, i).Some?; }
    }
    hide Hot;
  }

  /** A closed database that holds its last sealed image opens again, to a session that knows it. */
  lemma SealedReopens(db: Db, w: World, uuid: Uuid, images: seq<seq<Page>>, lag: nat)
    requires Tracks(db, w, uuid, images, lag) && images != [] && w.session.None? && !Hot(db, uuid, w.disk.journal)
    requires w.disk.main != [] && Decrypt(db, uuid, db.name, w.disk.main) == Some(images[|images| - 1])
    requires GoodHeader(images[|images| - 1][0])
    ensures Step(db, w, Reopen(true, false)).session == Some(DbState(uuid, |images| + 1, PayloadAt(uuid, images).root))
  {
    LastTwo(db, w.disk, uuid, images, lag, w.disk.main, w.disk.journal);
    AdmitsAsManifest(db, w.disk, Current(db, w.disk).value);
    assert w.disk.(main := w.disk.main, journal := w.disk.journal) == w.disk;
    hide Examine, OpenStep, AnchorOk, ReadManifest, Decrypt, GoodHeader;
  }

  /** At the end of every run that sealed something, a journal-free open, whatever blocks the main file is
      made of, accepts exactly the last sealed image, and the one sealed before it when that is as long. */
  lemma OnlyTheLastTwo(db: Db, disk: Disk, uuid: Uuid, events: seq<Event>, main: seq<Cell<Page>>, journal: Option<seq<Cell<Page>>>)
    requires Creates(db, disk, uuid) && AllShaped(db, Created(db, disk, uuid), events)
    requires SealedIn(db, Created(db, disk, uuid), events) != [] && main != [] && !Hot(db, uuid, journal)
    ensures
      var w := Created(db, disk, uuid);
      var images := SealedIn(db, w, events);
      var (n, image) := (|images|, Decrypt(db, uuid, db.name, main));
      var verdict := Examine(db, Run(db, w, events).disk.(main := main, journal := journal));
      && (verdict.Admit? <==>
           && image.Some? && GoodHeader(image.value[0]) && |image.value| == |images[n - 1]|
           && (image.value == images[n - 1] || (n > 1 && image.value == images[n - 2])))
      && (verdict.Admit? ==> verdict.image == image)
  {
    CreatedTracks(db, disk, uuid);
    RunTracks(db, Created(db, disk, uuid), events, uuid, [], 0);
    var images := SealedIn(db, Created(db, disk, uuid), events);
    assert [] + images == images;
    LastTwo(db, Run(db, Created(db, disk, uuid), events).disk, uuid, images, LagIn(db, Created(db, disk, uuid), events, 0), main, journal);
  }

  lemma LastTwo(db: Db, was: Disk, uuid: Uuid, images: seq<seq<Page>>, lag: nat, main: seq<Cell<Page>>, journal: Option<seq<Cell<Page>>>)
    requires DiskTracks(db, was, uuid, images, lag) && images != [] && main != [] && !Hot(db, uuid, journal)
    ensures
      var (n, image) := (|images|, Decrypt(db, uuid, db.name, main));
      var verdict := Examine(db, was.(main := main, journal := journal));
      && (verdict.Admit? <==>
           && image.Some? && GoodHeader(image.value[0]) && |image.value| == |images[n - 1]|
           && (image.value == images[n - 1] || (n > 1 && image.value == images[n - 2])))
      && (verdict.Admit? ==> verdict.image == image)
  {
    var n, p := |images|, Current(db, was).value;
    var disk := was.(main := main, journal := journal);
    AnchorSaveKeeps(db, was, uuid, p.generation, BumpGen(uuid, Some(p.generation), p.generation));
    assert Current(db, disk) == Some(p) && p.root == ImageRoot(images[n - 1]);
    RootsAreInjective(images[n - 1], images[n - 1]);
    hide ReadManifest, Saves, Manifest.Wf;
    var image := Decrypt(db, uuid, db.name, main);
    if image.Some? {
      assert Block(db, uuid, db.name, main, 0) == Some(image.value[0]);
      RootsAreInjective(image.value, images[n - 1]);
      if n > 1 { RootsAreInjective(image.value, images[n - 2]); RootsAreInjective(images[n - 2], images[n - 2]); }
    }
  }
}
