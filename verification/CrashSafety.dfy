/** Crash safety of the commit protocol, over every run of transactions, power cuts and recoveries.

    The run alternates durable steps of the environment (SQLite writing its journal and the main file),
    the barrier of the VFS with the finalizing journal write behind it, power cuts anywhere, and opens. */
module CrashSafety {
  import opened Bytes
  import opened Crypto
  import opened Anchor
  import opened Manifest
  import opened Journal
  import opened RollbackJournal
  import opened Commit
  import BD = BlockDevice

  /** `base` is the committed image: what the main file held when the last finalization landed. `segs`
      describes the journal while it is hot. `pending` are the operations of a finalization in progress. */
  datatype State = State(disk: Disk, session: Option<DbState>, pending: seq<Op>, base: seq<Page>, segs: seq<Segment>)

  ghost function Uuid(s: State): Uuid
    requires s.disk.manifest.Some? && s.disk.manifest.value.header.Some?
  {
    s.disk.manifest.value.header.value
  }

  /** What the manifest now says. */
  function Current(db: Db, disk: Disk): Option<Payload> {
    if disk.manifest.None? then None else ReadManifest(db.dek, db.name, disk.manifest.value)
  }

  // --------------------------------------------------------------------------- the discipline of SQLite

  /** The journal is a valid rollback journal for `base` and every record is a pre-image of it. */
  ghost predicate WellJournaled(db: Db, uuid: Uuid, journal: Option<seq<Cell<Page>>>, segs: seq<Segment>, base: seq<Page>) {
    && Hot(db, uuid, journal)
    && Authentic(db, uuid, JournalName(db.name), journal.value)
    && Journals(Stream(Plain(db, uuid, JournalName(db.name), journal.value)), segs, |base|)
    && forall r <- AllRecords(segs) :: 0 < r.pgno <= |base| && r.page == base[r.pgno - 1]
  }

  datatype Event =
    | JournalWrite(journal: Option<seq<Cell<Page>>>, segs: seq<Segment>)
    | MainWrite(at: nat, page: Page)
    | MainTruncate(blocks: nat)
    | Finalize(kill: Option<seq<Cell<Page>>>, journalLen: Option<nat>)
    | Land
    | Cut
    | CutTearing
    | Open(landed: bool, torn: bool)

  /** What the environment may do. It may rewrite a dead journal at will and make it hot or extend it
      with valid pre-images; with a hot journal it may write pages that are saved, new, or restored, in
      any order, and cut the file back, though not below the committed length; it finalizes a hot
      journal by clearing its header, emptying it or deleting it. */
  ghost predicate Allowed(db: Db, s: State, e: Event)
    requires Current(db, s.disk).Some?
  {
    var uuid := Current(db, s.disk).value.uuid;
    var hot := Hot(db, uuid, s.disk.journal);
    match e
    case JournalWrite(j, segs) =>
      && s.session.Some? && s.pending == []
      && (Hot(db, uuid, j) || hot ==> WellJournaled(db, uuid, j, segs, s.base))
      && (hot ==> forall k :: Saved(k, AllRecords(s.segs)) ==> Saved(k, AllRecords(segs)))
    case MainWrite(k, page) =>
      && s.session.Some? && s.pending == [] && hot && k <= |s.disk.main|
      && (k >= |s.base| || page == s.base[k] || Saved(k, AllRecords(s.segs)))
    case MainTruncate(n) =>
      s.session.Some? && s.pending == [] && hot && |s.base| <= n <= |s.disk.main|
    case Finalize(kill, _) =>
      && s.session.Some? && s.pending == [] && hot && !Hot(db, uuid, kill)
      && s.disk.main != [] && Block(db, uuid, db.name, s.disk.main, 0).Some?
      && GoodHeader(Block(db, uuid, db.name, s.disk.main, 0).value)
      && RollbackTargetKept(db, s)
    case Land => s.pending != []
    case CutTearing => s.pending != []
    case Cut => true
    case Open(_, _) => s.session.None? && s.pending == []
  }

  /** The seal about to be made keeps the root of the committed image: the main file is back at it, or
      the session carries it as the previous root. */
  ghost predicate RollbackTargetKept(db: Db, s: State)
    requires s.session.Some?
  {
    || Decrypt(db, s.session.value.uuid, db.name, s.disk.main) == Some(s.base)
    || s.session.value.committedRoot == ImageRoot(s.base)
  }

  /** A durable operation the power failed in. A torn header write leaves a journal block that does not
      authenticate; deleting and emptying are single metadata operations. */
  function Tear(db: Db, disk: Disk, op: Op): Disk {
    match op
    case SaveAnchor(t) => disk.(anchor := TornSave(disk.anchor, t))
    case SealManifest(p) =>
      if disk.manifest.None? then disk else disk.(manifest := Some(TornSlot(disk.manifest.value, p)))
    case SetJournal(j) =>
      if j.Some? && j.value != [] then disk.(journal := Some(j.value[0 := Torn])) else disk
    case _ => disk
  }

  function OpenStep(db: Db, disk: Disk, landed: bool, torn: bool): Disk {
    var ops := OpenOps(db, disk, 0);
    if |ops| != 1 then disk
    else if landed then Apply(db, disk, ops[0])
    else if torn then Tear(db, disk, ops[0])
    else disk
  }

  function MainImage(db: Db, disk: Disk): seq<Page> {
    var m := Current(db, disk);
    if m.None? then []
    else
      var image := Decrypt(db, m.value.uuid, db.name, disk.main);
      if image.None? then [] else image.value
  }

  function Step(db: Db, s: State, e: Event): State {
    match e
    case JournalWrite(j, segs) => s.(disk := Apply(db, s.disk, SetJournal(j)), segs := segs)
    case MainWrite(k, page) => s.(disk := Apply(db, s.disk, WriteMain(k, page)))
    case MainTruncate(n) => s.(disk := Apply(db, s.disk, TruncateMain(n)))
    case Finalize(kill, len) =>
      if s.session.None? then s
      else
        var ops := BarrierOps(db, s.disk, s.session.value, len);
        if ops.None? then s else s.(pending := ops.value + [SetJournal(kill)])
    case Land =>
      if s.pending == [] then s
      else
        var landed := s.(disk := Apply(db, s.disk, s.pending[0]), pending := s.pending[1..]);
        if |s.pending| == 1 && s.session.Some? && Authentic(db, s.session.value.uuid, db.name, s.disk.main)
        then landed.(base := MainImage(db, s.disk), session := Some(AfterBarrier(db, s.disk, s.session.value)))
        else landed
    case Cut => s.(session := None, pending := [])
    case CutTearing =>
      if s.pending == [] then s
      else
        var op := s.pending[0];
        var cut := s.(disk := Tear(db, s.disk, op), session := None, pending := []);
        if op.SetJournal? && op.cells.Some? && op.cells.value != [] then cut.(base := MainImage(db, s.disk)) else cut
    case Open(landed, torn) =>
      match Examine(db, s.disk)
      case Admit(st, _) =>
        if landed then s.(disk := OpenStep(db, s.disk, true, torn), session := Some(st))
        else s.(disk := OpenStep(db, s.disk, false, torn))
      case _ => s.(disk := OpenStep(db, s.disk, landed, torn))
  }

  // --------------------------------------------------------------------------- the invariant

  ghost predicate AnchorOk(db: Db, disk: Disk, uuid: Uuid, gen: nat) {
    var es := Load(db.dek, disk.anchor).entries;
    var i := Find(es, uuid);
    && Anchor.Wf(db.dek, disk.anchor)
    && (i < |es| ==> es[i].committed <= gen && es[i].epochFloor <= gen)
    && (i < |es| || |es| < ANCHOR_CAP)
  }

  ghost predicate ManifestOk(db: Db, disk: Disk) {
    && disk.manifest.Some?
    && Manifest.Wf(db.dek, db.name, disk.manifest.value)
    && Current(db, disk).Some?
    && Current(db, disk).value.root != ZeroRoot
    && disk.manifest.value.header == Some(Current(db, disk).value.uuid)
  }

  /** The disk holds `base`: in the main file when the journal is dead, through the journal when hot. */
  ghost predicate Holds(db: Db, disk: Disk, base: seq<Page>, segs: seq<Segment>) {
    && ManifestOk(db, disk)
    && base != [] && GoodHeader(base[0])
    && var m := Current(db, disk).value;
       && AnchorOk(db, disk, m.uuid, m.generation)
       && Authentic(db, m.uuid, db.name, disk.main)
       && var main := Plain(db, m.uuid, db.name, disk.main);
          if Hot(db, m.uuid, disk.journal) then
            && WellJournaled(db, m.uuid, disk.journal, segs, base)
            && Covers(base, main, AllRecords(segs))
            && |disk.main| >= |base|
            && Accepted(m, ImageRoot(base))
          else
            && main == base
            && m.root == ImageRoot(base)
            && Listed(m.files, db.name) == Some(|base| * BLOCK_SIZE)
  }

  /** Every disk that holds `base` is accepted, and the certified image is `base`. */
  lemma OpenCertifies(db: Db, disk: Disk, base: seq<Page>, segs: seq<Segment>)
    requires Holds(db, disk, base, segs)
    ensures
      var m := Current(db, disk).value;
      Examine(db, disk) == Admit(DbState(m.uuid, m.generation, m.root), Some(base))
  {
    var m := Current(db, disk).value;
    var main := Plain(db, m.uuid, db.name, disk.main);
    if Hot(db, m.uuid, disk.journal) {
      var j := Stream(Plain(db, m.uuid, JournalName(db.name), disk.journal.value));
      ReplayRestores(j, segs, base, main);
    } else {
      assert Block(db, m.uuid, db.name, disk.main, 0) == Some(base[0]);
    }
    RootsAreInjective(base, base);
  }

  /** A finalization in progress: the session, the image being sealed and the journal that will be dead. */
  ghost predicate Sealing(db: Db, s: State, kill: Option<seq<Cell<Page>>>)
    requires Holds(db, s.disk, s.base, s.segs)
  {
    var m := Current(db, s.disk).value;
    && s.session.Some? && s.session.value.uuid == m.uuid
    && Hot(db, m.uuid, s.disk.journal) && !Hot(db, m.uuid, kill)
    && s.disk.main != []
    && GoodHeader(Plain(db, m.uuid, db.name, s.disk.main)[0])
  }

  ghost function Next(db: Db, s: State, len: Option<nat>): Payload
    requires Holds(db, s.disk, s.base, s.segs) && s.session.Some?
  {
    SealedPayload(db, s.session.value, Plain(db, Current(db, s.disk).value.uuid, db.name, s.disk.main), len)
  }

  /** Nothing of the seal has landed, and the session knows what the manifest says. */
  ghost predicate Unsealed(db: Db, s: State, kill: Option<seq<Cell<Page>>>)
    requires Holds(db, s.disk, s.base, s.segs)
  {
    var m := Current(db, s.disk).value;
    && Sealing(db, s, kill)
    && s.session.value == DbState(m.uuid, m.generation, m.root)
    && RollbackTargetKept(db, s)
  }

  ghost predicate Phase4(db: Db, s: State, kill: Option<seq<Cell<Page>>>, len: Option<nat>)
    requires Holds(db, s.disk, s.base, s.segs)
  {
    && Unsealed(db, s, kill)
    && BarrierOps(db, s.disk, s.session.value, len).Some?
    && s.pending == BarrierOps(db, s.disk, s.session.value, len).value + [SetJournal(kill)]
  }

  ghost predicate Phase3(db: Db, s: State, kill: Option<seq<Cell<Page>>>, len: Option<nat>)
    requires Holds(db, s.disk, s.base, s.segs)
  {
    && Unsealed(db, s, kill)
    && |s.pending| == 3 && RecordsCommitted(db, s.disk, s.session.value, s.pending[1])
    && s.pending == [SealManifest(Next(db, s, len)), s.pending[1], SetJournal(kill)]
  }

  ghost predicate Phase2(db: Db, s: State, kill: Option<seq<Cell<Page>>>, len: Option<nat>)
    requires Holds(db, s.disk, s.base, s.segs)
  {
    && Sealing(db, s, kill)
    && Current(db, s.disk).value == Next(db, s, len)
    && |s.pending| == 2 && RecordsCommitted(db, s.disk, s.session.value, s.pending[0])
    && s.pending == [s.pending[0], SetJournal(kill)]
  }

  ghost predicate Phase1(db: Db, s: State, kill: Option<seq<Cell<Page>>>, len: Option<nat>)
    requires Holds(db, s.disk, s.base, s.segs)
  {
    && Sealing(db, s, kill)
    && Current(db, s.disk).value == Next(db, s, len)
    && s.pending == [SetJournal(kill)]
  }

  ghost predicate InFlight(db: Db, s: State, kill: Option<seq<Cell<Page>>>, len: Option<nat>)
    requires Holds(db, s.disk, s.base, s.segs)
  {
    Phase4(db, s, kill, len) || Phase3(db, s, kill, len) || Phase2(db, s, kill, len) || Phase1(db, s, kill, len)
  }

  ghost predicate RecordsCommitted(db: Db, disk: Disk, st: DbState, op: Op) {
    var ts := Saves(Load(db.dek, disk.anchor), BumpGen(st.uuid, Some(st.generation + 1), st.generation + 1));
    ts.Some? && op == SaveAnchor(ts.value[0])
  }

  ghost predicate Inv(db: Db, s: State) {
    && Holds(db, s.disk, s.base, s.segs)
    && if s.pending == [] then
         var m := Current(db, s.disk).value;
         s.session.Some? ==> s.session.value == DbState(m.uuid, m.generation, m.root)
       else exists kill, len :: InFlight(db, s, kill, len)
  }

  /** A database at rest: every block sealed, no journal, one manifest slot that says so. */
  function AtRest(db: Db, uuid: Uuid, image: seq<Page>, gen: nat): State {
    var p := Payload(gen, uuid, ImageRoot(image), ZeroRoot, [(db.name, |image| * BLOCK_SIZE)]);
    var main := seq(|image|, k requires 0 <= k < |image| => SealMain(db, uuid, k, image[k]));
    var m := WriteSlot(db.dek, db.name, ManifestFile(Some(uuid), Slots(Torn, Torn)), p);
    State(Disk(main, None, Some(m), Slots(Torn, Torn)), None, [], image, [])
  }

  /** Runs can start there, for every image with a good header: the invariant is not empty. */
  lemma AtRestHolds(db: Db, uuid: Uuid, image: seq<Page>, gen: nat)
    requires image != [] && GoodHeader(image[0])
    ensures Inv(db, AtRest(db, uuid, image, gen)) && AtRest(db, uuid, image, gen).base == image
  {
    var s := AtRest(db, uuid, image, gen);
    var p := Payload(gen, uuid, ImageRoot(image), ZeroRoot, [(db.name, |image| * BLOCK_SIZE)]);
    var m := s.disk.manifest.value;
    assert ReadSlot(db.dek, db.name, uuid, m.slots, gen % 2) == Some(p);
    assert ReadSlot(db.dek, db.name, uuid, m.slots, 1 - gen % 2) == None;
    assert Current(db, s.disk) == Some(p);
    forall k | 0 <= k < |image| ensures Block(db, uuid, db.name, s.disk.main, k) == Some(image[k]) {}
    assert Plain(db, uuid, db.name, s.disk.main) == image;
    assert Load(db.dek, s.disk.anchor).entries == [];
  }

  // --------------------------------------------------------------------------- every step keeps it

  lemma AnchorOkLater(db: Db, disk: Disk, uuid: Uuid, gen: nat)
    requires AnchorOk(db, disk, uuid, gen)
    ensures AnchorOk(db, disk, uuid, gen + 1)
  {
  }

  lemma AnchorSaveKeeps(db: Db, disk: Disk, uuid: Uuid, gen: nat, b: Bump)
    requires AnchorOk(db, disk, uuid, gen)
    requires b.uuid == uuid && b.epochFloor.None? && (b.committed.Some? ==> b.committed.value <= gen)
    ensures Saves(Load(db.dek, disk.anchor), b).Some?
    ensures
      var op := SaveAnchor(Saves(Load(db.dek, disk.anchor), b).value[0]);
      && AnchorOk(db, Apply(db, disk, op), uuid, gen)
      && AnchorOk(db, Tear(db, disk, op), uuid, gen)
  {
    var t := Load(db.dek, disk.anchor);
    assert Upsert(t.entries, b).Some?;
    UpsertPlace(t.entries, b);
    var saved := Table(t.seqno + 1, Upsert(t.entries, b).value);
    Anchor.SaveIsAtomic(db.dek, disk.anchor, saved);
    hide Find, Upsert, Load, Save, TornSave, Anchor.Wf;
    assert Saves(t, b).value[0] == saved;
  }

  // --------------------------------------------------------------------------- what an open refuses

  /** An entry that a manifest of this generation is stale against. */
  predicate StaleAgainst(e: AnchorEntry, generation: nat) {
    generation + 1 < e.committed || generation < e.epochFloor
  }

  lemma FindOnly(es: seq<AnchorEntry>, e: AnchorEntry)
    requires DistinctUuids(es) && e in es
    ensures Find(es, e.uuid) < |es| && es[Find(es, e.uuid)] == e
  {
    var i := Find(es, e.uuid);
    var at :| 0 <= at < |es| && es[at] == e;
    hide Find;
    assert i <= at;
  }

  /** A manifest is refused, and the open makes nothing durable, when the anchor holds an entry for its
      database that committed more than one generation past it, or a floor above it; and when the anchor has
      no entry for it and no room for one. Every other manifest is recorded, and only the checks on the files
      decide. */
  lemma OpenedIff(db: Db, disk: Disk, p: Payload, newUuid: Uuid)
    requires Current(db, disk) == Some(p) && DistinctUuids(Load(db.dek, disk.anchor).entries)
    ensures
      var es := Load(db.dek, disk.anchor).entries;
      var stale := exists e <- es :: e.uuid == p.uuid && StaleAgainst(e, p.generation);
      var full := |es| >= 101 && forall e <- es :: e.uuid != p.uuid;
      && (stale || full ==> Examine(db, disk) == Refuse && OpenOps(db, disk, newUuid) == [])
      && (!stale && !full ==>
           && Examine(db, disk) == Check(db, disk, p)
           && |OpenOps(db, disk, newUuid)| == 1 && OpenOps(db, disk, newUuid)[0].SaveAnchor?)
  {
    var es := Load(db.dek, disk.anchor).entries;
    var i := Find(es, p.uuid);
    if i < |es| {
      assert es[i] in es && es[i].uuid == p.uuid;
      forall e | e in es && e.uuid == p.uuid ensures e == es[i] { FindOnly(es, e); }
    } else {
      forall e | e in es ensures e.uuid != p.uuid {
        if e.uuid == p.uuid { FindOnly(es, e); }
      }
    }
    hide Check, ReadManifest, Find, DistinctUuids, Load;
  }

  /** Without a readable manifest, main file blocks refuse the database and nothing is made durable; without
      blocks it is created, if the anchor has room: every operation of an open that lands leaves a manifest
      of generation 1 under the new uuid and no root. */
  lemma WithoutManifest(db: Db, disk: Disk, newUuid: Uuid)
    requires Current(db, disk).None?
    ensures disk.main != [] ==>
      Examine(db, disk) == Refuse && OpenOps(db, disk, newUuid) == [] && OpenVerdict(db, disk, newUuid) == Refuse
    ensures disk.main == [] ==>
      var es := Load(db.dek, disk.anchor).entries;
      && Examine(db, disk) == Create
      && OpenVerdict(db, disk, newUuid)
         == (if |es| < 101 || exists e <- es :: e.uuid == newUuid then Admit(DbState(newUuid, 1, ZeroRoot), None) else Refuse)
      && Current(db, ApplyAll(db, disk, OpenOps(db, disk, newUuid))) == Some(Payload(1, newUuid, ZeroRoot, ZeroRoot, [(db.name, 0)]))
  {
    if disk.main == [] {
      var es := Load(db.dek, disk.anchor).entries;
      var i := Find(es, newUuid);
      assert i < |es| ==> es[i] in es;
      assert (exists e <- es :: e.uuid == newUuid) ==> i < |es|;
      CreatedManifest(db, disk, newUuid);
      hide Load, ReadManifest, Find, ApplyAll, OpenOps;
    }
  }

  lemma CreatedManifest(db: Db, disk: Disk, uuid: Uuid)
    requires Current(db, disk).None? && disk.main == []
    ensures Current(db, ApplyAll(db, disk, OpenOps(db, disk, uuid))) == Some(Payload(1, uuid, ZeroRoot, ZeroRoot, [(db.name, 0)]))
  {
    var drop := if disk.manifest.Some? then [DropManifest] else [];
    var save := SaveOps(Load(db.dek, disk.anchor), BumpGen(uuid, Some(1), 1));
    var (made, seal) := (NewManifest(uuid), SealManifest(NewPayload(db, uuid)));
    assert OpenOps(db, disk, uuid) == drop + [made, seal] + save;
    SaveIsOneOrNone(Load(db.dek, disk.anchor), BumpGen(uuid, Some(1), 1));
    hide SaveOps, Load, Saves, ReadManifest, BumpGen;
    var d := if disk.manifest.Some? then Apply(db, disk, DropManifest) else disk;
    var d2 := Apply(db, Apply(db, d, made), seal);
    ApplyConcat(db, disk, drop, [made, seal] + save);
    ApplyConcat(db, d, [made, seal], save);
    assert drop + [made, seal] + save == drop + ([made, seal] + save);
    assert [made, seal][1..] == [seal] && [seal][1..] == [] && (drop != [] ==> drop[1..] == []);
    assert ApplyAll(db, d, [made, seal]) == ApplyAll(db, Apply(db, d, made), [seal]) == d2;
    NewManifestReads(db, d2, uuid);
    if save != [] { assert save[1..] == [] && ApplyAll(db, d2, save) == Apply(db, d2, save[0]); }
  }

  lemma SaveIsOneOrNone(t: Table, b: Bump)
    requires b.epochFloor.None?
    ensures SaveOps(t, b) == [] || (|SaveOps(t, b)| == 1 && SaveOps(t, b)[0].SaveAnchor?)
  {
  }

  lemma NewManifestReads(db: Db, disk: Disk, uuid: Uuid)
    requires disk.manifest == Some(WriteSlot(db.dek, db.name, ManifestFile(Some(uuid), Slots(Torn, Torn)), NewPayload(db, uuid)))
    ensures Current(db, disk) == Some(Payload(1, uuid, ZeroRoot, ZeroRoot, [(db.name, 0)]))
  {
    var m := disk.manifest.value;
    assert ReadSlot(db.dek, db.name, uuid, m.slots, 1) == Some(NewPayload(db, uuid));
    assert ReadSlot(db.dek, db.name, uuid, m.slots, 0) == None;
  }

  lemma {:induction false} ApplyConcat(db: Db, disk: Disk, a: seq<Op>, b: seq<Op>)
    ensures ApplyAll(db, disk, a + b) == ApplyAll(db, ApplyAll(db, disk, a), b)
    decreases |a|
  {
    if a == [] {
      assert a + b == b;
    } else {
      hide Apply;
      assert (a + b)[1..] == a[1..] + b;
      ApplyConcat(db, Apply(db, disk, a[0]), a[1..], b);
    }
  }

  /** The checks on the files of a database that has no page yet, or never sealed: the one is admitted; the
      other with a hot journal, or with a listed length and a header that fit. Nothing is certified. */
  lemma UnsealedVerdict(db: Db, disk: Disk, p: Payload)
    requires disk.main == [] || p.root == ZeroRoot
    ensures Check(db, disk, p) in {Admit(DbState(p.uuid, p.generation, p.root), None), Refuse}
    ensures Check(db, disk, p).Admit? <==>
      || disk.main == []
      || Hot(db, p.uuid, disk.journal)
      || (Listed(p.files, db.name) in {None, Some(|disk.main| * 4096)} && Block(db, p.uuid, db.name, disk.main, 0).Some?
          && var page := Block(db, p.uuid, db.name, disk.main, 0).value;
             BD.StartsSqlite(page) && page[16] == 0x10 && page[17] == 0x00)
  {
    if disk.main != [] && Block(db, p.uuid, db.name, disk.main, 0).Some? { GoodHeaderBytes(Block(db, p.uuid, db.name, disk.main, 0).value); }
    hide Served, Hot, Listed, GoodHeader, BD.StartsSqlite;
  }

  /** A sealed manifest lists the main file with its length and the journal with its, if it exists. */
  lemma SealedLengths(db: Db, st: DbState, image: seq<Page>, journalLen: Option<nat>)
    ensures
      var files := SealedPayload(db, st, image, journalLen).files;
      Listed(files, db.name) == Some(|image| * 4096) && Listed(files, db.name + "-journal") == journalLen
  {
    var files := SealedPayload(db, st, image, journalLen).files;
    assert |db.name + "-journal"| > |db.name|;
    var rest := files[1..];
    assert rest == if journalLen.Some? then [(db.name + "-journal", journalLen.value)] else [];
    if rest != [] { assert rest[1..] == []; }
  }

  // --------------------------------------------------------------------------- what the anchor records

  /** The entry of a database, as the anchor would be loaded. */
  function EntryOf(db: Db, disk: Disk, uuid: Uuid): (e: Option<AnchorEntry>)
    ensures e.Some? ==> e.value in Load(db.dek, disk.anchor).entries && e.value.uuid == uuid
    ensures e.None? ==> forall x <- Load(db.dek, disk.anchor).entries :: x.uuid != uuid
  {
    var es := Load(db.dek, disk.anchor).entries;
    var i := Find(es, uuid);
    if i < |es| then Some(es[i]) else None
  }

  /** A record that lands raises the entry to the values it offers; a torn one changes nothing. */
  lemma SaveRecords(db: Db, disk: Disk, b: Bump)
    requires Anchor.Wf(db.dek, disk.anchor) && b.epochFloor.None? && Saves(Load(db.dek, disk.anchor), b).Some?
    ensures
      var op := SaveAnchor(Saves(Load(db.dek, disk.anchor), b).value[0]);
      var (was, now) := (EntryOf(db, disk, b.uuid), EntryOf(db, Apply(db, disk, op), b.uuid));
      && Anchor.Wf(db.dek, Apply(db, disk, op).anchor) && Anchor.Wf(db.dek, Tear(db, disk, op).anchor)
      && EntryOf(db, Tear(db, disk, op), b.uuid) == was
      && now == Some(AnchorEntry(b.uuid,
           Max(if was.Some? then was.value.committed else 0, if b.committed.Some? then b.committed.value else 0),
           Max(if was.Some? then was.value.inFlight else 0, if b.inFlight.Some? then b.inFlight.value else 0),
           if was.Some? then was.value.epochFloor else 0))
  {
    var t := Load(db.dek, disk.anchor);
    UpsertPlace(t.entries, b);
    var saved := Table(t.seqno + 1, Upsert(t.entries, b).value);
    Anchor.SaveIsAtomic(db.dek, disk.anchor, saved);
    hide Find, Upsert, Load, Save, TornSave, Anchor.Wf;
    assert Saves(t, b).value[0] == saved;
  }

  /** A whole barrier leaves an entry that says its generation is committed, and in flight before that. */
  lemma BarrierRecords(db: Db, disk: Disk, st: DbState, len: Option<nat>)
    requires Anchor.Wf(db.dek, disk.anchor) && BarrierOps(db, disk, st, len).Some?
    ensures
      var (was, now) := (EntryOf(db, disk, st.uuid), EntryOf(db, ApplyAll(db, disk, BarrierOps(db, disk, st, len).value), st.uuid));
      && now.Some? && now.value.committed >= st.generation + 1 && now.value.inFlight >= st.generation + 1
      && ((was.Some? ==> was.value.committed <= st.generation + 1) ==> now.value.committed == st.generation + 1)
      && now.value.epochFloor == if was.Some? then was.value.epochFloor else 0
  {
    hide *;
    BarrierSaves(db, disk, st, len);
    var ops := BarrierOps(db, disk, st, len).value;
    BumpIs(st.uuid, None, st.generation + 1);
    BumpIs(st.uuid, Some(st.generation + 1), st.generation + 1);
    SaveRecords(db, disk, BumpGen(st.uuid, None, st.generation + 1));
    var d1 := Apply(db, disk, ops[0]);
    SaveRecords(db, d1, BumpGen(st.uuid, Some(st.generation + 1), st.generation + 1));
    ApplyThree(db, disk, ops[0], ops[1], ops[2]);
    assert ops == [ops[0], ops[1], ops[2]];
    SealBetween(db, d1, ops[1], ops[2]);
    SameEntry(db, Apply(db, d1, ops[2]), Apply(db, Apply(db, d1, ops[1]), ops[2]), st.uuid);
    MaxIs();
  }

  lemma BumpIs(uuid: Uuid, committed: Option<nat>, inFlight: nat)
    ensures BumpGen(uuid, committed, inFlight) == Bump(uuid, committed, Some(inFlight), None)
  {
  }

  lemma MaxIs()
    ensures forall a, b :: Max(a, b) == if a <= b then b else a
  {
  }

  lemma BarrierSaves(db: Db, disk: Disk, st: DbState, len: Option<nat>)
    requires BarrierOps(db, disk, st, len).Some?
    ensures
      var ops := BarrierOps(db, disk, st, len).value;
      var first := Saves(Load(db.dek, disk.anchor), BumpGen(st.uuid, None, st.generation + 1));
      && |ops| == 3 && ops[1].SealManifest?
      && first.Some? && first.value != [] && ops[0] == SaveAnchor(first.value[0])
      && var last := Saves(Load(db.dek, Apply(db, disk, ops[0]).anchor), BumpGen(st.uuid, Some(st.generation + 1), st.generation + 1));
         last.Some? && last.value != [] && ops[2] == SaveAnchor(last.value[0])
  {
    hide Load, Decrypt, SealedPayload, Upsert, Apply;
  }

  lemma SealBetween(db: Db, disk: Disk, seal: Op, save: Op)
    requires seal.SealManifest? && save.SaveAnchor?
    ensures Apply(db, Apply(db, disk, seal), save).anchor == Apply(db, disk, save).anchor
  {
  }

  lemma ApplyThree(db: Db, disk: Disk, a: Op, b: Op, c: Op)
    ensures ApplyAll(db, disk, [a, b, c]) == Apply(db, Apply(db, Apply(db, disk, a), b), c)
  {
    hide Apply;
    assert [a, b, c][1..] == [b, c] && [b, c][1..] == [c] && [c][1..] == [];
    var d := Apply(db, disk, a);
    assert ApplyAll(db, disk, [a, b, c]) == ApplyAll(db, d, [b, c]) == ApplyAll(db, Apply(db, d, b), [c]);
  }

  lemma SameEntry(db: Db, a: Disk, b: Disk, uuid: Uuid)
    requires a.anchor == b.anchor
    ensures EntryOf(db, a, uuid) == EntryOf(db, b, uuid)
  {
  }

  /** An open that passes the freshness check and whose record lands leaves an entry that has caught up with
      the manifest. */
  lemma OpenRecords(db: Db, disk: Disk, p: Payload, newUuid: Uuid)
    requires Anchor.Wf(db.dek, disk.anchor) && Current(db, disk) == Some(p) && OpenOps(db, disk, newUuid) != []
    ensures
      var now := EntryOf(db, ApplyAll(db, disk, OpenOps(db, disk, newUuid)), p.uuid);
      now.Some? && now.value.committed >= p.generation && now.value.inFlight >= p.generation
  {
    var b := BumpGen(p.uuid, Some(p.generation), p.generation);
    SaveRecords(db, disk, b);
    var ops := OpenOps(db, disk, newUuid);
    hide Saves, Load, ReadManifest, Fresh, EntryOf, Anchor.Wf;
    assert ops[1..] == [] && ApplyAll(db, disk, ops) == Apply(db, disk, ops[0]);
  }

  lemma HoldsIgnoresAnchor(db: Db, disk: Disk, anchor: Slots<Table>, base: seq<Page>, segs: seq<Segment>)
    requires Holds(db, disk, base, segs)
    requires AnchorOk(db, disk.(anchor := anchor), Current(db, disk).value.uuid, Current(db, disk).value.generation)
    ensures Holds(db, disk.(anchor := anchor), base, segs)
    ensures Current(db, disk.(anchor := anchor)) == Current(db, disk)
  {
  }

  lemma OpenKeeps(db: Db, s: State, landed: bool, torn: bool)
    requires Inv(db, s) && s.session.None? && s.pending == []
    ensures Inv(db, Step(db, s, Open(landed, torn))) && Step(db, s, Open(landed, torn)).base == s.base
  {
    hide Covers, WellJournaled, Hot, Listed, GoodHeader, Accepted, ImageRoot, Authentic, Plain, Check, AnchorOk, Find;
    var m := Current(db, s.disk).value;
    OpenCertifies(db, s.disk, s.base, s.segs);
    AnchorSaveKeeps(db, s.disk, m.uuid, m.generation, BumpGen(m.uuid, Some(m.generation), m.generation));
    var op := OpenOps(db, s.disk, 0)[0];
    HoldsIgnoresAnchor(db, s.disk, Apply(db, s.disk, op).anchor, s.base, s.segs);
    HoldsIgnoresAnchor(db, s.disk, Tear(db, s.disk, op).anchor, s.base, s.segs);
  }

  lemma JournalWriteKeeps(db: Db, s: State, j: Option<seq<Cell<Page>>>, segs: seq<Segment>)
    requires Inv(db, s) && Allowed(db, s, JournalWrite(j, segs))
    ensures Inv(db, Step(db, s, JournalWrite(j, segs)))
  {
    var m := Current(db, s.disk).value;
    var main := Plain(db, m.uuid, db.name, s.disk.main);
    if Hot(db, m.uuid, j) {
      forall k | 0 <= k < |s.base| ensures Kept(s.base, main, k) || Saved(k, AllRecords(segs)) {
        if Hot(db, m.uuid, s.disk.journal) {
          assert Kept(s.base, main, k) || Saved(k, AllRecords(s.segs));
        }
      }
    }
  }

  lemma MainWriteKeeps(db: Db, s: State, k: nat, page: Page)
    requires Inv(db, s) && Allowed(db, s, MainWrite(k, page))
    ensures Inv(db, Step(db, s, MainWrite(k, page)))
  {
    var m := Current(db, s.disk).value;
    var before := Plain(db, m.uuid, db.name, s.disk.main);
    var disk := Apply(db, s.disk, WriteMain(k, page));
    forall i | 0 <= i < |disk.main| ensures Block(db, m.uuid, db.name, disk.main, i) == Some(if i == k then page else before[i]) {
      if i != k { assert Block(db, m.uuid, db.name, s.disk.main, i).Some?; }
    }
    var main := Plain(db, m.uuid, db.name, disk.main);
    forall i | 0 <= i < |s.base| ensures Kept(s.base, main, i) || Saved(i, AllRecords(s.segs)) {
      assert Kept(s.base, before, i) || Saved(i, AllRecords(s.segs));
    }
  }

  lemma MainTruncateKeeps(db: Db, s: State, n: nat)
    requires Inv(db, s) && Allowed(db, s, MainTruncate(n))
    ensures Inv(db, Step(db, s, MainTruncate(n)))
  {
    var m := Current(db, s.disk).value;
    var before := Plain(db, m.uuid, db.name, s.disk.main);
    var disk := Apply(db, s.disk, TruncateMain(n));
    forall i | 0 <= i < |disk.main| ensures Block(db, m.uuid, db.name, disk.main, i) == Some(before[i]) {
      assert Block(db, m.uuid, db.name, s.disk.main, i).Some?;
    }
    var main := Plain(db, m.uuid, db.name, disk.main);
    forall i | 0 <= i < |s.base| ensures Kept(s.base, main, i) || Saved(i, AllRecords(s.segs)) {
      assert Kept(s.base, before, i) || Saved(i, AllRecords(s.segs));
    }
  }

  lemma FinalizeKeeps(db: Db, s: State, kill: Option<seq<Cell<Page>>>, len: Option<nat>)
    requires Inv(db, s) && Allowed(db, s, Finalize(kill, len))
    ensures Inv(db, Step(db, s, Finalize(kill, len)))
    ensures Step(db, s, Finalize(kill, len)).pending != []
  {
    hide Covers, WellJournaled, Listed, Accepted, AnchorOk, Saves, Load, ReadManifest;
    var s' := Step(db, s, Finalize(kill, len));
    BarrierReady(db, s, len);
    assert Phase4(db, s', kill, len);
    assert InFlight(db, s', kill, len);
  }

  /** With room in the anchor, an authentic main file and a manifest, the barrier runs to its end. */
  lemma BarrierReady(db: Db, s: State, len: Option<nat>)
    requires Holds(db, s.disk, s.base, s.segs) && s.session.Some?
    requires s.session.value.uuid == Current(db, s.disk).value.uuid
    ensures BarrierOps(db, s.disk, s.session.value, len).Some?
    ensures
      var ops := BarrierOps(db, s.disk, s.session.value, len).value;
      var t := Saves(Load(db.dek, s.disk.anchor), BumpGen(s.session.value.uuid, None, s.session.value.generation + 1));
      && t.Some?
      && ops == [SaveAnchor(t.value[0]), SealManifest(Next(db, s, len)), ops[2]]
      && RecordsCommitted(db, Apply(db, s.disk, ops[0]), s.session.value, ops[2])
  {
    hide Covers, WellJournaled, Hot, Listed, GoodHeader, Accepted, ImageRoot, Saves, Load, Find, Authentic, Plain, ReadManifest;
    var st, m := s.session.value, Current(db, s.disk).value;
    AnchorSaveKeeps(db, s.disk, m.uuid, m.generation, BumpGen(st.uuid, None, st.generation + 1));
    RoomAfterSave(db, s.disk, m.uuid, BumpGen(st.uuid, None, st.generation + 1));
    assert BarrierHead(db, s.disk, st, len).Some?;
  }

  /** A record call that succeeds leaves room for the same database. */
  lemma RoomAfterSave(db: Db, disk: Disk, uuid: Uuid, b: Bump)
    requires Anchor.Wf(db.dek, disk.anchor) && b.uuid == uuid && b.epochFloor.None?
    requires Saves(Load(db.dek, disk.anchor), b).Some?
    ensures
      var disk' := Apply(db, disk, SaveAnchor(Saves(Load(db.dek, disk.anchor), b).value[0]));
      forall c: Bump :: c.uuid == uuid ==> Saves(Load(db.dek, disk'.anchor), c).Some?
  {
    var t := Load(db.dek, disk.anchor);
    var es := Upsert(t.entries, b).value;
    Anchor.SaveIsAtomic(db.dek, disk.anchor, Table(t.seqno + 1, es));
    assert es[Find(t.entries, uuid)].uuid == uuid;
  }

  /** A torn save or a torn seal leaves a disk that still holds the committed image. */
  lemma TornSaveHolds(db: Db, s: State, b: Bump)
    requires Holds(db, s.disk, s.base, s.segs) && b.uuid == Current(db, s.disk).value.uuid && b.epochFloor.None?
    requires b.committed.Some? ==> b.committed.value <= Current(db, s.disk).value.generation
    requires Saves(Load(db.dek, s.disk.anchor), b).Some? && s.pending != []
    requires s.pending[0] == SaveAnchor(Saves(Load(db.dek, s.disk.anchor), b).value[0])
    ensures Inv(db, Step(db, s, CutTearing))
  {
    var m := Current(db, s.disk).value;
    AnchorSaveKeeps(db, s.disk, m.uuid, m.generation, b);
    HoldsIgnoresAnchor(db, s.disk, Tear(db, s.disk, s.pending[0]).anchor, s.base, s.segs);
  }

  lemma TornSealHolds(db: Db, s: State, p: Payload)
    requires Holds(db, s.disk, s.base, s.segs) && s.pending != [] && s.pending[0] == SealManifest(p)
    requires Manifest.Follows(db.dek, db.name, s.disk.manifest.value, p)
    ensures Inv(db, Step(db, s, CutTearing))
  {
    Manifest.SealIsAtomic(db.dek, db.name, s.disk.manifest.value, p);
  }

  lemma SaveHolds(db: Db, s: State, b: Bump, kill: Option<seq<Cell<Page>>>)
    requires Holds(db, s.disk, s.base, s.segs) && Sealing(db, s, kill)
    requires b.uuid == Current(db, s.disk).value.uuid && b.epochFloor.None?
    requires b.committed.Some? ==> b.committed.value <= Current(db, s.disk).value.generation
    requires Saves(Load(db.dek, s.disk.anchor), b).Some? && s.pending != []
    requires s.pending[0] == SaveAnchor(Saves(Load(db.dek, s.disk.anchor), b).value[0])
    ensures
      var s' := Step(db, s, Land);
      && |s.pending| > 1 ==>
         && Holds(db, s'.disk, s.base, s.segs) && s'.base == s.base && Sealing(db, s', kill)
         && Current(db, s'.disk) == Current(db, s.disk)
         && s'.session == s.session && s'.disk.main == s.disk.main
         && s'.disk == Apply(db, s.disk, s.pending[0]) && s'.pending == s.pending[1..]
  {
    if |s.pending| > 1 {
      hide Covers, WellJournaled, Hot, Listed, GoodHeader, Accepted, ImageRoot, Authentic, Plain, AnchorOk, Saves, Load, ReadManifest;
      var m := Current(db, s.disk).value;
      AnchorSaveKeeps(db, s.disk, m.uuid, m.generation, b);
      HoldsIgnoresAnchor(db, s.disk, Step(db, s, Land).disk.anchor, s.base, s.segs);
    }
  }

  /** The generation in flight lands, or is torn. */
  lemma Land4(db: Db, s: State, kill: Option<seq<Cell<Page>>>, len: Option<nat>)
    requires Holds(db, s.disk, s.base, s.segs) && Phase4(db, s, kill, len)
    ensures MainImage(db, Step(db, s, Land).disk) == MainImage(db, s.disk)
    ensures Inv(db, Step(db, s, Land)) && Inv(db, Step(db, s, CutTearing))
  {
    hide Holds, Hot, GoodHeader, Saves, Load, Authentic, Plain, SealedPayload, ImageRoot;
    var st := s.session.value;
    var s' := Step(db, s, Land);
    BarrierReady(db, s, len);
    var b := BumpGen(st.uuid, None, st.generation + 1);
    TornSaveHolds(db, s, b);
    SaveHolds(db, s, b, kill);
    assert RollbackTargetKept(db, s');
    assert s'.pending == [SealManifest(Next(db, s', len)), s'.pending[1], SetJournal(kill)];
    assert Phase3(db, s', kill, len);
    assert InFlight(db, s', kill, len);
  }

  /** Once sealed, the manifest accepts the new image and still accepts the one the journal rolls back to. */
  lemma SealHolds(db: Db, s: State, kill: Option<seq<Cell<Page>>>, len: Option<nat>)
    requires Holds(db, s.disk, s.base, s.segs) && Unsealed(db, s, kill)
    ensures
      var disk := Apply(db, s.disk, SealManifest(Next(db, s, len)));
      Holds(db, disk, s.base, s.segs) && Current(db, disk) == Some(Next(db, s, len))
  {
    var m := Current(db, s.disk).value;
    var next := Next(db, s, len);
    var image := Plain(db, m.uuid, db.name, s.disk.main);
    Manifest.SealIsAtomic(db.dek, db.name, s.disk.manifest.value, next);
    var disk := Apply(db, s.disk, SealManifest(next));
    RootsAreInjective(s.base, image);
    assert Accepted(next, ImageRoot(s.base));
    assert ManifestOk(db, disk);
    assert AnchorOk(db, disk, m.uuid, m.generation + 1);
  }

  /** The manifest is sealed. */
  lemma Land3(db: Db, s: State, kill: Option<seq<Cell<Page>>>, len: Option<nat>)
    requires Holds(db, s.disk, s.base, s.segs) && Phase3(db, s, kill, len)
    ensures MainImage(db, Step(db, s, Land).disk) == MainImage(db, s.disk)
    ensures Inv(db, Step(db, s, Land))
  {
    hide Covers, WellJournaled, Hot, Listed, GoodHeader, Accepted, ImageRoot, Authentic, Plain, AnchorOk, Saves, Load, ReadManifest;
    var s' := Step(db, s, Land);
    var next := Next(db, s, len);
    SealHolds(db, s, kill, len);
    assert s'.disk == Apply(db, s.disk, SealManifest(next)) && s'.session == s.session;
    assert s'.disk.main == s.disk.main && s'.disk.anchor == s.disk.anchor && s'.disk.journal == s.disk.journal;
    assert Sealing(db, s', kill) && Next(db, s', len) == next;
    assert s'.pending == [s.pending[1], SetJournal(kill)];
    assert RecordsCommitted(db, s'.disk, s'.session.value, s'.pending[0]);
    assert Phase2(db, s', kill, len);
    assert InFlight(db, s', kill, len);
  }

  /** The generation is recorded as committed, or that save is torn. */
  lemma Land2(db: Db, s: State, kill: Option<seq<Cell<Page>>>, len: Option<nat>)
    requires Holds(db, s.disk, s.base, s.segs) && Phase2(db, s, kill, len)
    ensures MainImage(db, Step(db, s, Land).disk) == MainImage(db, s.disk)
    ensures Inv(db, Step(db, s, Land)) && Inv(db, Step(db, s, CutTearing))
  {
    hide Holds, Hot, GoodHeader, Saves, Load, Authentic, Plain, ImageRoot;
    var st := s.session.value;
    var s' := Step(db, s, Land);
    var b := BumpGen(st.uuid, Some(st.generation + 1), st.generation + 1);
    TornSaveHolds(db, s, b);
    SaveHolds(db, s, b, kill);
    assert s'.pending == [SetJournal(kill)];
    assert Phase1(db, s', kill, len);
    assert InFlight(db, s', kill, len);
  }

  /** The journal dies, whole or torn, and the sealed image becomes the committed one. */
  lemma Land1(db: Db, s: State, kill: Option<seq<Cell<Page>>>, len: Option<nat>)
    requires Holds(db, s.disk, s.base, s.segs) && Phase1(db, s, kill, len)
    ensures Inv(db, Step(db, s, Land)) && Inv(db, Step(db, s, CutTearing))
  {
    hide Covers, WellJournaled, GoodHeader, AnchorOk, Saves, Load, ReadManifest, Check;
    var image := Plain(db, Current(db, s.disk).value.uuid, db.name, s.disk.main);
    RootsAreInjective(image, image);
    assert MainImage(db, s.disk) == image;
    JournalDies(db, s.disk, s.pending[0], s.base, s.segs, image);
    assert Step(db, s, Land).base == image;
  }

  /** With the journal dead, whole or torn, the disk holds the image it has just sealed. */
  lemma JournalDies(db: Db, disk: Disk, op: Op, base: seq<Page>, segs: seq<Segment>, image: seq<Page>)
    requires Holds(db, disk, base, segs) && op.SetJournal? && !Hot(db, Current(db, disk).value.uuid, op.cells)
    requires image == Plain(db, Current(db, disk).value.uuid, db.name, disk.main) && image != [] && GoodHeader(image[0])
    requires Current(db, disk).value.root == ImageRoot(image)
    requires Listed(Current(db, disk).value.files, db.name) == Some(|image| * BLOCK_SIZE)
    ensures Holds(db, Apply(db, disk, op), image, segs)
    ensures op.cells.Some? && op.cells.value != [] ==> Holds(db, Tear(db, disk, op), image, segs)
    ensures !(op.cells.Some? && op.cells.value != []) ==> Tear(db, disk, op) == disk
  {
    hide Covers, WellJournaled, GoodHeader, Saves, Load, ReadManifest, Plain, ImageRoot, Listed;
  }

  lemma LandKeeps(db: Db, s: State)
    requires Inv(db, s) && s.pending != []
    ensures |s.pending| > 1 ==> MainImage(db, Step(db, s, Land).disk) == MainImage(db, s.disk)
    ensures Inv(db, Step(db, s, Land)) && Inv(db, Step(db, s, CutTearing))
  {
    var kill, len :| InFlight(db, s, kill, len);
    if Phase4(db, s, kill, len) { Land4(db, s, kill, len); }
    else if Phase3(db, s, kill, len) { Land3(db, s, kill, len); TornSealHolds(db, s, Next(db, s, len)); }
    else if Phase2(db, s, kill, len) { Land2(db, s, kill, len); }
    else { Land1(db, s, kill, len); }
  }

  lemma StepKeeps(db: Db, s: State, e: Event)
    requires Inv(db, s) && Allowed(db, s, e)
    ensures Inv(db, Step(db, s, e))
  {
    match e
    case JournalWrite(j, segs) => JournalWriteKeeps(db, s, j, segs);
    case MainWrite(k, page) => MainWriteKeeps(db, s, k, page);
    case MainTruncate(n) => MainTruncateKeeps(db, s, n);
    case Finalize(kill, len) => FinalizeKeeps(db, s, kill, len);
    case Land => LandKeeps(db, s);
    case Cut =>
    case CutTearing => LandKeeps(db, s);
    case Open(landed, torn) => OpenKeeps(db, s, landed, torn);
  }

  // --------------------------------------------------------------------------- the theorems

  function Run(db: Db, s: State, events: seq<Event>): State
    decreases |events|
  {
    if events == [] then s else Run(db, Step(db, s, events[0]), events[1..])
  }

  ghost predicate AllAllowed(db: Db, s: State, events: seq<Event>)
    decreases |events|
  {
    events == []
    || (Current(db, s.disk).Some? && Allowed(db, s, events[0]) && AllAllowed(db, Step(db, s, events[0]), events[1..]))
  }

  /** Cut anywhere, torn or not, any number of times, in transactions and in recoveries: the next open
      accepts, and it certifies exactly the image of the last finalization that landed. */
  lemma {:induction false} EveryOpenCertifies(db: Db, s: State, events: seq<Event>)
    requires Inv(db, s) && AllAllowed(db, s, events)
    ensures Inv(db, Run(db, s, events))
    ensures
      var end := Run(db, s, events);
      Examine(db, end.disk).Admit? && Examine(db, end.disk).image == Some(end.base)
    decreases |events|
  {
    if events == [] {
      OpenCertifies(db, s.disk, s.base, s.segs);
    } else {
      StepKeeps(db, s, events[0]);
      EveryOpenCertifies(db, Step(db, s, events[0]), events[1..]);
    }
  }

  function Finalizations(events: seq<Event>): nat {
    if events == [] then 0 else (if events[0].Finalize? then 1 else 0) + Finalizations(events[1..])
  }

  /** The image the first finalization of a run seals. */
  function FirstSealed(db: Db, s: State, events: seq<Event>): seq<Page>
    decreases |events|
  {
    if events == [] then s.base
    else if events[0].Finalize? then MainImage(db, s.disk)
    else FirstSealed(db, Step(db, s, events[0]), events[1..])
  }

  /** Only the last operation of a finalization changes the committed image, to the one it sealed. */
  lemma StepBase(db: Db, s: State, e: Event)
    requires Inv(db, s) && Allowed(db, s, e) && !e.Finalize?
    ensures
      var s' := Step(db, s, e);
      if s'.pending == [] then s'.base == s.base || (s.pending != [] && s'.base == MainImage(db, s.disk))
      else s'.base == s.base && s.pending != [] && MainImage(db, s'.disk) == MainImage(db, s.disk)
  {
    hide Holds, Covers, WellJournaled, Hot, GoodHeader, AnchorOk, Saves, Load, Authentic, Examine, MainImage;
    match e
    case Land => LandKeeps(db, s);
    case Open(landed, torn) => OpenKeeps(db, s, landed, torn);
    case _ =>
  }

  /** After a finalization began, the committed image is the old one or the sealed one. */
  lemma {:induction false} OnlyTheSealedImage(db: Db, s: State, events: seq<Event>, image: seq<Page>)
    requires Inv(db, s) && AllAllowed(db, s, events) && Finalizations(events) == 0
    requires s.pending != [] ==> MainImage(db, s.disk) == image
    ensures Run(db, s, events).base in {s.base, image}
    ensures s.pending == [] ==> Run(db, s, events).base == s.base
    decreases |events|
  {
    hide Inv, Allowed, Step, MainImage;
    if events != [] {
      var s' := Step(db, s, events[0]);
      StepKeeps(db, s, events[0]);
      StepBase(db, s, events[0]);
      OnlyTheSealedImage(db, s', events[1..], image);
    }
  }

  lemma FinalizeOnlyPlans(db: Db, s: State, kill: Option<seq<Cell<Page>>>, len: Option<nat>)
    ensures
      var s' := Step(db, s, Finalize(kill, len));
      s'.disk == s.disk && s'.base == s.base && MainImage(db, s'.disk) == MainImage(db, s.disk)
  {
  }

  /** One transaction, cut anywhere, with any number of cut recoveries after it: the next open certifies
      the image before it or the image it sealed. */
  lemma {:induction false} TransactionIsAtomic(db: Db, s: State, events: seq<Event>)
    requires Inv(db, s) && s.pending == [] && AllAllowed(db, s, events) && Finalizations(events) <= 1
    ensures
      var verdict := Examine(db, Run(db, s, events).disk);
      verdict.Admit? && verdict.image in {Some(s.base), Some(FirstSealed(db, s, events))}
    decreases |events|
  {
    hide Inv, Allowed, Step, MainImage, Examine;
    EveryOpenCertifies(db, s, events);
    if events != [] {
      var s' := Step(db, s, events[0]);
      StepKeeps(db, s, events[0]);
      if events[0].Finalize? {
        FinalizeOnlyPlans(db, s, events[0].kill, events[0].journalLen);
        OnlyTheSealedImage(db, s', events[1..], MainImage(db, s.disk));
      } else {
        StepBase(db, s, events[0]);
        TransactionIsAtomic(db, s', events[1..]);
      }
    }
  }

  // --------------------------------------------------------------------------- where it fails

  /** A finalization cut between its seal and the death of the journal, before the last record, inside it or
      after it, is recovered exactly when the seal kept the root of the image the journal rolls back to. A
      session opened over a transaction that was already sealed carries the sealed root, so it must play
      the journal back before it finalizes. */
  lemma CutAfterSeal(db: Db, s: State, len: Option<nat>)
    requires Inv(db, s) && s.pending == [] && s.session.Some?
    requires Hot(db, s.session.value.uuid, s.disk.journal) && s.disk.main != []
    ensures BarrierOps(db, s.disk, s.session.value, len).Some? && |BarrierOps(db, s.disk, s.session.value, len).value| == 3
    ensures
      var ops := BarrierOps(db, s.disk, s.session.value, len).value;
      var sealed := ApplyAll(db, s.disk, ops[..2]);
      && (Examine(db, sealed).Admit? <==> RollbackTargetKept(db, s))
      && (Examine(db, Tear(db, sealed, ops[2])).Admit? <==> RollbackTargetKept(db, s))
      && (Examine(db, ApplyAll(db, s.disk, ops)).Admit? <==> RollbackTargetKept(db, s))
  {
    hide Examine, Served, Saves, Load, Save, Tear, AnchorOk;
    var st, m := s.session.value, Current(db, s.disk).value;
    BarrierReady(db, s, len);
    var ops := BarrierOps(db, s.disk, st, len).value;
    var next := Next(db, s, len);
    SealAfterSave(db, s, ops[0], next);
    var sealed := Apply(db, Apply(db, s.disk, ops[0]), ops[1]);
    AnchorOkLater(db, sealed, next.uuid, m.generation);
    LastRecord(db, s, sealed, next, ops[2], Apply(db, s.disk, ops[0]));
    SealedCutVerdict(db, s, sealed, next);
    SealedCutVerdict(db, s, Apply(db, sealed, ops[2]), next);
    SealedCutVerdict(db, s, Tear(db, sealed, ops[2]), next);
    ApplyAllSnoc(db, s.disk, [], ops[0]);
    ApplyAllSnoc(db, s.disk, [ops[0]], ops[1]);
    ApplyAllSnoc(db, s.disk, [ops[0], ops[1]], ops[2]);
    assert [] + [ops[0]] == [ops[0]] && [ops[0]] + [ops[1]] == [ops[0], ops[1]] == ops[..2] && [ops[0], ops[1]] + [ops[2]] == ops;
  }

  /** The record of the generation as committed, landed or torn, over a sealed manifest. */
  lemma LastRecord(db: Db, s: State, sealed: Disk, next: Payload, op: Op, saved: Disk)
    requires AnchorOk(db, sealed, next.uuid, next.generation) && Current(db, sealed) == Some(next) && sealed.anchor == saved.anchor
    requires s.session.Some? && s.session.value.uuid == next.uuid && s.session.value.generation + 1 == next.generation
    requires RecordsCommitted(db, saved, s.session.value, op)
    ensures
      forall d :: d == Apply(db, sealed, op) || d == Tear(db, sealed, op) ==>
        && d.main == sealed.main && d.journal == sealed.journal && Current(db, d) == Some(next)
        && AnchorOk(db, d, next.uuid, next.generation)
  {
    var b := BumpGen(next.uuid, Some(next.generation), next.generation);
    AnchorSaveKeeps(db, sealed, next.uuid, next.generation, b);
    hide AnchorOk, Saves, Load, Save, TornSave, ReadManifest;
  }

  lemma SealAfterSave(db: Db, s: State, save: Op, next: Payload)
    requires Holds(db, s.disk, s.base, s.segs) && Manifest.Follows(db.dek, db.name, s.disk.manifest.value, next)
    requires
      var b := BumpGen(next.uuid, None, next.generation);
      var t := Saves(Load(db.dek, s.disk.anchor), b);
      t.Some? && save == SaveAnchor(t.value[0])
    ensures
      var disk := Apply(db, Apply(db, s.disk, save), SealManifest(next));
      && disk.main == s.disk.main && disk.journal == s.disk.journal && Current(db, disk) == Some(next)
      && AnchorOk(db, disk, next.uuid, Current(db, s.disk).value.generation)
  {
    var m := Current(db, s.disk).value;
    AnchorSaveKeeps(db, s.disk, m.uuid, m.generation, BumpGen(next.uuid, None, next.generation));
    Manifest.SealIsAtomic(db.dek, db.name, s.disk.manifest.value, next);
  }

  lemma SealedCutVerdict(db: Db, s: State, disk: Disk, next: Payload)
    requires Holds(db, s.disk, s.base, s.segs) && s.session.Some?
    requires s.session.value == DbState(Current(db, s.disk).value.uuid, Current(db, s.disk).value.generation, Current(db, s.disk).value.root)
    requires Hot(db, s.session.value.uuid, s.disk.journal) && s.disk.main != []
    requires disk.main == s.disk.main && disk.journal == s.disk.journal && Current(db, disk) == Some(next)
    requires next.uuid == s.session.value.uuid && next.generation == s.session.value.generation + 1
    requires AnchorOk(db, disk, next.uuid, next.generation)
    requires next.root == ImageRoot(Plain(db, next.uuid, db.name, disk.main)) && next.prevRoot == s.session.value.committedRoot
    ensures Examine(db, disk).Admit? <==> RollbackTargetKept(db, s)
  {
    var m := Current(db, s.disk).value;
    var main := Plain(db, m.uuid, db.name, s.disk.main);
    var j := Stream(Plain(db, m.uuid, JournalName(db.name), s.disk.journal.value));
    ReplayRestores(j, s.segs, s.base, main);
    RootsAreInjective(s.base, main);
    assert Served(db, next.uuid, disk) == Some(s.base);
  }

  function TearBlocks(cells: seq<Cell<Page>>, torn: set<nat>): (t: seq<Cell<Page>>)
    ensures |t| == |cells|
  {
    seq(|cells|, k requires 0 <= k < |cells| => if k in torn then Torn else cells[k])
  }

  function TornDisk(disk: Disk, inMain: set<nat>, inJournal: set<nat>): Disk {
    disk.(main := TearBlocks(disk.main, inMain),
          journal := if disk.journal.None? then None else Some(TearBlocks(disk.journal.value, inJournal)))
  }

  /** None of these is a block of the file. */
  predicate Outside(torn: set<nat>, cells: seq<Cell<Page>>) {
    forall k <- torn :: k >= |cells|
  }

  /** The main file is one that an open without a journal accepts. */
  predicate StandsAlone(db: Db, disk: Disk, p: Payload)
    requires Authentic(db, p.uuid, db.name, disk.main)
  {
    var main := Plain(db, p.uuid, db.name, disk.main);
    && main != [] && Accepted(p, ImageRoot(main)) && GoodHeader(main[0])
    && Listed(p.files, db.name) in {None, Some(|main| * BLOCK_SIZE)}
  }

  /** The source's comment on the hot-journal path expects a torn main block to be replayed over. The
      replay decrypts the whole main file first, so one torn main block refuses the database instead. A
      torn first block of a hot journal makes it dead: the main file must then stand alone, and it is its
      image that is certified, not the one the journal would have restored. A later torn block of a hot
      journal refuses the database; torn blocks of a dead journal do not matter. */
  lemma TornBlocksVerdict(db: Db, disk: Disk, base: seq<Page>, segs: seq<Segment>, inMain: set<nat>, inJournal: set<nat>)
    requires Holds(db, disk, base, segs)
    ensures
      var m := Current(db, disk).value;
      var hot := Hot(db, m.uuid, disk.journal);
      var verdict := Examine(db, TornDisk(disk, inMain, inJournal));
      && (verdict.Admit? <==>
           && Outside(inMain, disk.main)
           && (hot ==> if 0 in inJournal then StandsAlone(db, disk, m) else Outside(inJournal, disk.journal.value)))
      && (verdict.Admit? ==>
           verdict.image == Some(if hot && 0 in inJournal then Plain(db, m.uuid, db.name, disk.main) else base))
  {
    var m := Current(db, disk).value;
    var torn := TornDisk(disk, inMain, inJournal);
    var hot := Hot(db, m.uuid, disk.journal);
    assert Current(db, torn) == Some(m);
    if !Outside(inMain, disk.main) {
      var k :| k in inMain && k < |disk.main|;
      assert Block(db, m.uuid, db.name, torn.main, k).None?;
      UnreadableRefuses(db, torn);
    } else {
      assert torn.main == disk.main;
      TornJournal(db, disk, base, segs, inJournal, torn);
    }
  }

  lemma TornJournal(db: Db, disk: Disk, base: seq<Page>, segs: seq<Segment>, inJournal: set<nat>, torn: Disk)
    requires Holds(db, disk, base, segs) && disk.manifest.Some? && Current(db, torn) == Current(db, disk)
    requires torn == disk.(journal := if disk.journal.None? then None else Some(TearBlocks(disk.journal.value, inJournal)))
    ensures
      var m := Current(db, disk).value;
      var hot := Hot(db, m.uuid, disk.journal);
      && (Examine(db, torn).Admit? <==>
           hot ==> if 0 in inJournal then StandsAlone(db, disk, m) else Outside(inJournal, disk.journal.value))
      && (Examine(db, torn).Admit? ==>
           Examine(db, torn).image == Some(if hot && 0 in inJournal then Plain(db, m.uuid, db.name, disk.main) else base))
  {
    var m := Current(db, disk).value;
    if !Hot(db, m.uuid, disk.journal) {
      assert !Hot(db, m.uuid, torn.journal);
      OpenCertifies(db, torn, base, segs);
    } else if 0 in inJournal {
      assert !Hot(db, m.uuid, torn.journal);
      ColdVerdict(db, torn, m);
    } else if Outside(inJournal, disk.journal.value) {
      assert torn.journal.value == disk.journal.value;
      assert torn == disk;
      OpenCertifies(db, torn, base, segs);
    } else {
      var k :| k in inJournal && k < |disk.journal.value|;
      assert Block(db, m.uuid, JournalName(db.name), torn.journal.value, k).None?;
      UnreadableRefuses(db, torn);
    }
  }

  /** The verdict on an authentic main file without a hot journal. */
  lemma ColdVerdict(db: Db, disk: Disk, p: Payload)
    requires disk.manifest.Some? && Current(db, disk) == Some(p) && p.root != ZeroRoot && disk.main != []
    requires AnchorOk(db, disk, p.uuid, p.generation) && Authentic(db, p.uuid, db.name, disk.main) && !Hot(db, p.uuid, disk.journal)
    ensures Examine(db, disk).Admit? <==> StandsAlone(db, disk, p)
    ensures Examine(db, disk).Admit? ==> Examine(db, disk).image == Some(Plain(db, p.uuid, db.name, disk.main))
  {
    AnchorSaveKeeps(db, disk, p.uuid, p.generation, BumpGen(p.uuid, Some(p.generation), p.generation));
    assert Block(db, p.uuid, db.name, disk.main, 0) == Some(Plain(db, p.uuid, db.name, disk.main)[0]);
    hide ReadManifest, Saves, GoodHeader, Accepted, ImageRoot, Listed, Hot;
  }

  lemma UnreadableRefuses(db: Db, disk: Disk)
    requires Current(db, disk).Some? && Current(db, disk).value.root != ZeroRoot && disk.main != []
    requires
      var uuid := Current(db, disk).value.uuid;
      !Authentic(db, uuid, db.name, disk.main)
      || (Hot(db, uuid, disk.journal) && !Authentic(db, uuid, JournalName(db.name), disk.journal.value))
    ensures Examine(db, disk) == Refuse
  {
  }
}
