/** Runs that really happen: a journal written byte by byte, sealed into its blocks, and a commit that is
    cut between its seal and the death of the journal. */
module Recovery {
  import opened Bytes
  import opened Crypto
  import Anchor
  import opened Manifest
  import opened Journal
  import opened RollbackJournal
  import opened JournalWriter
  import opened Commit
  import opened CrashSafety
  import BlockDevice

  // ------------------------------------------------------------------------- a journal on disk

  /** A byte string as whole pages, the last one filled with zeros. */
  function Pages(b: seq<byte>): seq<Page> {
    if b == [] then []
    else if |b| <= BLOCK_SIZE then [b + Zeros(BLOCK_SIZE - |b|)]
    else [b[..BLOCK_SIZE]] + Pages(b[BLOCK_SIZE..])
  }

  lemma RoundUpOneMore(n: nat)
    requires n > BLOCK_SIZE
    ensures RoundUp(n, BLOCK_SIZE) == BLOCK_SIZE + RoundUp(n - BLOCK_SIZE, BLOCK_SIZE)
  {
  }

  lemma {:induction false} StreamOfPages(b: seq<byte>)
    ensures Stream(Pages(b)) == b + Zeros(RoundUp(|b|, BLOCK_SIZE) - |b|)
  {
    if |b| > BLOCK_SIZE {
      var head: Page, rest := b[..BLOCK_SIZE], b[BLOCK_SIZE..];
      StreamOfPages(rest);
      RoundUpOneMore(|b|);
      assert Pages(b) == [head] + Pages(rest) && Pages(b)[1..] == Pages(rest);
      assert b == head + rest;
      hide Pages, RoundUp;
    } else if b != [] {
      assert Pages(b)[1..] == [];
      assert RoundUp(|b|, BLOCK_SIZE) == BLOCK_SIZE;
    }
  }

  /** The journal file's blocks for these bytes. */
  function SealJournal(db: Db, uuid: Uuid, b: seq<byte>): (cells: seq<Cell<Page>>)
    ensures |cells| == |Pages(b)|
  {
    seq(|Pages(b)|, k requires 0 <= k < |Pages(b)| => Sealed(DbKey(db.dek, uuid), JournalName(db.name), uuid, k, Pages(b)[k]))
  }

  lemma SealedJournalOpens(db: Db, uuid: Uuid, b: seq<byte>)
    ensures Decrypt(db, uuid, JournalName(db.name), SealJournal(db, uuid, b)) == Some(Pages(b))
    ensures MAGIC <= b ==> Hot(db, uuid, Some(SealJournal(db, uuid, b)))
  {
    var cells := SealJournal(db, uuid, b);
    assert forall k :: 0 <= k < |cells| ==> Block(db, uuid, JournalName(db.name), cells, k) == Some(Pages(b)[k]);
    assert Plain(db, uuid, JournalName(db.name), cells) == Pages(b);
    if MAGIC <= b {
      assert Pages(b)[0][..8] == b[..8] == MAGIC;
    }
  }

  /** The records hold pages of `base`. */
  predicate PreImages(segs: seq<Segment>, base: seq<Page>) {
    forall r <- AllRecords(segs) :: 0 < r.pgno <= |base| && r.page == base[r.pgno - 1]
  }

  predicate Sector(n: nat) {
    BLOCK_SIZE <= n <= U32_MAX && n % BLOCK_SIZE == 0
  }

  /** The journal file that SQLite writes for these segments. */
  function WrittenJournal(db: Db, uuid: Uuid, segs: seq<Segment>, pages: nat, sector: nat): seq<Cell<Page>>
    requires Sector(sector)
  {
    SealJournal(db, uuid, EncodeJournal(segs, pages, sector))
  }

  /** Sealed into blocks, a written journal is a hot rollback journal for the image it saved pages of. */
  lemma WrittenIsWellJournaled(db: Db, uuid: Uuid, segs: seq<Segment>, sector: nat, base: seq<Page>)
    requires Sector(sector) && segs != [] && Writable(segs, |base|) && PreImages(segs, base)
    ensures WellJournaled(db, uuid, Some(WrittenJournal(db, uuid, segs, |base|, sector)), segs, base)
  {
    hide Writable, EncodeJournal, Journals, RoundUp, Pages, Framed, SealJournal;
    var j := EncodeJournal(segs, |base|, sector);
    var pad := Zeros(RoundUp(|j|, BLOCK_SIZE) - |j|);
    FramedReadsBack(segs, |base|, sector, []);
    assert j + [] == j;
    SealedJournalOpens(db, uuid, j);
    StreamOfPages(j);
    WrittenJournals(segs, |base|, sector, pad);
  }

  /** In every state of a run SQLite may write such a journal, making it hot or, when it is hot, adding to
      the pages it saves. */
  lemma WrittenJournalIsAllowed(db: Db, s: State, segs: seq<Segment>, sector: nat)
    requires Inv(db, s) && s.session.Some? && s.pending == []
    requires Sector(sector) && segs != [] && Writable(segs, |s.base|) && PreImages(segs, s.base)
    requires forall k :: Saved(k, AllRecords(s.segs)) ==> Saved(k, AllRecords(segs))
    ensures Allowed(db, s, JournalWrite(Some(WrittenJournal(db, Current(db, s.disk).value.uuid, segs, |s.base|, sector)), segs))
  {
    hide WellJournaled, Writable, PreImages, WrittenJournal, Hot;
    WrittenIsWellJournaled(db, Current(db, s.disk).value.uuid, segs, sector, s.base);
  }

  // ------------------------------------------------------------------------- a commit cut after its seal

  /** A finalization of which only the seal lands, and the open after the cut. */
  const CUT_AFTER_SEAL: seq<Event> := [Finalize(None, None), Land, Land, Cut, Open(true, false)]

  lemma Steps(db: Db, s: State, ops: seq<Op>)
    requires s.session.Some? && BarrierOps(db, s.disk, s.session.value, None) == Some(ops) && |ops| == 3
    ensures
      var s1 := Step(db, s, Finalize(None, None));
      var s2 := Step(db, s1, Land);
      && s1 == s.(pending := ops + [SetJournal(None)])
      && s2 == s.(disk := Apply(db, s.disk, ops[0]), pending := [ops[1], ops[2], SetJournal(None)])
      && Step(db, s2, Land) == s.(disk := Apply(db, Apply(db, s.disk, ops[0]), ops[1]), pending := [ops[2], SetJournal(None)])
  {
    hide BarrierOps, Apply, Authentic, MainImage;
    assert (ops + [SetJournal(None)])[1..] == [ops[1], ops[2], SetJournal(None)];
  }

  lemma SealFollows(db: Db, s: State)
    requires Inv(db, s) && s.pending == [] && s.session.Some?
    ensures Holds(db, s.disk, s.base, s.segs) && s.session.value.uuid == Current(db, s.disk).value.uuid
    ensures Manifest.Follows(db.dek, db.name, s.disk.manifest.value, Next(db, s, None))
  {
    hide Covers, WellJournaled, Hot, Plain, Authentic, AnchorOk;
  }

  /** What the seal, landed and cut, leaves on disk. */
  lemma SealLands(db: Db, s: State)
    requires Inv(db, s) && Allowed(db, s, Finalize(None, None))
    ensures
      var s1 := Step(db, s, Finalize(None, None));
      var s2 := Step(db, s1, Land);
      var s3 := Step(db, s2, Land);
      && Holds(db, s.disk, s.base, s.segs) && s.session.Some? && Current(db, s.disk).Some?
      && Inv(db, s3) && s1.pending != [] && s2.pending != [] && s3.pending != [] && s3.base == s.base
      && Inv(db, s1) && Inv(db, s2)
      && Current(db, s3.disk) == Some(Next(db, s, None))
      && s3.disk.main == s.disk.main && s3.disk.journal == s.disk.journal
  {
    SealFollows(db, s);
    assert s.session.Some?;
    FinalizeKeeps(db, s, None, None);
    BarrierReady(db, s, None);
    hide Holds, Inv, Allowed, Current, BarrierOps, Apply, Anchor.Saves, Anchor.Load, Manifest.Follows, Step;
    var ops := BarrierOps(db, s.disk, s.session.value, None).value;
    Steps(db, s, ops);
    var s1 := Step(db, s, Finalize(None, None));
    LandKeeps(db, s1);
    var s2 := Step(db, s1, Land);
    LandKeeps(db, s2);
    SealAfterSave(db, s, ops[0], Next(db, s, None));
  }

  lemma InvCurrent(db: Db, s: State)
    requires Inv(db, s)
    ensures Current(db, s.disk).Some? && Holds(db, s.disk, s.base, s.segs)
  {
    hide Current;
  }

  lemma OpenIs(db: Db, s: State, st: DbState, image: Option<seq<Page>>)
    requires Examine(db, s.disk) == Admit(st, image)
    ensures Step(db, s, Open(true, false)) == s.(disk := OpenStep(db, s.disk, true, false), session := Some(st))
  {
    hide Examine, OpenStep;
  }

  lemma CutIs(db: Db, s: State)
    requires Inv(db, s)
    ensures Step(db, s, Cut) == s.(session := None, pending := []) && Inv(db, Step(db, s, Cut))
  {
    hide Holds;
  }

  /** The open after the cut: the session carries the sealed root, over the old rollback target. */
  lemma ReopenedSession(db: Db, s: State)
    requires Inv(db, s) && s.pending != []
    ensures Inv(db, Step(db, s, Cut)) && Step(db, s, Cut).pending == [] && Step(db, s, Cut).session.None?
    ensures Current(db, s.disk).Some? && Step(db, s, Cut).disk == s.disk
    ensures
      var s' := Step(db, Step(db, s, Cut), Open(true, false));
      var m := Current(db, s.disk).value;
      && Inv(db, s') && s'.pending == [] && s'.base == s.base
      && s'.session == Some(DbState(m.uuid, m.generation, m.root))
      && s'.disk.main == s.disk.main && s'.disk.journal == s.disk.journal
  {
    hide *;
    InvCurrent(db, s);
    CutIs(db, s);
    var cut, m := Step(db, s, Cut), Current(db, s.disk).value;
    OpenCertifies(db, s.disk, s.base, s.segs);
    OpenKeeps(db, cut, true, false);
    OpenIs(db, cut, DbState(m.uuid, m.generation, m.root), Some(s.base));
    OnlyAnchor(db, s.disk);
  }

  lemma OnlyAnchor(db: Db, disk: Disk)
    requires Examine(db, disk).Admit?
    ensures OpenStep(db, disk, true, false) == disk.(anchor := OpenStep(db, disk, true, false).anchor)
  {
    hide Anchor.Saves, Anchor.Load, Anchor.Save, ReadManifest, Check, Anchor.Fresh;
  }

  /** Every commit that changed the main file and is cut between its seal and the death of its journal
      leads, when the database is next opened, to a session whose own finalization would lose the rollback
      target unless it plays the journal back first. */
  lemma CutCommitLosesTarget(db: Db, s: State)
    requires Inv(db, s) && Allowed(db, s, Finalize(None, None)) && MainImage(db, s.disk) != s.base
    ensures AllAllowed(db, s, CUT_AFTER_SEAL)
    ensures
      var end := Run(db, s, CUT_AFTER_SEAL);
      && Inv(db, end) && end.session.Some? && end.pending == [] && end.base == s.base
      && Hot(db, end.session.value.uuid, end.disk.journal) && end.disk.main != []
      && !RollbackTargetKept(db, end)
  {
    hide *;
    SealLands(db, s);
    var s1 := Step(db, s, Finalize(None, None));
    var s2 := Step(db, s1, Land);
    var s3 := Step(db, s2, Land);
    var s4 := Step(db, s3, Cut);
    ReopenedSession(db, s3);
    InvCurrent(db, s1);
    InvCurrent(db, s2);
    InvCurrent(db, s4);
    LandAllowed(db, s1);
    LandAllowed(db, s2);
    CutAllowed(db, s3);
    OpenAllowed(db, s4);
    TargetLost(db, s, s3, Step(db, s4, Open(true, false)));
    RunFive(db, s);
  }

  lemma LandAllowed(db: Db, s: State)
    requires Current(db, s.disk).Some? && s.pending != []
    ensures Allowed(db, s, Land)
  {
  }

  lemma CutAllowed(db: Db, s: State)
    requires Current(db, s.disk).Some?
    ensures Allowed(db, s, Cut)
  {
  }

  lemma OpenAllowed(db: Db, s: State)
    requires Current(db, s.disk).Some? && s.session.None? && s.pending == []
    ensures Allowed(db, s, Open(true, false))
  {
  }

  lemma TargetLost(db: Db, s: State, s3: State, end: State)
    requires Inv(db, s) && Allowed(db, s, Finalize(None, None)) && MainImage(db, s.disk) != s.base
    requires Current(db, s3.disk) == Some(Next(db, s, None)) && s3.disk.main == s.disk.main && s3.disk.journal == s.disk.journal
    requires
      var m := Current(db, s3.disk).value;
      && end.base == s.base && end.session == Some(DbState(m.uuid, m.generation, m.root))
      && end.disk.main == s3.disk.main && end.disk.journal == s3.disk.journal
    ensures Hot(db, end.session.value.uuid, end.disk.journal) && end.disk.main != [] && !RollbackTargetKept(db, end)
  {
    hide Covers, WellJournaled, AnchorOk, ReadManifest, Hot, ImageRoot;
    var image := Plain(db, s.session.value.uuid, db.name, s.disk.main);
    RootsAreInjective(image, s.base);
    assert MainImage(db, s.disk) == image && Next(db, s, None).root == ImageRoot(image);
  }

  lemma RunFive(db: Db, s: State)
    ensures
      var s1 := Step(db, s, Finalize(None, None));
      var s2 := Step(db, s1, Land);
      var s3 := Step(db, s2, Land);
      var s4 := Step(db, s3, Cut);
      && Run(db, s, CUT_AFTER_SEAL) == Step(db, s4, Open(true, false))
      && (AllAllowed(db, s, CUT_AFTER_SEAL) <==>
           && Current(db, s.disk).Some? && Allowed(db, s, Finalize(None, None)) && Current(db, s1.disk).Some? && Allowed(db, s1, Land)
           && Current(db, s2.disk).Some? && Allowed(db, s2, Land) && Current(db, s3.disk).Some? && Allowed(db, s3, Cut)
           && Current(db, s4.disk).Some? && Allowed(db, s4, Open(true, false)))
  {
    hide Step, Current, Allowed;
    var e4: seq<Event> := [Open(true, false)];
    var e3: seq<Event> := [Cut] + e4;
    var e2: seq<Event> := [Land] + e3;
    var e1: seq<Event> := [Land] + e2;
    assert CUT_AFTER_SEAL == [Finalize(None, None)] + e1;
    assert CUT_AFTER_SEAL[1..] == e1 && e1[1..] == e2 && e2[1..] == e3 && e3[1..] == e4 && e4[1..] == [];
    var s1 := Step(db, s, Finalize(None, None));
    var s2 := Step(db, s1, Land);
    var s3 := Step(db, s2, Land);
    var s4 := Step(db, s3, Cut);
    assert Run(db, s3, e3) == Run(db, s4, e4) == Step(db, s4, Open(true, false));
    assert Run(db, s, CUT_AFTER_SEAL) == Run(db, s1, e1) == Run(db, s2, e2) == Run(db, s3, e3);
    assert AllAllowed(db, s4, e4) <==> Current(db, s4.disk).Some? && Allowed(db, s4, Open(true, false));
    assert AllAllowed(db, s3, e3) <==> Current(db, s3.disk).Some? && Allowed(db, s3, Cut) && AllAllowed(db, s4, e4);
    assert AllAllowed(db, s2, e2) <==> Current(db, s2.disk).Some? && Allowed(db, s2, Land) && AllAllowed(db, s3, e3);
    assert AllAllowed(db, s1, e1) <==> Current(db, s1.disk).Some? && Allowed(db, s1, Land) && AllAllowed(db, s2, e2);
  }

  // ------------------------------------------------------------------------- and such commits happen

  /** A header page with one byte of content. */
  function HeaderPage(x: byte): Page {
    BlockDevice.SQLITE_MAGIC + [0x10, 0x00] + seq(BLOCK_SIZE - 18, _ => x)
  }

  lemma HeaderPages()
    ensures GoodHeader(HeaderPage(0)) && GoodHeader(HeaderPage(1)) && HeaderPage(0) != HeaderPage(1)
  {
    forall x: byte ensures GoodHeader(HeaderPage(x)) && HeaderPage(x)[18] == x {
      assert HeaderPage(x)[16..18] == [0x10, 0x00];
      assert [0x10, 0x00][..1] == [0x10] && [0x10][..0] == [];
      assert FromBE([0x10, 0x00]) == 4096;
    }
  }

  /** A journal that has its header, and then the pre-image of the first page. */
  function Header(): seq<Segment> {
    [Segment(0, false, [])]
  }

  function FirstSaved(base: seq<Page>): seq<Segment>
    requires base != []
  {
    [Segment(0, false, [Rec(1, base[0], Checksum(0, base[0]))])]
  }

  lemma FirstSavedIsWritable(base: seq<Page>)
    requires 0 < |base| <= U32_MAX
    ensures Writable(Header(), |base|) && PreImages(Header(), base) && AllRecords(Header()) == []
    ensures Writable(FirstSaved(base), |base|) && PreImages(FirstSaved(base), base) && Saved(0, AllRecords(FirstSaved(base)))
  {
    var r := Rec(1, base[0], Checksum(0, base[0]));
    assert AllRecords(FirstSaved(base)) == [r] by { assert FirstSaved(base)[1..] == [] && [r] + [] == [r]; }
    assert AllRecords(Header()) == [] by { assert Header()[1..] == []; }
    assert r in AllRecords(FirstSaved(base));
  }

  /** Open a database at rest, start a journal, save the first page, overwrite it. */
  function Edit(db: Db, uuid: Uuid, base: seq<Page>, page: Page): seq<Event>
    requires base != []
  {
    [Open(true, false),
     JournalWrite(Some(WrittenJournal(db, uuid, Header(), |base|, BLOCK_SIZE)), Header()),
     JournalWrite(Some(WrittenJournal(db, uuid, FirstSaved(base), |base|, BLOCK_SIZE)), FirstSaved(base)),
     MainWrite(0, page)]
  }

  /** The session of a database whose image is committed. */
  ghost predicate Committed(db: Db, s: State, uuid: Uuid, base: seq<Page>) {
    && Inv(db, s) && s.pending == [] && s.base == base && Current(db, s.disk).Some? && Current(db, s.disk).value.uuid == uuid
    && s.session.Some? && s.session.value.uuid == uuid && s.session.value.committedRoot == ImageRoot(base)
  }

  lemma OpenedAtRest(db: Db, uuid: Uuid, base: seq<Page>, gen: nat)
    requires base != [] && GoodHeader(base[0])
    ensures
      var s := AtRest(db, uuid, base, gen);
      var s1 := Step(db, s, Open(true, false));
      && Current(db, s.disk).Some? && Allowed(db, s, Open(true, false))
      && Committed(db, s1, uuid, base) && s1.segs == [] && s1.disk.journal.None?
  {
    var s := AtRest(db, uuid, base, gen);
    AtRestHolds(db, uuid, base, gen);
    RestSays(db, uuid, base, gen);
    assert s.pending == [] && s.session.None? && s.segs == [] && s.disk.journal.None?;
    hide *;
    InvCurrent(db, s);
    OpenAllowed(db, s);
    var m := Current(db, s.disk).value;
    OpenCertifies(db, s.disk, base, s.segs);
    OpenKeeps(db, s, true, false);
    OpenIs(db, s, DbState(m.uuid, m.generation, m.root), Some(base));
    OnlyAnchor(db, s.disk);
    CommittedIs(db, Step(db, s, Open(true, false)), uuid, base);
  }

  lemma RestSays(db: Db, uuid: Uuid, base: seq<Page>, gen: nat)
    ensures
      var m := Current(db, AtRest(db, uuid, base, gen).disk);
      m.Some? && m.value.uuid == uuid && m.value.root == ImageRoot(base)
  {
    var s := AtRest(db, uuid, base, gen);
    var p := Payload(gen, uuid, ImageRoot(base), ZeroRoot, [(db.name, |base| * BLOCK_SIZE)]);
    var m := s.disk.manifest.value;
    assert ReadSlot(db.dek, db.name, uuid, m.slots, gen % 2) == Some(p);
    assert ReadSlot(db.dek, db.name, uuid, m.slots, 1 - gen % 2) == None;
  }

  lemma CommittedIs(db: Db, s: State, uuid: Uuid, base: seq<Page>)
    requires Inv(db, s) && s.pending == [] && s.base == base && s.session.Some? && s.session.value.uuid == uuid
    requires s.session.value.committedRoot == ImageRoot(base)
    ensures Committed(db, s, uuid, base)
  {
    InvCurrent(db, s);
    hide Holds, ImageRoot, Current;
  }

  lemma JournalWriteIs(db: Db, s: State, j: Option<seq<Cell<Page>>>, segs: seq<Segment>)
    ensures
      var s' := Step(db, s, JournalWrite(j, segs));
      s' == s.(disk := s.disk.(journal := j), segs := segs) && Current(db, s'.disk) == Current(db, s.disk)
  {
    hide ReadManifest;
  }

  lemma JournalWritten(db: Db, s: State, uuid: Uuid, base: seq<Page>, segs: seq<Segment>)
    requires Committed(db, s, uuid, base) && segs != [] && Writable(segs, |base|) && PreImages(segs, base)
    requires forall k :: Saved(k, AllRecords(s.segs)) ==> Saved(k, AllRecords(segs))
    ensures
      var e := JournalWrite(Some(WrittenJournal(db, uuid, segs, |base|, BLOCK_SIZE)), segs);
      var s' := Step(db, s, e);
      && Allowed(db, s, e) && Committed(db, s', uuid, base) && s'.segs == segs && Hot(db, uuid, s'.disk.journal) && s'.disk.main == s.disk.main
  {
    hide Inv, Holds, Allowed, WellJournaled, Hot, WrittenJournal, Writable, PreImages, ImageRoot, Step, Current;
    var j := Some(WrittenJournal(db, uuid, segs, |base|, BLOCK_SIZE));
    WrittenJournalIsAllowed(db, s, segs, BLOCK_SIZE);
    WrittenIsWellJournaled(db, uuid, segs, BLOCK_SIZE, base);
    WellJournaledIsHot(db, uuid, j, segs, base);
    JournalWriteIs(db, s, j, segs);
    JournalWriteKeeps(db, s, j, segs);
  }

  lemma WellJournaledIsHot(db: Db, uuid: Uuid, j: Option<seq<Cell<Page>>>, segs: seq<Segment>, base: seq<Page>)
    requires WellJournaled(db, uuid, j, segs, base)
    ensures Hot(db, uuid, j)
  {
    hide Hot;
  }

  lemma NoJournalIsDead(db: Db, uuid: Uuid)
    ensures !Hot(db, uuid, None)
  {
  }

  lemma Edited(db: Db, s: State, uuid: Uuid, base: seq<Page>, page: Page)
    requires Committed(db, s, uuid, base) && Hot(db, uuid, s.disk.journal) && Saved(0, AllRecords(s.segs))
    requires base != [] && GoodHeader(page) && page != base[0]
    ensures
      var s' := Step(db, s, MainWrite(0, page));
      && Allowed(db, s, MainWrite(0, page))
      && Inv(db, s') && Current(db, s'.disk).Some? && Allowed(db, s', Finalize(None, None)) && MainImage(db, s'.disk) != s'.base
  {
    hide WellJournaled, Covers, AnchorOk, ReadManifest, Hot, ImageRoot, Saved, GoodHeader;
    NoJournalIsDead(db, uuid);
    var s' := Step(db, s, MainWrite(0, page));
    assert Allowed(db, s, MainWrite(0, page));
    MainWriteKeeps(db, s, 0, page);
    assert s'.disk.manifest == s.disk.manifest && s'.disk.journal == s.disk.journal && s'.session == s.session;
    assert Block(db, uuid, db.name, s'.disk.main, 0) == Some(page);
    assert Plain(db, uuid, db.name, s'.disk.main)[0] == page;
    assert Current(db, s'.disk).value.uuid == uuid && s'.base == base;
    assert RollbackTargetKept(db, s');
  }

  /** The failing side is reached, from every database at rest and with every change of its first page: a
      commit cut after its seal, an open, and a second finalization cut in the same place leave a database
      that no open accepts. */
  lemma LossIsReachable(db: Db, uuid: Uuid, base: seq<Page>, page: Page, gen: nat, len: Option<nat>)
    requires 0 < |base| <= U32_MAX && GoodHeader(base[0]) && GoodHeader(page) && page != base[0]
    ensures
      var s0 := AtRest(db, uuid, base, gen);
      var s := Run(db, s0, Edit(db, uuid, base, page));
      var end := Run(db, s, CUT_AFTER_SEAL);
      && Inv(db, s0) && AllAllowed(db, s0, Edit(db, uuid, base, page)) && AllAllowed(db, s, CUT_AFTER_SEAL)
      && end.session.Some? && BarrierOps(db, end.disk, end.session.value, len).Some?
      && !Examine(db, ApplyAll(db, end.disk, BarrierOps(db, end.disk, end.session.value, len).value[..2])).Admit?
  {
    FirstSavedIsWritable(base);
    assert Header() != [] && FirstSaved(base) != [];
    AtRestHolds(db, uuid, base, gen);
    hide *;
    OpenedAtRest(db, uuid, base, gen);
    var s0 := AtRest(db, uuid, base, gen);
    var s1 := Step(db, s0, Open(true, false));
    NothingSaved();
    JournalWritten(db, s1, uuid, base, Header());
    var s2 := Step(db, s1, JournalWrite(Some(WrittenJournal(db, uuid, Header(), |base|, BLOCK_SIZE)), Header()));
    JournalWritten(db, s2, uuid, base, FirstSaved(base));
    var s3 := Step(db, s2, JournalWrite(Some(WrittenJournal(db, uuid, FirstSaved(base), |base|, BLOCK_SIZE)), FirstSaved(base)));
    Edited(db, s3, uuid, base, page);
    RunEdit(db, s0, uuid, base, page);
    CommittedSays(db, s1, uuid, base);
    CommittedSays(db, s2, uuid, base);
    CommittedSays(db, s3, uuid, base);
    var s := Step(db, s3, MainWrite(0, page));
    CutCommitLosesTarget(db, s);
    CutAfterSeal(db, Run(db, s, CUT_AFTER_SEAL), len);
  }

  /** It takes nothing but two header pages: the loss happens to a database of one page. */
  lemma LossHappens(db: Db, uuid: Uuid, gen: nat, len: Option<nat>)
    ensures
      var base := [HeaderPage(0)];
      var s := Run(db, AtRest(db, uuid, base, gen), Edit(db, uuid, base, HeaderPage(1)));
      var end := Run(db, s, CUT_AFTER_SEAL);
      && AllAllowed(db, AtRest(db, uuid, base, gen), Edit(db, uuid, base, HeaderPage(1))) && AllAllowed(db, s, CUT_AFTER_SEAL)
      && end.session.Some? && BarrierOps(db, end.disk, end.session.value, len).Some?
      && !Examine(db, ApplyAll(db, end.disk, BarrierOps(db, end.disk, end.session.value, len).value[..2])).Admit?
  {
    HeaderPages();
    LossIsReachable(db, uuid, [HeaderPage(0)], HeaderPage(1), gen, len);
  }

  lemma NothingSaved()
    ensures AllRecords([]) == [] && forall k :: !Saved(k, [])
  {
  }

  lemma CommittedSays(db: Db, s: State, uuid: Uuid, base: seq<Page>)
    requires Committed(db, s, uuid, base)
    ensures Current(db, s.disk).Some?
  {
  }

  lemma RunEdit(db: Db, s0: State, uuid: Uuid, base: seq<Page>, page: Page)
    requires base != []
    ensures
      var e := Edit(db, uuid, base, page);
      var s1 := Step(db, s0, e[0]);
      var s2 := Step(db, s1, e[1]);
      var s3 := Step(db, s2, e[2]);
      && e[0] == Open(true, false) && e[1] == JournalWrite(Some(WrittenJournal(db, uuid, Header(), |base|, BLOCK_SIZE)), Header())
      && e[2] == JournalWrite(Some(WrittenJournal(db, uuid, FirstSaved(base), |base|, BLOCK_SIZE)), FirstSaved(base))
      && e[3] == MainWrite(0, page)
      && Run(db, s0, e) == Step(db, s3, e[3])
      && (AllAllowed(db, s0, e) <==>
           && Current(db, s0.disk).Some? && Allowed(db, s0, e[0]) && Current(db, s1.disk).Some? && Allowed(db, s1, e[1])
           && Current(db, s2.disk).Some? && Allowed(db, s2, e[2]) && Current(db, s3.disk).Some? && Allowed(db, s3, e[3]))
  {
    hide Step, Current, Allowed, WrittenJournal, Header, FirstSaved;
    var e := Edit(db, uuid, base, page);
    var (e1, e2, e3) := ([e[1], e[2], e[3]], [e[2], e[3]], [e[3]]);
    assert e[1..] == e1 && e1[1..] == e2 && e2[1..] == e3 && e3[1..] == [];
    var s1 := Step(db, s0, e[0]);
    var s2 := Step(db, s1, e[1]);
    var s3 := Step(db, s2, e[2]);
    assert Run(db, s0, e) == Run(db, s1, e1) == Run(db, s2, e2) == Run(db, s3, e3) == Step(db, s3, e[3]);
    assert AllAllowed(db, s3, e3) <==> Current(db, s3.disk).Some? && Allowed(db, s3, e[3]);
    assert AllAllowed(db, s2, e2) <==> Current(db, s2.disk).Some? && Allowed(db, s2, e[2]) && AllAllowed(db, s3, e3);
    assert AllAllowed(db, s1, e1) <==> Current(db, s1.disk).Some? && Allowed(db, s1, e[1]) && AllAllowed(db, s2, e2);
  }
}
