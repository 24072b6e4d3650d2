/** Replay of an SQLite rollback journal into a shadow image (`replay_journal_root`, vfs.rs).
    The format is section 3, "The Rollback Journal", of the SQLite Database File Format. */
module Journal {
  import opened Bytes
  import opened Crypto

  const MAGIC: seq<byte> := [0xd9, 0xd5, 0x05, 0xf9, 0x20, 0xa1, 0x63, 0xd7]
  const HEADER_LEN: nat := 28
  const RECORD_LEN: nat := BLOCK_SIZE + 8

  // ---------------------------------------------------------------- reading the stream

  predicate HasMagic(j: seq<byte>, at: nat) {
    at + HEADER_LEN <= |j| && j[at..at + 8] == MAGIC
  }

  function Be32(j: seq<byte>, at: nat): (n: nat)
    requires at + 4 <= |j|
  {
    FromBE(j[at..at + 4])
  }

  /** Wrapping 32-bit arithmetic. */
  function Wrap(n: int): (w: nat)
    ensures w <= U32_MAX
  {
    n % (U32_MAX + 1)
  }

  /** `pager_cksum`: the nonce plus every 200th byte of the page, as a wrapping 32-bit sum. */
  function ChecksumFrom(sum: nat, page: Page, i: int): (c: nat)
    requires i < BLOCK_SIZE
    decreases i
  {
    if i <= 0 then sum else ChecksumFrom(Wrap(sum + page[i]), page, i - 200)
  }

  function Checksum(nonce: nat, page: Page): nat {
    ChecksumFrom(nonce, page, BLOCK_SIZE - 200)
  }

  lemma {:induction false} SumOfZeros(sum: nat, i: int)
    requires sum <= U32_MAX && i < BLOCK_SIZE
    ensures ChecksumFrom(sum, ZeroPage(), i) == sum
    decreases i
  {
    if i > 0 { SumOfZeros(sum, i - 200); }
  }

  lemma Wraps(a: int, b: int)
    ensures Wrap(Wrap(a) + b) == Wrap(a + b)
    ensures 0 <= a <= U32_MAX ==> Wrap(a) == a
  {
    var q := a / (U32_MAX + 1);
    assert a + b == q * (U32_MAX + 1) + (Wrap(a) + b);
  }

  lemma NextSum(sum: nat, page: Page, i: int)
    requires 0 < i < BLOCK_SIZE
    ensures ChecksumFrom(sum, page, i) == ChecksumFrom(Wrap(sum + page[i]), page, i - 200)
  {
  }

  /** What is added to the running sum comes out at the end, modulo 2^32. */
  lemma {:induction false} SumShifts(sum: nat, d: int, page: Page, i: int)
    requires sum <= U32_MAX && i < BLOCK_SIZE
    ensures ChecksumFrom(Wrap(sum + d), page, i) == Wrap(ChecksumFrom(sum, page, i) + d)
    ensures ChecksumFrom(sum, page, i) <= U32_MAX
    decreases i
  {
    if i > 0 {
      hide ChecksumFrom, Wrap;
      NextSum(sum, page, i);
      NextSum(Wrap(sum + d), page, i);
      Wraps(sum + d, page[i]);
      Wraps(sum + page[i], d);
      SumShifts(Wrap(sum + page[i]), d, page, i - 200);
    }
  }

  /** The summed indices are the ones that leave 96 after division by 200. */
  predicate Summed(at: nat) {
    at % 200 == 96
  }

  lemma SummedBelow(at: nat, i: int)
    requires i % 200 == 96
    ensures (i - 200) % 200 == 96
    ensures at <= i && Summed(at) <==> at == i || (at <= i - 200 && Summed(at))
  {
  }

  lemma {:induction false} SumAfterUpdate(sum: nat, page: Page, at: nat, b: byte, i: int)
    requires sum <= U32_MAX && at < BLOCK_SIZE && i < BLOCK_SIZE && i % 200 == 96
    ensures ChecksumFrom(sum, page[at := b], i)
         == Wrap(ChecksumFrom(sum, page, i) + if at <= i && Summed(at) then b - page[at] else 0)
    decreases i
  {
    hide ChecksumFrom, Summed, Wrap;
    SummedBelow(at, i);
    if i <= 0 {
      NothingSummed(sum, page, i);
      NothingSummed(sum, page[at := b], i);
      Wraps(sum, 0);
    } else {
      var next, later := Wrap(sum + page[i]), Wrap(sum + page[at := b][i]);
      NextSum(sum, page, i);
      NextSum(sum, page[at := b], i);
      SumAfterUpdate(later, page, at, b, i - 200);
      if i == at {
        SumShifts(later, 0, page, i - 200);
        SumShifts(next, b - page[at], page, i - 200);
        Wraps(sum + page[i], b - page[at]);
        Wraps(ChecksumFrom(later, page, i - 200), 0);
      }
    }
  }

  lemma NothingSummed(sum: nat, page: Page, i: int)
    requires i <= 0
    ensures ChecksumFrom(sum, page, i) == sum
  {
  }

  /** The checksum of a page is the nonce plus its bytes 96, 296, up to 3896, modulo 2^32, and depends on no
      other byte. */
  lemma ChecksumLaw(nonce: nat, page: Page, at: nat, b: byte)
    requires nonce <= U32_MAX && at < 4096
    ensures Checksum(nonce, ZeroPage()) == nonce
    ensures Checksum(nonce, page[at := b]) == (Checksum(nonce, page) + if at % 200 == 96 then b - page[at] else 0) % 0x1_0000_0000
  {
    SumOfZeros(nonce, BLOCK_SIZE - 200);
    SumAfterUpdate(nonce, page, at, b, BLOCK_SIZE - 200);
  }

  /** A page record as it stands in the stream. */
  datatype Rec = Rec(pgno: nat, page: Page, checksum: nat)

  function RecordAt(j: seq<byte>, off: nat): (r: Rec)
    requires off + RECORD_LEN <= |j|
  {
    Rec(Be32(j, off), j[off + 4..off + 4 + BLOCK_SIZE], Be32(j, off + 4 + BLOCK_SIZE))
  }

  predicate Usable(r: Rec, nonce: nat, maxPages: nat) {
    r.checksum == Checksum(nonce, r.page) && 0 < r.pgno <= maxPages
  }

  /** Write a page into the shadow, growing it with zero pages when needed. */
  function Put(shadow: seq<Page>, pgno: nat, page: Page): (s: seq<Page>)
    requires pgno > 0
    ensures |s| == Max(|shadow|, pgno)
    ensures s[pgno - 1] == page
    ensures forall k :: 0 <= k < |shadow| && k != pgno - 1 ==> s[k] == shadow[k]
    ensures forall k :: |shadow| <= k < pgno - 1 ==> s[k] == ZeroPage()
  {
    var grown := if pgno <= |shadow| then shadow
                 else shadow + seq(pgno - |shadow|, _ => ZeroPage());
    grown[pgno - 1 := page]
  }

  /** `off` rounded up to a multiple of `sector`. */
  function RoundUp(off: nat, sector: nat): (r: nat)
    requires sector > 0
    ensures off <= r < off + sector
  {
    (off + sector - 1) / sector * sector
  }

  /** Where one segment's records leave the replay: `stopped` is the labelled break. */
  datatype Walk = Walk(shadow: seq<Page>, off: nat, stopped: bool)

  /** The record loop of one segment; `left` is how many more records the header allows. */
  function WalkRecords(j: seq<byte>, w: Walk, left: Option<nat>, nonce: nat, maxPages: nat): (r: Walk)
    requires !w.stopped && |w.shadow| <= maxPages
    ensures |r.shadow| <= maxPages && r.off >= w.off
    decreases |j| - w.off
  {
    if left == Some(0) || w.off + RECORD_LEN > |j| then w
    else
      var rec := RecordAt(j, w.off);
      if !Usable(rec, nonce, maxPages) then w.(stopped := true)
      else WalkRecords(j, Walk(Put(w.shadow, rec.pgno, rec.page), w.off + RECORD_LEN, false),
                       if left.Some? then Some(left.value - 1) else None, nonce, maxPages)
  }

  /** The record budget a header grants: 0 and 0xffffffff mean "as many as the stream holds". */
  function Budget(nrec: nat): Option<nat> {
    if nrec == 0 || nrec == U32_MAX then None else Some(nrec)
  }

  lemma BudgetIs(nrec: nat)
    requires nrec <= 0xffff_ffff
    ensures Budget(nrec) == if 0 < nrec < 0xffff_ffff then Some(nrec) else None
  {
  }

  /** The segment loop. */
  function WalkSegments(j: seq<byte>, seg: nat, sector: nat, maxPages: nat, shadow: seq<Page>): (s: seq<Page>)
    requires sector > 0 && |shadow| <= maxPages
    ensures |s| <= maxPages
    decreases |j| - seg
  {
    if !HasMagic(j, seg) || Be32(j, seg + 24) != BLOCK_SIZE || Be32(j, seg + 20) != sector then shadow
    else
      var w := WalkRecords(j, Walk(shadow, seg + sector, false), Budget(Be32(j, seg + 8)),
                           Be32(j, seg + 12), maxPages);
      if w.stopped then w.shadow else WalkSegments(j, RoundUp(w.off, sector), sector, maxPages, w.shadow)
  }

  /** The bound on page numbers, which caps how far hostile input can grow the shadow. */
  function MaxPages(j: seq<byte>, init: nat, main: nat): (m: nat)
    ensures m >= init + 8 && m >= main + 8 && m >= |j| / 4104 + 8
    ensures m in {init + 8, main + 8, |j| / 4104 + 8}
  {
    Max(Max(init, main), |j| / RECORD_LEN) + 8
  }

  predicate Framed(j: seq<byte>) {
    HasMagic(j, 0) && Be32(j, 24) == BLOCK_SIZE && Be32(j, 20) > 0 && Be32(j, 20) % BLOCK_SIZE == 0
  }

  function Truncated(init: nat, shadow: seq<Page>): (s: seq<Page>)
    ensures s <= shadow
  {
    if 0 < init < |shadow| then shadow[..init] else shadow
  }

  /** The image the journal rolls `main` back to, or the refusal of a journal with bad framing. */
  function Replay(j: seq<byte>, main: seq<Page>): (r: Result<seq<Page>>)
    ensures r.Ok? <==> Framed(j)
    ensures r.Ok? ==> |r.value| <= MaxPages(j, Be32(j, 16), |main|)
  {
    if !Framed(j) then Err
    else
      var init := Be32(j, 16);
      Ok(Truncated(init, WalkSegments(j, 0, Be32(j, 20), MaxPages(j, init, |main|), main)))
  }

  /** Byte for byte, the journals that are replayed at all: the magic, the page size 4096, and a sector size
      that is a positive multiple of it, in at least a whole header. */
  lemma ReplayedIff(j: seq<byte>, main: seq<Page>)
    ensures Replay(j, main).Ok? <==>
      && |j| >= 28
      && j[0] == 0xd9 && j[1] == 0xd5 && j[2] == 0x05 && j[3] == 0xf9
      && j[4] == 0x20 && j[5] == 0xa1 && j[6] == 0x63 && j[7] == 0xd7
      && j[24] == 0 && j[25] == 0 && j[26] == 0x10 && j[27] == 0
      && j[20..24] != [0, 0, 0, 0] && j[22] % 16 == 0 && j[23] == 0
  {
    hide WalkSegments, FromBE;
    if |j| >= 28 {
      BytesOfBe32(j, 20);
      BytesOfBe32(j, 24);
      assert j[0..8] == [j[0], j[1], j[2], j[3], j[4], j[5], j[6], j[7]];
      assert j[20..24] == [j[20], j[21], j[22], j[23]];
    }
  }

  lemma BytesOfBe32(j: seq<byte>, at: nat)
    requires at + 4 <= |j|
    ensures
      var (b0: int, b1: int, b2: int, b3: int) := (j[at], j[at + 1], j[at + 2], j[at + 3]);
      Be32(j, at) == 0x100_0000 * b0 + 0x1_0000 * b1 + 0x100 * b2 + b3
  {
    var b := j[at..at + 4];
    assert b[..3][..2] == b[..2] && b[..2][..1] == b[..1] && b[..1][..0] == [];
    assert FromBE(b[..1]) == b[0];
    assert FromBE(b[..2]) == 256 * FromBE(b[..2][..1]) + b[1];
    assert FromBE(b[..3]) == 256 * FromBE(b[..3][..2]) + b[2];
    assert FromBE(b) == 256 * FromBE(b[..3]) + b[3];
  }

  // ---------------------------------------------------------------- the loops of the source

  method PagerChecksum(nonce: nat, page: Page) returns (sum: nat)
    ensures sum == Checksum(nonce, page)
  {
    sum := nonce;
    var i: int := BLOCK_SIZE - 200;
    while i > 0
      invariant i < BLOCK_SIZE
      invariant ChecksumFrom(sum, page, i) == Checksum(nonce, page)
    {
      sum := Wrap(sum + page[i]);
      i := i - 200;
    }
  }

  /** The record loop of `replay_journal_root`. */
  method ReplayRecords(j: seq<byte>, main: seq<Page>, start: nat, budget: Option<nat>, nonce: nat, maxPages: nat)
    returns (shadow: seq<Page>, off: nat, stopped: bool)
    requires |main| <= maxPages
    ensures Walk(shadow, off, stopped) == WalkRecords(j, Walk(main, start, false), budget, nonce, maxPages)
  {
    shadow, off, stopped := main, start, false;
    var left := budget;
    while left != Some(0) && off + RECORD_LEN <= |j|
      invariant |shadow| <= maxPages && off >= start
      invariant WalkRecords(j, Walk(shadow, off, false), left, nonce, maxPages)
             == WalkRecords(j, Walk(main, start, false), budget, nonce, maxPages)
      decreases |j| - off
    {
      var pgno := Be32(j, off);
      var page: Page := j[off + 4..off + 4 + BLOCK_SIZE];
      var stored := Be32(j, off + 4 + BLOCK_SIZE);
      var sum := PagerChecksum(nonce, page);
      assert RecordAt(j, off) == Rec(pgno, page, stored);
      if sum != stored || pgno == 0 || pgno > maxPages {
        stopped := true;
        return;
      }
      shadow := Put(shadow, pgno, page);
      if left.Some? { left := Some(left.value - 1); }
      off := off + RECORD_LEN;
    }
  }

  /** The segment loop of `replay_journal_root`. */
  method ReplaySegments(j: seq<byte>, main: seq<Page>, sector: nat, maxPages: nat) returns (shadow: seq<Page>)
    requires sector > 0 && |main| <= maxPages
    ensures shadow == WalkSegments(j, 0, sector, maxPages, main)
  {
    shadow := main;
    var seg := 0;
    hide WalkRecords, FromBE, Budget;
    while seg + HEADER_LEN <= |j| && j[seg..seg + 8] == MAGIC
      invariant |shadow| <= maxPages && WalkSegments(j, seg, sector, maxPages, shadow) == WalkSegments(j, 0, sector, maxPages, main)
      decreases |j| - seg
    {
      var nrec, nonce := Be32(j, seg + 8), Be32(j, seg + 12);
      if Be32(j, seg + 24) != BLOCK_SIZE || Be32(j, seg + 20) != sector { break; }
      var off, stopped;
      shadow, off, stopped := ReplayRecords(j, shadow, seg + sector, Budget(nrec), nonce, maxPages);
      if stopped { return; }
      seg := RoundUp(off, sector);
    }
  }

  /** `replay_journal_root`: it terminates on every byte string, and the root it returns is the root
      of `Replay`'s image. */
  method ReplayJournalRoot(j: seq<byte>, main: seq<Page>) returns (r: Result<Root>)
    ensures r == match Replay(j, main) case Ok(image) => Ok(ImageRoot(image)) case Err => Err
  {
    if |j| < HEADER_LEN || j[0..8] != MAGIC { return Err; }
    var pageSize, sector, init := Be32(j, 24), Be32(j, 20), Be32(j, 16);
    if pageSize != BLOCK_SIZE { return Err; }
    if sector == 0 || sector % BLOCK_SIZE != 0 { return Err; }
    hide WalkSegments, MaxPages, FromBE;
    var shadow := ReplaySegments(j, main, sector, MaxPages(j, init, |main|));
    if init > 0 && init < |shadow| { shadow := shadow[..init]; }
    var root := HashImage(shadow);
    r := Ok(root);
  }
}
