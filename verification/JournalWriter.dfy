/** A rollback journal written out byte by byte, and its round trip through the replay. */
module JournalWriter {
  import opened Bytes
  import opened Crypto
  import opened Journal
  import opened RollbackJournal

  function EncodeRecord(r: Rec): (b: seq<byte>)
    ensures |b| == RECORD_LEN
  {
    BE(r.pgno, 4) + r.page + BE(r.checksum, 4)
  }

  function EncodeRecords(recs: seq<Rec>): seq<byte> {
    if recs == [] then [] else EncodeRecord(recs[0]) + EncodeRecords(recs[1..])
  }

  function Zeros(n: nat): (z: seq<byte>)
    ensures |z| == n
  {
    seq(n, _ => 0 as byte)
  }

  /** A segment header, padded to the sector. */
  function EncodeHeader(s: Segment, pages: nat, sector: nat): (h: seq<byte>)
    requires sector >= HEADER_LEN
    ensures |h| == sector
  {
    MAGIC + BE(if s.counted then |s.recs| else U32_MAX, 4) + BE(s.nonce, 4) + BE(pages, 4) + BE(sector, 4)
    + BE(BLOCK_SIZE, 4) + Zeros(sector - HEADER_LEN)
  }

  function EncodeJournal(segs: seq<Segment>, pages: nat, sector: nat): seq<byte>
    requires sector >= HEADER_LEN
  {
    if segs == [] then []
    else
      var s := EncodeHeader(segs[0], pages, sector) + EncodeRecords(segs[0].recs);
      if |segs| == 1 then s
      else s + Zeros(RoundUp(|s|, sector) - |s|) + EncodeJournal(segs[1..], pages, sector)
  }

  /** Segments SQLite can write: valid records, and only the last one may leave its count open. */
  predicate Writable(segs: seq<Segment>, pages: nat) {
    && pages <= U32_MAX
    && (forall s <- segs :: s.nonce <= U32_MAX && (forall r <- s.recs :: Usable(r, s.nonce, pages)))
    && (forall i :: 0 <= i < |segs| && segs[i].counted ==> 0 < |segs[i].recs| < U32_MAX)
    && forall i :: 0 <= i < |segs| - 1 ==> segs[i].counted
  }

  lemma {:induction false} ChecksumFits(sum: nat, page: Page, i: int)
    requires i < BLOCK_SIZE && sum <= U32_MAX
    ensures ChecksumFrom(sum, page, i) <= U32_MAX
    decreases i
  {
    if i > 0 { ChecksumFits(Wrap(sum + page[i]), page, i - 200); }
  }

  lemma RecordReadsBack(before: seq<byte>, r: Rec, after: seq<byte>, nonce: nat, pages: nat)
    requires Usable(r, nonce, pages) && nonce <= U32_MAX && pages <= U32_MAX
    ensures RecordAt(before + EncodeRecord(r) + after, |before|) == r
  {
    var j := before + EncodeRecord(r) + after;
    var at := |before|;
    Widths();
    ChecksumFits(nonce, r.page, BLOCK_SIZE - 200);
    BERoundTrip(r.pgno, 4);
    BERoundTrip(r.checksum, 4);
    assert j[at..at + RECORD_LEN] == EncodeRecord(r);
    assert j[at..at + 4] == EncodeRecord(r)[..4] == BE(r.pgno, 4);
    assert j[at + 4..at + 4 + BLOCK_SIZE] == EncodeRecord(r)[4..4 + BLOCK_SIZE] == r.page;
    assert j[at + 4 + BLOCK_SIZE..at + 8 + BLOCK_SIZE] == EncodeRecord(r)[4 + BLOCK_SIZE..] == BE(r.checksum, 4);
  }

  lemma {:induction false} RecordsReadBack(before: seq<byte>, recs: seq<Rec>, after: seq<byte>, nonce: nat, pages: nat)
    requires nonce <= U32_MAX && pages <= U32_MAX && forall r <- recs :: Usable(r, nonce, pages)
    ensures RecordsAt(before + EncodeRecords(recs) + after, |before|, recs, nonce, pages)
    ensures EndOf(|before|, recs) == |before| + |EncodeRecords(recs)|
    decreases |recs|
  {
    if recs != [] {
      var r, rest := recs[0], recs[1..];
      assert before + EncodeRecords(recs) + after == before + EncodeRecord(r) + (EncodeRecords(rest) + after);
      RecordReadsBack(before, r, EncodeRecords(rest) + after, nonce, pages);
      RecordsReadBack(before + EncodeRecord(r), rest, after, nonce, pages);
      assert before + EncodeRecords(recs) + after == before + EncodeRecord(r) + EncodeRecords(rest) + after;
    }
  }

  lemma HeaderParts(s: Segment, pages: nat, sector: nat)
    requires sector >= HEADER_LEN
    ensures
      var h := EncodeHeader(s, pages, sector);
      && h[0..8] == MAGIC && h[8..12] == BE(if s.counted then |s.recs| else U32_MAX, 4) && h[12..16] == BE(s.nonce, 4)
      && h[16..20] == BE(pages, 4) && h[20..24] == BE(sector, 4) && h[24..28] == BE(BLOCK_SIZE, 4)
  {
    hide BE;
  }

  lemma HeaderReadsBack(before: seq<byte>, s: Segment, pages: nat, sector: nat, after: seq<byte>)
    requires HEADER_LEN <= sector <= U32_MAX && pages <= U32_MAX && s.nonce <= U32_MAX
    requires s.counted ==> 0 < |s.recs| < U32_MAX
    ensures
      var j, at := before + EncodeHeader(s, pages, sector) + after, |before|;
      && HeaderAt(j, at, sector) && Be32(j, at + 12) == s.nonce && Be32(j, at + 16) == pages
      && Budget(Be32(j, at + 8)) == (if s.counted then Some(|s.recs|) else None)
  {
    var h := EncodeHeader(s, pages, sector);
    var count := if s.counted then |s.recs| else U32_MAX;
    Widths();
    HeaderParts(s, pages, sector);
    BERoundTrip(count, 4);
    BERoundTrip(s.nonce, 4);
    BERoundTrip(pages, 4);
    BERoundTrip(sector, 4);
    BERoundTrip(BLOCK_SIZE, 4);
    hide BE, FromBE, EncodeHeader;
    Within(before, h, after, 0, 8);
    Within(before, h, after, 8, 12);
    Within(before, h, after, 12, 16);
    Within(before, h, after, 16, 20);
    Within(before, h, after, 20, 24);
    Within(before, h, after, 24, 28);
  }

  lemma MulAtLeast(k: int, d: int)
    requires d > 0
    ensures k >= 1 ==> k * d >= d
    ensures k <= -1 ==> k * d <= -d
  {
  }

  lemma DivUnique(x: int, d: int, q: int, r: int)
    requires d > 0 && x == q * d + r && 0 <= r < d
    ensures x / d == q
  {
    var q0, r0 := x / d, x % d;
    assert x == q0 * d + r0;
    assert (q - q0) * d == r0 - r;
    MulAtLeast(q - q0, d);
  }

  /** Rounding up commutes with a shift by whole sectors. */
  lemma RoundUpShift(q: nat, n: nat, sector: nat)
    requires sector > 0
    ensures RoundUp(q * sector + n, sector) == q * sector + RoundUp(n, sector)
  {
    var m := n + sector - 1;
    var q0, r0 := m / sector, m % sector;
    assert m == q0 * sector + r0;
    assert q * sector + m == (q + q0) * sector + r0;
    DivUnique(q * sector + m, sector, q + q0, r0);
    assert (q + q0) * sector == q * sector + q0 * sector;
  }

  function Body(segs: seq<Segment>, pages: nat, sector: nat): (b: seq<byte>)
    requires sector >= HEADER_LEN && segs != []
  {
    EncodeHeader(segs[0], pages, sector) + EncodeRecords(segs[0].recs)
  }

  /** The first segment of a written journal reads back. */
  lemma FirstReadsBack(before: seq<byte>, segs: seq<Segment>, pages: nat, sector: nat, tail: seq<byte>)
    requires segs != [] && HEADER_LEN <= sector <= U32_MAX && Writable(segs, pages)
    ensures
      var j, at, s := before + Body(segs, pages, sector) + tail, |before|, segs[0];
      && HeaderAt(j, at, sector) && Be32(j, at + 12) == s.nonce && Be32(j, at + 16) == pages
      && Budget(Be32(j, at + 8)) == (if s.counted then Some(|s.recs|) else None)
      && RecordsAt(j, at + sector, s.recs, s.nonce, pages)
      && EndOf(at + sector, s.recs) == at + |Body(segs, pages, sector)|
  {
    FirstIsWritable(segs, pages);
    hide Writable, EncodeHeader, EncodeRecords, HeaderAt, RecordsAt, EndOf, Budget, Usable, Be32;
    var s := segs[0];
    var head, recs := EncodeHeader(s, pages, sector), EncodeRecords(s.recs);
    var j := before + Body(segs, pages, sector) + tail;
    assert j == before + head + (recs + tail);
    HeaderReadsBack(before, s, pages, sector, recs + tail);
    assert j == (before + head) + recs + tail;
    RecordsReadBack(before + head, s.recs, tail, s.nonce, pages);
  }

  lemma FirstIsWritable(segs: seq<Segment>, pages: nat)
    requires segs != [] && Writable(segs, pages)
    ensures pages <= U32_MAX && segs[0].nonce <= U32_MAX && (segs[0].counted ==> 0 < |segs[0].recs| < U32_MAX)
    ensures forall r <- segs[0].recs :: Usable(r, segs[0].nonce, pages)
  {
    hide Usable;
    assert segs[0] in segs;
  }

  function Padding(segs: seq<Segment>, pages: nat, sector: nat): seq<byte>
    requires sector >= HEADER_LEN && segs != []
  {
    Zeros(RoundUp(|Body(segs, pages, sector)|, sector) - |Body(segs, pages, sector)|)
  }

  lemma EncodeCons(segs: seq<Segment>, pages: nat, sector: nat)
    requires sector >= HEADER_LEN && |segs| >= 2
    ensures EncodeJournal(segs, pages, sector) == Body(segs, pages, sector) + Padding(segs, pages, sector) + EncodeJournal(segs[1..], pages, sector)
    ensures |Body(segs, pages, sector) + Padding(segs, pages, sector)| == RoundUp(|Body(segs, pages, sector)|, sector)
  {
    hide EncodeHeader, EncodeRecords, RoundUp, Zeros;
  }

  /** A counted segment in front of segments that read back. */
  lemma FirstOfMany(before: seq<byte>, segs: seq<Segment>, pages: nat, sector: nat, q: nat, j: seq<byte>, tail: seq<byte>)
    requires |segs| >= 2 && HEADER_LEN <= sector <= U32_MAX && Writable(segs, pages) && |before| == q * sector
    requires j == before + Body(segs, pages, sector) + tail
    requires SegmentsAt(j, |before| + RoundUp(|Body(segs, pages, sector)|, sector), sector, segs[1..], pages)
    ensures SegmentsAt(j, |before|, sector, segs, pages)
  {
    hide HeaderAt, RecordsAt, Usable, EncodeHeader, EncodeRecords, Budget, RoundUp, EndOf, HasMagic, Body, Be32, FromBE;
    RoundUpShift(q, |Body(segs, pages, sector)|, sector);
    FirstReadsBack(before, segs, pages, sector, tail);
    assert segs[0].counted;
  }

  lemma OnlySegment(before: seq<byte>, segs: seq<Segment>, pages: nat, sector: nat, after: seq<byte>)
    requires |segs| == 1 && HEADER_LEN <= sector <= U32_MAX && Writable(segs, pages) && |after| < RECORD_LEN
    requires |before| + |Body(segs, pages, sector)| + |after| <= RoundUp(|before| + |Body(segs, pages, sector)|, sector)
    ensures SegmentsAt(before + Body(segs, pages, sector) + after, |before|, sector, segs, pages)
  {
    hide *;
    var j, at := before + Body(segs, pages, sector) + after, |before|;
    FirstReadsBack(before, segs, pages, sector, after);
    NoHeaderAtEnd(j, RoundUp(at + |Body(segs, pages, sector)|, sector), sector);
    SegmentsAtOne(j, at, sector, segs, pages);
  }

  lemma SegmentsAtOne(j: seq<byte>, at: nat, sector: nat, segs: seq<Segment>, pages: nat)
    requires |segs| == 1 && sector > 0 && HeaderAt(j, at, sector) && Be32(j, at + 12) == segs[0].nonce
    requires RecordsAt(j, at + sector, segs[0].recs, segs[0].nonce, pages)
    requires Budget(Be32(j, at + 8)) == (if segs[0].counted then Some(|segs[0].recs|) else None)
    requires EndOf(at + sector, segs[0].recs) + RECORD_LEN > |j|
    requires !HeaderAt(j, RoundUp(EndOf(at + sector, segs[0].recs), sector), sector)
    ensures SegmentsAt(j, at, sector, segs, pages)
  {
    hide HeaderAt, RecordsAt, Budget, RoundUp, EndOf, Be32;
    assert segs[1..] == [];
  }

  lemma NoSegments(before: seq<byte>, pages: nat, sector: nat, q: nat, after: seq<byte>)
    requires HEADER_LEN <= sector && |before| == q * sector && |before| + |after| <= RoundUp(|before|, sector)
    ensures SegmentsAt(before + after, |before|, sector, [], pages)
  {
    RoundUpShift(q, 0, sector);
    RoundUpNothing(sector);
    NoHeaderAtEnd(before + after, |before|, sector);
  }

  /** What SQLite writes is what the replay's format says, from any sector boundary, also with zeros
      behind it that fill its last block. */
  lemma {:induction false} SegmentsReadBack(before: seq<byte>, segs: seq<Segment>, pages: nat, sector: nat, q: nat, after: seq<byte>)
    requires HEADER_LEN <= sector <= U32_MAX && Writable(segs, pages) && |before| == q * sector
    requires |after| < RECORD_LEN
    requires |before| + |EncodeJournal(segs, pages, sector)| + |after| <= RoundUp(|before| + |EncodeJournal(segs, pages, sector)|, sector)
    ensures SegmentsAt(before + EncodeJournal(segs, pages, sector) + after, |before|, sector, segs, pages)
    decreases |segs|
  {
    hide Writable, SegmentsAt, EncodeHeader, EncodeRecords, RoundUp, Body, Padding;
    if segs == [] {
      assert before + EncodeJournal(segs, pages, sector) + after == before + after;
      NoSegments(before, pages, sector, q, after);
    } else if |segs| == 1 {
      EncodeOne(segs, pages, sector);
      OnlySegment(before, segs, pages, sector, after);
    } else {
      hide EncodeJournal;
      EncodeCons(segs, pages, sector);
      RestWritable(segs, pages);
      var (body, pad, rest) := (Body(segs, pages, sector), Padding(segs, pages, sector), EncodeJournal(segs[1..], pages, sector));
      var k := WholeSectors(q, |body|, sector);
      Regrouped(before, body, pad, rest, after);
      SegmentsReadBack(before + body + pad, segs[1..], pages, sector, k, after);
      FirstOfMany(before, segs, pages, sector, q, before + body + (pad + rest + after), pad + rest + after);
    }
  }

  lemma EncodeOne(segs: seq<Segment>, pages: nat, sector: nat)
    requires |segs| == 1 && sector >= HEADER_LEN
    ensures EncodeJournal(segs, pages, sector) == Body(segs, pages, sector)
  {
  }

  lemma Regrouped(a: seq<byte>, b: seq<byte>, c: seq<byte>, d: seq<byte>, e: seq<byte>)
    ensures a + (b + c + d) + e == (a + b + c) + d + e == a + b + (c + d + e)
    ensures |a + b + c| == |a| + |b + c|
  {
  }

  lemma RoundUpNothing(sector: nat)
    requires sector > 0
    ensures RoundUp(0, sector) == 0
  {
    assert (sector - 1) / sector == 0;
  }

  lemma NoHeaderAtEnd(j: seq<byte>, at: nat, sector: nat)
    requires at >= |j|
    ensures !HeaderAt(j, at, sector)
  {
  }

  lemma RestWritable(segs: seq<Segment>, pages: nat)
    requires segs != [] && Writable(segs, pages)
    ensures Writable(segs[1..], pages)
  {
    forall t | t in segs[1..] ensures t in segs {}
    forall i | 0 <= i < |segs| - 1 ensures segs[1..][i] == segs[i + 1] {}
  }

  function WholeSectors(q: nat, n: nat, sector: nat): (k: nat)
    requires sector > 0
    ensures k * sector == q * sector + RoundUp(n, sector)
  {
    var k := (n + sector - 1) / sector;
    assert (q + k) * sector == q * sector + k * sector;
    q + k
  }

  /** Rounding up to whole blocks never goes past whole sectors. */
  lemma BlocksInSectors(n: nat, sector: nat)
    requires sector > 0 && sector % BLOCK_SIZE == 0
    ensures RoundUp(n, BLOCK_SIZE) <= RoundUp(n, sector)
  {
    var k, m := (n + sector - 1) / sector, sector / BLOCK_SIZE;
    assert sector == m * BLOCK_SIZE && k * sector == (k * m) * BLOCK_SIZE;
  }

  /** A written journal, and whatever zeros fill its last block, is a journal of its segments. */
  lemma WrittenJournals(segs: seq<Segment>, pages: nat, sector: nat, after: seq<byte>)
    requires segs != [] && BLOCK_SIZE <= sector <= U32_MAX && sector % BLOCK_SIZE == 0 && Writable(segs, pages)
    requires |EncodeJournal(segs, pages, sector)| + |after| <= RoundUp(|EncodeJournal(segs, pages, sector)|, BLOCK_SIZE)
    ensures Journals(EncodeJournal(segs, pages, sector) + after, segs, pages)
  {
    hide Writable, EncodeHeader, EncodeRecords, EncodeJournal, SegmentsAt, RoundUp, Framed;
    var j := EncodeJournal(segs, pages, sector);
    BlocksInSectors(|j|, sector);
    SegmentsReadBack([], segs, pages, sector, 0, after);
    assert [] + j + after == j + after;
    FramedReadsBack(segs, pages, sector, after);
  }

  /** Write a journal of any number of segments with the pre-images of every page that differs; replay it
      over whatever reached the main file: the pre-transaction image comes back. */
  lemma JournalRoundTrip(segs: seq<Segment>, sector: nat, pre: seq<Page>, main: seq<Page>)
    requires segs != [] && BLOCK_SIZE <= sector <= U32_MAX && sector % BLOCK_SIZE == 0
    requires 0 < |pre| && Writable(segs, |pre|)
    requires Covers(pre, main, AllRecords(segs))
    ensures Replay(EncodeJournal(segs, |pre|, sector), main) == Ok(pre)
  {
    hide Covers, AllRecords, Writable, EncodeHeader, EncodeRecords, EncodeJournal, Journals, RoundUp;
    var j := EncodeJournal(segs, |pre|, sector);
    assert j + [] == j && RoundUp(|j|, BLOCK_SIZE) >= |j|;
    WrittenJournals(segs, |pre|, sector, []);
    ReplayRestores(j, segs, pre, main);
  }

  lemma FramedReadsBack(segs: seq<Segment>, pages: nat, sector: nat, after: seq<byte>)
    requires segs != [] && BLOCK_SIZE <= sector <= U32_MAX && sector % BLOCK_SIZE == 0 && Writable(segs, pages)
    ensures
      var j := EncodeJournal(segs, pages, sector) + after;
      Framed(j) && Be32(j, 20) == sector && Be32(j, 16) == pages && MAGIC <= j
  {
    BodyLeads(segs, pages, sector);
    hide *;
    var j, body := EncodeJournal(segs, pages, sector) + after, Body(segs, pages, sector);
    Split(body, EncodeJournal(segs, pages, sector), after);
    FirstHeader(segs, pages, sector, j[|body|..]);
    HeaderFrames(j, sector);
  }

  lemma Split(a: seq<byte>, b: seq<byte>, c: seq<byte>)
    requires a <= b
    ensures |a| <= |b + c| && a + (b + c)[|a|..] == b + c
  {
  }

  lemma FirstHeader(segs: seq<Segment>, pages: nat, sector: nat, tail: seq<byte>)
    requires segs != [] && BLOCK_SIZE <= sector <= U32_MAX && Writable(segs, pages)
    ensures
      var j := Body(segs, pages, sector) + tail;
      HeaderAt(j, 0, sector) && |j| >= 20 && Be32(j, 16) == pages
  {
    hide Writable, Body, Be32, RecordsAt, EndOf, Budget;
    FirstReadsBack([], segs, pages, sector, tail);
    assert [] + Body(segs, pages, sector) + tail == Body(segs, pages, sector) + tail;
  }

  lemma HeaderFrames(j: seq<byte>, sector: nat)
    requires HeaderAt(j, 0, sector) && sector > 0 && sector % BLOCK_SIZE == 0
    ensures Framed(j) && Be32(j, 20) == sector && MAGIC <= j
  {
    hide Be32;
    assert j[..8] == j[0..8];
  }

  lemma BodyLeads(segs: seq<Segment>, pages: nat, sector: nat)
    requires segs != [] && sector >= HEADER_LEN
    ensures Body(segs, pages, sector) <= EncodeJournal(segs, pages, sector)
  {
    hide EncodeHeader, EncodeRecords, RoundUp, Zeros;
  }
}
