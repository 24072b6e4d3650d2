/** The byte formats of the manifest payload, the anchor and the rotation intent (manifest.rs, vfs.rs). */
module ManifestCodec {
  import opened Bytes
  import Utf8
  import A = Anchor
  import C = Crypto
  import M = Manifest
  import R = Rotation

  const BLOCK_SIZE := 4096
  const MANIFEST_VERSION: nat := 2
  const CIPHER_ID: byte := 1
  const PREV_ROOT_OFFSET := 4064
  const TABLE := 68
  const STRIDE := 24
  /** How many file lengths fit before the previous root. */
  const MAX_FILES := 166

  type Id16 = b: seq<byte> | |b| == 16 witness seq(16, _ => 0)
  type Hash = b: seq<byte> | |b| == 32 witness seq(32, _ => 0)

  datatype FileLength = FileLength(file: Id16, length: nat)

  datatype Payload = Payload(generation: nat, uuid: Id16, root: Hash, prevRoot: Hash, files: seq<FileLength>)

  function Zeros(n: nat): (z: seq<byte>)
    ensures |z| == n
  {
    seq(n, _ => 0)
  }

  /** Integers fit their fields. */
  predicate Fits(p: Payload) {
    p.generation <= U64_MAX && forall f <- p.files :: f.length <= U64_MAX
  }

  // ---------------------------------------------------------------- the manifest payload

  function FileEntry(f: FileLength): (b: seq<byte>)
    ensures |b| == STRIDE
  {
    f.file + LE(f.length, 8)
  }

  function FileTable(files: seq<FileLength>): (b: seq<byte>)
    ensures |b| == STRIDE * |files| && |b| % STRIDE == 0
  {
    if files == [] then [] else FileTable(files[..|files| - 1]) + FileEntry(files[|files| - 1])
  }

  /** Everything before the file table. */
  function Head(p: Payload): (b: seq<byte>)
    ensures |b| == TABLE
  {
    LE(MANIFEST_VERSION, 2) + [CIPHER_ID, 0] + LE(BLOCK_SIZE, 4) + LE(p.generation, 8) + p.uuid + p.root + LE(|p.files|, 4)
  }

  /** The block of a payload whose table stays clear of the previous root. */
  function Encoded(p: Payload): (b: seq<byte>)
    requires |p.files| <= MAX_FILES
    ensures |b| == BLOCK_SIZE
  {
    Head(p) + FileTable(p.files) + Zeros(PREV_ROOT_OFFSET - TABLE - STRIDE * |p.files|) + p.prevRoot
  }

  function ReadFile(e: seq<byte>): FileLength
    requires |e| == STRIDE
  {
    FileLength(e[..16], FromLE(e[16..]))
  }

  function ReadFiles(t: seq<byte>): seq<FileLength>
    requires |t| % STRIDE == 0
    decreases |t|
  {
    if t == [] then [] else ReadFiles(t[..|t| - STRIDE]) + [ReadFile(t[|t| - STRIDE..])]
  }

  lemma {:induction false} FileTableAt(files: seq<FileLength>, i: nat)
    requires i < |files|
    ensures 24 * i + 24 <= |FileTable(files)|
    ensures FileTable(files)[24 * i..24 * i + 24] == files[i].file + LE(files[i].length, 8)
    decreases |files|
  {
    var n := |files| - 1;
    var (x, y) := (FileTable(files[..n]), FileEntry(files[n]));
    hide LE, FileEntry;
    if i < n {
      FileTableAt(files[..n], i);
      assert (x + y)[24 * i..24 * i + 24] == x[24 * i..24 * i + 24];
    } else {
      assert (x + y)[24 * n..24 * n + 24] == y;
      EntryIs(files[n]);
    }
  }

  lemma EntryIs(f: FileLength)
    ensures FileEntry(f) == f.file + LE(f.length, 8)
  {
  }

  /** Where each field of the payload stands in its block. */
  lemma PayloadLayout(p: Payload, i: nat)
    requires |p.files| <= MAX_FILES
    ensures
      var b := Encoded(p);
      && |b| == 4096 && b[0] == 2 && b[1] == 0 && b[2] == 1 && b[3] == 0 && b[4] == 0 && b[5] == 0x10 && b[6] == 0 && b[7] == 0
      && b[8..16] == LE(p.generation, 8) && b[16..32] == p.uuid && b[32..64] == p.root && b[64..68] == LE(|p.files|, 4)
      && b[4064..4096] == p.prevRoot
      && (i < |p.files| ==> b[68 + 24 * i..92 + 24 * i] == p.files[i].file + LE(p.files[i].length, 8))
  {
    HeadLayout(p);
    if i < |p.files| { FileTableAt(p.files, i); }
    hide *;
    PayloadParts(p);
    FourParts(Head(p), FileTable(p.files), Encoded(p)[68 + |FileTable(p.files)|..4064], p.prevRoot, i);
  }

  lemma PayloadParts(p: Payload)
    requires |p.files| <= MAX_FILES
    ensures |Encoded(p)| == 4096 && |Head(p)| == 68 && |FileTable(p.files)| == 24 * |p.files| <= 3996
    ensures Encoded(p) == Head(p) + FileTable(p.files) + Encoded(p)[68 + |FileTable(p.files)|..4064] + p.prevRoot
  {
    hide Head, FileTable;
  }

  lemma FourParts(head: seq<byte>, table: seq<byte>, zeros: seq<byte>, prev: seq<byte>, i: nat)
    requires |head| == 68 && |table| <= 3996 && |zeros| == 3996 - |table| && |prev| == 32
    ensures
      var b := head + table + zeros + prev;
      && |b| == 4096 && (forall k :: 0 <= k < 68 ==> b[k] == head[k]) && b[8..16] == head[8..16] && b[16..32] == head[16..32]
      && b[32..64] == head[32..64] && b[64..68] == head[64..68] && b[4064..4096] == prev
      && (24 * i + 24 <= |table| ==> b[68 + 24 * i..92 + 24 * i] == table[24 * i..24 * i + 24])
  {
    var b := head + table + zeros + prev;
    Within([], head, table + zeros + prev, 8, 16);
    Within([], head, table + zeros + prev, 16, 32);
    Within([], head, table + zeros + prev, 32, 64);
    Within([], head, table + zeros + prev, 64, 68);
    Within(head + table + zeros, prev, [], 0, 32);
    assert [] + head + (table + zeros + prev) == b && head + table + zeros + prev + [] == b;
    if 24 * i + 24 <= |table| {
      Within(head, table, zeros + prev, 24 * i, 24 * i + 24);
      assert head + table + (zeros + prev) == b;
    }
  }

  lemma HeadLayout(p: Payload)
    ensures
      var b := Head(p);
      && b[0] == 2 && b[1] == 0 && b[2] == 1 && b[3] == 0 && b[4] == 0 && b[5] == 0x10 && b[6] == 0 && b[7] == 0
      && b[8..16] == LE(p.generation, 8) && b[16..32] == p.uuid && b[32..64] == p.root && b[64..68] == LE(|p.files|, 4)
  {
    Constants();
    hide LE;
    var (v, s) := (LE(MANIFEST_VERSION, 2), LE(BLOCK_SIZE, 4));
    assert Head(p) == v + [CIPHER_ID, 0] + s + LE(p.generation, 8) + p.uuid + p.root + LE(|p.files|, 4);
  }

  lemma Constants()
    ensures LE(MANIFEST_VERSION, 2) == [2, 0] && LE(BLOCK_SIZE, 4) == [0, 0x10, 0, 0]
  {
    assert LE(0, 0) == [] && LE(0, 1) == [0] && LE(0, 2) == [0, 0];
    assert LE(16, 3) == [16] + LE(0, 2);
  }

  /** `ManifestPayload::decode`. */
  function Decoded(b: seq<byte>): Option<Payload> {
    if |b| != BLOCK_SIZE || FromLE(b[0..2]) != MANIFEST_VERSION || b[2] != CIPHER_ID || FromLE(b[4..8]) != BLOCK_SIZE then None
    else
      var n := FromLE(b[64..68]);
      if n > MAX_FILES then None
      else Some(Payload(FromLE(b[8..16]), b[16..32], b[32..64], b[PREV_ROOT_OFFSET..], ReadFiles(b[TABLE..TABLE + STRIDE * n])))
  }

  lemma FileEntryReads(f: FileLength)
    requires f.length <= U64_MAX
    ensures ReadFile(FileEntry(f)) == f
  {
    var len := LE(f.length, 8);
    Widths();
    LERoundTrip(f.length, 8);
    hide LE, FromLE;
    assert FileEntry(f)[..16] == f.file && FileEntry(f)[16..] == len;
  }

  lemma FilesAppend(t: seq<byte>, e: seq<byte>)
    requires |t| % STRIDE == 0 && |e| == STRIDE
    ensures ReadFiles(t + e) == ReadFiles(t) + [ReadFile(e)]
  {
    hide ReadFile;
    var whole := t + e;
    assert whole != [] && whole[..|whole| - STRIDE] == t && whole[|whole| - STRIDE..] == e;
  }

  lemma {:induction false} TableReadsBack(files: seq<FileLength>)
    requires forall i :: 0 <= i < |files| ==> files[i].length <= U64_MAX
    ensures ReadFiles(FileTable(files)) == files
  {
    if files != [] {
      var k := |files| - 1;
      assert files == files[..k] + [files[k]];
      LastInTable(files);
      hide FileTable, ReadFiles, ReadFile, FileEntry;
      TableReadsBack(files[..k]);
      FilesAppend(FileTable(files[..k]), FileEntry(files[k]));
      FileEntryReads(files[k]);
    }
  }

  lemma LastInTable(files: seq<FileLength>)
    requires files != []
    ensures FileTable(files) == FileTable(files[..|files| - 1]) + FileEntry(files[|files| - 1])
  {
  }

  /** A block that starts with the head of `p`. */
  lemma HeadReadsBack(p: Payload, b: seq<byte>)
    requires |b| == BLOCK_SIZE && b[..TABLE] == Head(p) && p.generation <= U64_MAX && |p.files| <= U32_MAX
    ensures FromLE(b[0..2]) == MANIFEST_VERSION && b[2] == CIPHER_ID && FromLE(b[4..8]) == BLOCK_SIZE
    ensures FromLE(b[8..16]) == p.generation && b[16..32] == p.uuid && b[32..64] == p.root && FromLE(b[64..68]) == |p.files|
  {
    var h := Head(p);
    var (a, c, d, e) := (LE(MANIFEST_VERSION, 2), LE(BLOCK_SIZE, 4), LE(p.generation, 8), LE(|p.files|, 4));
    assert h == a + [CIPHER_ID, 0] + c + d + p.uuid + p.root + e;
    Widths();
    LERoundTrip(MANIFEST_VERSION, 2);
    LERoundTrip(BLOCK_SIZE, 4);
    LERoundTrip(p.generation, 8);
    LERoundTrip(|p.files|, 4);
    hide LE, FromLE, Head;
    assert b[0..2] == h[0..2] == a;
    assert b[4..8] == h[4..8] == c;
    assert b[8..16] == h[8..16] == d;
    assert b[16..32] == h[16..32] == p.uuid && b[32..64] == h[32..64] == p.root;
    assert b[64..68] == h[64..68] == e;
    assert b[2] == h[2];
  }

  lemma BlockParts(head: seq<byte>, table: seq<byte>, pad: seq<byte>, tail: seq<byte>)
    requires |head| == TABLE && |head| + |table| + |pad| == PREV_ROOT_OFFSET
    ensures
      var b := head + table + pad + tail;
      b[..TABLE] == head && b[TABLE..TABLE + |table|] == table && b[PREV_ROOT_OFFSET..] == tail
  {
  }

  /** A block made of its parts decodes to them. */
  lemma PartsDecode(p: Payload, b: seq<byte>)
    requires |b| == BLOCK_SIZE && b[..TABLE] == Head(p) && p.generation <= U64_MAX && |p.files| <= MAX_FILES
    requires b[PREV_ROOT_OFFSET..] == p.prevRoot && ReadFiles(b[TABLE..TABLE + STRIDE * |p.files|]) == p.files
    ensures Decoded(b) == Some(p)
  {
    hide Head, ReadFiles, FromLE;
    HeadReadsBack(p, b);
  }

  /** Up to 166 files round-trip, and the table never touches the previous root. */
  lemma PayloadRoundTrip(p: Payload)
    requires Fits(p) && |p.files| <= MAX_FILES
    ensures Decoded(Encoded(p)) == Some(p)
  {
    hide Head, FileTable, ReadFiles, Zeros, Decoded;
    BlockParts(Head(p), FileTable(p.files), Zeros(PREV_ROOT_OFFSET - TABLE - STRIDE * |p.files|), p.prevRoot);
    forall i | 0 <= i < |p.files| ensures p.files[i].length <= U64_MAX { assert p.files[i] in p.files; }
    TableReadsBack(p.files);
    PartsDecode(p, Encoded(p));
  }

  /** The table loop of `encode`: `None` is the panic of a copy that would leave the block. */
  method FillTable(b: array<byte>, files: seq<FileLength>) returns (ok: bool)
    requires b.Length == BLOCK_SIZE
    modifies b
    ensures ok <==> |files| <= MAX_FILES + 1
    ensures ok ==> b[..] == old(b[..TABLE]) + FileTable(files) + old(b[TABLE + STRIDE * |files|..])
  {
    hide FileTable, FileEntry;
    ghost var was := b[..];
    var at := TABLE;
    TableOfNone();
    assert files[..0] == [] && files[..|files|] == files;
    for i := 0 to |files|
      invariant at == TABLE + STRIDE * i <= BLOCK_SIZE
      invariant b[..] == was[..TABLE] + FileTable(files[..i]) + was[at..]
    {
      if at + STRIDE > BLOCK_SIZE { return false; }
      ghost var before := b[..];
      TableGrows(files, i);
      CopyInto(b, at, FileEntry(files[i]));
      assert before[..at] == was[..TABLE] + FileTable(files[..i]);
      assert before[at + STRIDE..] == was[at + STRIDE..];
      at := at + STRIDE;
    }
    ok := true;
  }

  /** `encode`: a zeroed block filled in place. With 167 files the table runs into the previous root; with
      more a copy leaves the block, which is the panic `None`. The decoder takes the block back exactly up
      to 166 files. */
  method Encode(p: Payload) returns (r: Option<array<byte>>)
    requires Fits(p)
    ensures r.None? <==> |p.files| > MAX_FILES + 1
    ensures r.Some? ==> fresh(r.value) && r.value.Length == BLOCK_SIZE
    ensures |p.files| <= MAX_FILES ==> r.value[..] == Encoded(p)
    ensures r.Some? ==> Decoded(r.value[..]) == if |p.files| <= MAX_FILES then Some(p) else None
  {
    hide Head, FileTable, FileEntry, LE, FromLE, ReadFiles;
    var b := new byte[BLOCK_SIZE](_ => 0);
    assert b[..] == Zeros(BLOCK_SIZE);
    CopyInto(b, 0, Head(p));
    CopyInto(b, PREV_ROOT_OFFSET, p.prevRoot);
    ghost var empty := b[..];
    assert empty == Head(p) + Zeros(PREV_ROOT_OFFSET - TABLE) + p.prevRoot;
    var ok := FillTable(b, p.files);
    if !ok { return None; }
    ghost var tail := empty[TABLE + STRIDE * |p.files|..];
    assert b[..] == Head(p) + FileTable(p.files) + tail;
    if |p.files| <= MAX_FILES {
      assert tail == Zeros(PREV_ROOT_OFFSET - TABLE - STRIDE * |p.files|) + p.prevRoot;
      EncodedIs(p, b[..], tail);
      PayloadRoundTrip(p);
    } else {
      assert b[..TABLE] == Head(p);
      HeadReadsBack(p, b[..]);
    }
    r := Some(b);
  }

  lemma TableOfNone()
    ensures FileTable([]) == []
  {
  }

  lemma EncodedIs(p: Payload, b: seq<byte>, tail: seq<byte>)
    requires |p.files| <= MAX_FILES && b == Head(p) + FileTable(p.files) + tail
    requires tail == Zeros(PREV_ROOT_OFFSET - TABLE - STRIDE * |p.files|) + p.prevRoot
    ensures b == Encoded(p)
  {
    hide Head, FileTable, Zeros;
  }

  lemma TableGrows(files: seq<FileLength>, i: nat)
    requires i < |files|
    ensures FileTable(files[..i + 1]) == FileTable(files[..i]) + FileEntry(files[i])
  {
    assert files[..i + 1][..i] == files[..i];
  }

  lemma OneMoreFile(b: seq<byte>, i: nat)
    requires TABLE + STRIDE * i + STRIDE <= |b|
    ensures
      var at := TABLE + STRIDE * i;
      ReadFiles(b[TABLE..at + STRIDE]) == ReadFiles(b[TABLE..at]) + [FileLength(b[at..at + 16], FromLE(b[at + 16..at + 24]))]
  {
    hide FromLE, ReadFiles;
    var at := TABLE + STRIDE * i;
    EntryBehind(b[..at + STRIDE][TABLE..], b[TABLE..at], b[at..at + STRIDE]);
    SliceOfSlice(b, at, at + STRIDE, 0, 16);
    SliceOfSlice(b, at, at + STRIDE, 16, STRIDE);
  }

  lemma EntryBehind(whole: seq<byte>, t: seq<byte>, e: seq<byte>)
    requires |t| % STRIDE == 0 && |e| == STRIDE && whole == t + e
    ensures |whole| % STRIDE == 0 && ReadFiles(whole) == ReadFiles(t) + [FileLength(e[0..16], FromLE(e[16..24]))]
  {
    hide FromLE, ReadFiles;
    FilesAppend(t, e);
    assert e[..16] == e[0..16] && e[16..] == e[16..24];
  }

  /** The table loop of `decode`. */
  method DecodeBlock(b: seq<byte>) returns (r: Option<Payload>)
    ensures r == Decoded(b)
  {
    if |b| != BLOCK_SIZE || FromLE(b[0..2]) != MANIFEST_VERSION || b[2] != CIPHER_ID || FromLE(b[4..8]) != BLOCK_SIZE {
      return None;
    }
    var n := FromLE(b[64..68]);
    if n > MAX_FILES { return None; }
    assert ReadFiles(b[TABLE..TABLE]) == [];
    hide ReadFiles, FromLE;
    var files: seq<FileLength> := [];
    for i := 0 to n
      invariant files == ReadFiles(b[TABLE..TABLE + STRIDE * i])
    {
      var at := TABLE + STRIDE * i;
      OneMoreFile(b, i);
      files := files + [FileLength(b[at..at + 16], FromLE(b[at + 16..at + 24]))];
    }
    r := Some(Payload(FromLE(b[8..16]), b[16..32], b[32..64], b[PREV_ROOT_OFFSET..], files));
  }

  // ---------------------------------------------------------------- the anchor

  /** `ENCANCH2`. */
  const ANCHOR_MAGIC: seq<byte> := [0x45, 0x4e, 0x43, 0x41, 0x4e, 0x43, 0x48, 0x32]
  const ANCHOR_ENTRY := 40
  const ANCHOR_CAP := A.ANCHOR_CAP

  datatype AnchorEntry = AnchorEntry(uuid: Id16, committed: nat, inFlight: nat, epochFloor: nat)

  predicate EntryFits(e: AnchorEntry) {
    e.committed <= U64_MAX && e.inFlight <= U64_MAX && e.epochFloor <= U64_MAX
  }

  function AnchorBytes(e: AnchorEntry): (b: seq<byte>)
    ensures |b| == ANCHOR_ENTRY
  {
    e.uuid + LE(e.committed, 8) + LE(e.inFlight, 8) + LE(e.epochFloor, 8)
  }

  function AnchorTable(es: seq<AnchorEntry>): (b: seq<byte>)
    ensures |b| == ANCHOR_ENTRY * |es| && |b| % ANCHOR_ENTRY == 0
  {
    if es == [] then [] else AnchorBytes(es[0]) + AnchorTable(es[1..])
  }

  /** `encode_anchor`: entries beyond the capacity are dropped. */
  function EncodedAnchor(seqno: nat, es: seq<AnchorEntry>): (b: seq<byte>)
    ensures |b| == BLOCK_SIZE
  {
    var kept := es[..Min(|es|, ANCHOR_CAP)];
    ANCHOR_MAGIC + LE(seqno, 8) + LE(|kept|, 4) + AnchorTable(kept) + Zeros(BLOCK_SIZE - 20 - ANCHOR_ENTRY * |kept|)
  }

  function ReadEntry(t: seq<byte>): AnchorEntry
    requires |t| >= ANCHOR_ENTRY
  {
    AnchorEntry(t[..16], FromLE(t[16..24]), FromLE(t[24..32]), FromLE(t[32..40]))
  }

  function ReadEntries(t: seq<byte>): seq<AnchorEntry>
    requires |t| % ANCHOR_ENTRY == 0
    decreases |t|
  {
    if t == [] then [] else [ReadEntry(t)] + ReadEntries(t[ANCHOR_ENTRY..])
  }

  /** `decode_anchor`. */
  function DecodedAnchor(b: seq<byte>): Option<(nat, seq<AnchorEntry>)> {
    if |b| != BLOCK_SIZE || b[..8] != ANCHOR_MAGIC then None
    else
      var n := Min(FromLE(b[16..20]), ANCHOR_CAP);
      Some((FromLE(b[8..16]), ReadEntries(b[20..20 + ANCHOR_ENTRY * n])))
  }

  lemma EntryReadsBack(e: AnchorEntry, rest: seq<byte>)
    requires EntryFits(e)
    ensures ReadEntry(AnchorBytes(e) + rest) == e && (AnchorBytes(e) + rest)[ANCHOR_ENTRY..] == rest
  {
    var (c, f, l) := (LE(e.committed, 8), LE(e.inFlight, 8), LE(e.epochFloor, 8));
    var t := AnchorBytes(e) + rest;
    assert t == e.uuid + c + f + l + rest;
    Widths();
    LERoundTrip(e.committed, 8);
    LERoundTrip(e.inFlight, 8);
    LERoundTrip(e.epochFloor, 8);
    hide LE, FromLE, AnchorBytes;
    assert t[..16] == e.uuid && t[16..24] == c && t[24..32] == f && t[32..40] == l;
  }

  lemma {:induction false} EntriesReadBack(es: seq<AnchorEntry>)
    requires forall e <- es :: EntryFits(e)
    ensures ReadEntries(AnchorTable(es)) == es
  {
    if es != [] {
      assert es[0] in es && forall e <- es[1..] :: e in es;
      EntryReadsBack(es[0], AnchorTable(es[1..]));
      EntriesReadBack(es[1..]);
      hide AnchorBytes, ReadEntry, EntryFits;
      assert es == [es[0]] + es[1..];
    }
  }

  lemma {:induction false} AnchorTableAt(es: seq<AnchorEntry>, i: nat)
    requires i < |es|
    ensures 40 * i + 40 <= |AnchorTable(es)|
    ensures AnchorTable(es)[40 * i..40 * i + 40] == es[i].uuid + LE(es[i].committed, 8) + LE(es[i].inFlight, 8) + LE(es[i].epochFloor, 8)
    decreases i
  {
    var (x, y) := (AnchorBytes(es[0]), AnchorTable(es[1..]));
    if i == 0 {
      hide LE;
      assert (x + y)[..40] == x;
    } else {
      AnchorTableAt(es[1..], i - 1);
      assert AnchorTable(es) == x + y && es[1..][i - 1] == es[i];
      hide *;
      Within(x, y, [], 40 * i - 40, 40 * i);
      assert x + y + [] == x + y;
    }
  }

  /** Where each field of the anchor stands in its block. */
  lemma AnchorLayout(seqno: nat, es: seq<AnchorEntry>, i: nat)
    ensures
      var b := EncodedAnchor(seqno, es);
      && |b| == 4096 && (forall k :: 0 <= k < 8 ==> b[k] == "ENCANCH2"[k] as int)
      && b[8..16] == LE(seqno, 8) && b[16..20] == LE(Min(|es|, 101), 4)
      && (i < |es| && i < 101 ==>
           b[20 + 40 * i..60 + 40 * i] == es[i].uuid + LE(es[i].committed, 8) + LE(es[i].inFlight, 8) + LE(es[i].epochFloor, 8))
  {
    var kept := es[..Min(|es|, ANCHOR_CAP)];
    if i < |kept| { AnchorTableAt(kept, i); }
    var t := "ENCANCH2";
    assert |ANCHOR_MAGIC| == 8 && forall k :: 0 <= k < 8 ==> ANCHOR_MAGIC[k] == t[k] as int;
    AnchorParts(seqno, es);
    assert |kept| == Min(|es|, 101) && ANCHOR_CAP == 101 && ANCHOR_ENTRY == 40;
    assert forall k :: 0 <= k < |kept| ==> kept[k] == es[k];
    var table := AnchorTable(kept);
    hide *;
    ThreeParts(ANCHOR_MAGIC, LE(seqno, 8), LE(|kept|, 4), table, EncodedAnchor(seqno, es)[20 + |table|..], i);
  }

  lemma AnchorParts(seqno: nat, es: seq<AnchorEntry>)
    ensures
      var (b, table) := (EncodedAnchor(seqno, es), AnchorTable(es[..Min(|es|, ANCHOR_CAP)]));
      && |b| == 4096 && |table| <= 4076
      && b == ANCHOR_MAGIC + LE(seqno, 8) + LE(Min(|es|, ANCHOR_CAP), 4) + table + b[20 + |table|..]
  {
    hide LE, AnchorTable;
  }

  lemma ThreeParts(magic: seq<byte>, seqno: seq<byte>, count: seq<byte>, table: seq<byte>, rest: seq<byte>, i: nat)
    requires |magic| == 8 && |seqno| == 8 && |count| == 4
    ensures
      var b := magic + seqno + count + table + rest;
      && (forall k :: 0 <= k < 8 ==> b[k] == magic[k]) && b[8..16] == seqno && b[16..20] == count
      && b[20..20 + |table|] == table
      && (40 * i + 40 <= |table| ==> b[20 + 40 * i..60 + 40 * i] == table[40 * i..40 * i + 40])
  {
    var b := magic + seqno + count + table + rest;
    Within(magic + seqno + count, table, rest, 0, |table|);
    Within(magic, seqno, count + table + rest, 0, 8);
    Within(magic + seqno, count, table + rest, 0, 4);
    assert magic + seqno + (count + table + rest) == b && magic + seqno + count + (table + rest) == b;
    if 40 * i + 40 <= |table| { Within(magic + seqno + count, table, rest, 40 * i, 40 * i + 40); }
  }

  /** The anchor round-trips, truncated to the 101 entries that fit. */
  lemma AnchorRoundTrip(seqno: nat, es: seq<AnchorEntry>)
    requires seqno <= U64_MAX && forall e <- es :: EntryFits(e)
    ensures DecodedAnchor(EncodedAnchor(seqno, es)) == Some((seqno, es[..Min(|es|, ANCHOR_CAP)]))
  {
    var kept := es[..Min(|es|, ANCHOR_CAP)];
    Widths();
    LERoundTrip(seqno, 8);
    LERoundTrip(|kept|, 4);
    assert forall e <- kept :: e in es;
    EntriesReadBack(kept);
    AnchorParts(seqno, es);
    var table := AnchorTable(kept);
    ThreeParts(ANCHOR_MAGIC, LE(seqno, 8), LE(|kept|, 4), table, EncodedAnchor(seqno, es)[20 + |table|..], 0);
    hide LE, FromLE, AnchorTable, EncodedAnchor, ReadEntries;
    assert EncodedAnchor(seqno, es)[..8] == ANCHOR_MAGIC;
  }

  // ---------------------------------------------------------------- the rotation intent

  /** `FRI2`. */
  const INTENT_MAGIC: seq<byte> := [0x46, 0x52, 0x49, 0x32]

  datatype Intent = Intent(oldGen: nat, newGen: nat, names: seq<seq<byte>>, anchors: seq<AnchorEntry>)

  function NameBytes(n: seq<byte>): seq<byte> {
    [|n| % 256] + n
  }

  function NameList(names: seq<seq<byte>>): seq<byte> {
    if names == [] then [] else NameBytes(names[0]) + NameList(names[1..])
  }

  predicate Recordable(i: Intent) {
    |i.names| <= U16_MAX && |i.anchors| <= ANCHOR_CAP && forall n <- i.names :: |n| <= 255
  }

  /** `encode_rotation_intent`. */
  function EncodedIntent(i: Intent): Option<seq<byte>> {
    if !Recordable(i) then None
    else Some(INTENT_MAGIC + LE(i.oldGen, 8) + LE(i.newGen, 8) + LE(|i.names|, 2) + NameList(i.names)
              + LE(|i.anchors|, 2) + AnchorTable(i.anchors))
  }

  /** The name loop of the parser: the names and what is left. */
  function TakeNames(b: seq<byte>, n: nat): Option<(seq<seq<byte>>, seq<byte>)>
    decreases n
  {
    if n == 0 then Some(([], b))
    else if b == [] || 1 + b[0] > |b| || !Utf8.Valid(b[1..1 + b[0]]) then None
    else
      match TakeNames(b[1 + b[0]..], n - 1)
      case None => None
      case Some((rest, left)) => Some(([b[1..1 + b[0]]] + rest, left))
  }

  /** `parse_rotation_intent`: the generations are skipped, and so are bytes behind the anchors. */
  function ParsedIntent(b: seq<byte>): Option<(seq<seq<byte>>, seq<AnchorEntry>)> {
    if |b| < 22 || b[..4] != INTENT_MAGIC then None
    else
      match TakeNames(b[22..], FromLE(b[20..22]))
      case None => None
      case Some((names, left)) =>
        if |left| < 2 then None
        else
          var n := FromLE(left[..2]);
          if n > ANCHOR_CAP || 2 + ANCHOR_ENTRY * n > |left| then None
          else Some((names, ReadEntries(left[2..2 + ANCHOR_ENTRY * n])))
  }

  lemma OneName(n: seq<byte>, rest: seq<byte>)
    requires |n| <= 255
    ensures
      var b := NameBytes(n) + rest;
      b != [] && b[0] == |n| && b[1..1 + |n|] == n && b[1 + |n|..] == rest
  {
  }

  lemma NameStep(n: seq<byte>, more: seq<byte>, k: nat)
    requires |n| <= 255 && Utf8.Valid(n) && TakeNames(more, k).Some?
    ensures TakeNames(NameBytes(n) + more, k + 1) == Some(([n] + TakeNames(more, k).value.0, TakeNames(more, k).value.1))
  {
    OneName(n, more);
    hide NameBytes, Utf8.Valid;
    var b := NameBytes(n) + more;
    assert b[1..1 + b[0]] == n && b[1 + b[0]..] == more && 1 + b[0] <= |b|;
  }

  lemma FirstName(names: seq<seq<byte>>, rest: seq<byte>)
    requires names != []
    ensures NameList(names) + rest == NameBytes(names[0]) + (NameList(names[1..]) + rest)
  {
    hide NameBytes;
  }

  predicate ShortText(n: seq<byte>) {
    |n| <= 255 && Utf8.Valid(n)
  }

  lemma {:induction false} NamesReadBack(names: seq<seq<byte>>, rest: seq<byte>)
    requires forall i :: 0 <= i < |names| ==> ShortText(names[i])
    ensures TakeNames(NameList(names) + rest, |names|) == Some((names, rest))
  {
    hide NameBytes, Utf8.Valid;
    if names == [] {
      assert NameList(names) + rest == rest;
    } else {
      hide NameList, TakeNames;
      var n, more := names[0], NameList(names[1..]) + rest;
      assert ShortText(n) && names == [n] + names[1..];
      hide ShortText;
      FirstName(names, rest);
      NamesReadBack(names[1..], rest);
      NameStep(n, more, |names| - 1);
    }
  }

  lemma IntentParts(magic: seq<byte>, old8: seq<byte>, new8: seq<byte>, count: seq<byte>, list: seq<byte>, c: seq<byte>, table: seq<byte>)
    requires |magic| == 4 && |old8| == 8 && |new8| == 8 && |count| == 2 && |c| == 2
    ensures
      var b := magic + old8 + new8 + count + list + c + table;
      |b| >= 22 && b[..4] == magic && b[20..22] == count && b[22..] == list + (c + table)
    ensures (c + table)[..2] == c && (c + table)[2..] == table
  {
  }

  /** What follows the names. */
  function AnchorSection(i: Intent): seq<byte> {
    LE(|i.anchors|, 2) + AnchorTable(i.anchors)
  }

  lemma IntentFields(i: Intent)
    requires Recordable(i)
    ensures EncodedIntent(i).Some?
    ensures
      var (b, left) := (EncodedIntent(i).value, AnchorSection(i));
      && |b| >= 22 && b[..4] == INTENT_MAGIC && FromLE(b[20..22]) == |i.names| && b[22..] == NameList(i.names) + left
      && |left| == 2 + ANCHOR_ENTRY * |i.anchors| && FromLE(left[..2]) == |i.anchors| && left[2..] == AnchorTable(i.anchors)
  {
    var (n, c, list, table) := (LE(|i.names|, 2), LE(|i.anchors|, 2), NameList(i.names), AnchorTable(i.anchors));
    IntentParts(INTENT_MAGIC, LE(i.oldGen, 8), LE(i.newGen, 8), n, list, c, table);
    Widths();
    LERoundTrip(|i.names|, 2);
    LERoundTrip(|i.anchors|, 2);
    hide LE, FromLE, NameList, AnchorTable;
  }

  /** The names and the anchors of a recordable intent read back. */
  lemma IntentRoundTrip(i: Intent)
    requires Recordable(i) && (forall n <- i.names :: Utf8.Valid(n)) && forall e <- i.anchors :: EntryFits(e)
    ensures EncodedIntent(i).Some? && ParsedIntent(EncodedIntent(i).value) == Some((i.names, i.anchors))
  {
    assert |i.anchors| <= ANCHOR_CAP && forall n <- i.names :: |n| <= 255;
    hide EncodedIntent, ParsedIntent, AnchorSection, NameList, TakeNames, AnchorTable, ReadEntries, FromLE, Utf8.Valid, EntryFits;
    IntentFields(i);
    forall k | 0 <= k < |i.names| ensures ShortText(i.names[k]) { assert i.names[k] in i.names; }
    NamesReadBack(i.names, AnchorSection(i));
    EntriesReadBack(i.anchors);
    ParsesAs(EncodedIntent(i).value, i.names, AnchorSection(i), |i.anchors|);
  }

  lemma ParsesAs(b: seq<byte>, names: seq<seq<byte>>, left: seq<byte>, n: nat)
    requires |b| >= 22 && b[..4] == INTENT_MAGIC && TakeNames(b[22..], FromLE(b[20..22])) == Some((names, left))
    requires |left| == 2 + ANCHOR_ENTRY * n && FromLE(left[..2]) == n && n <= ANCHOR_CAP
    ensures |left[2..]| % ANCHOR_ENTRY == 0 && ParsedIntent(b) == Some((names, ReadEntries(left[2..])))
  {
    hide FromLE, ReadEntries, TakeNames;
    assert left[2..2 + ANCHOR_ENTRY * n] == left[2..];
  }

  // ---------------------------------------------------------------- what the protocols carry, in bytes

  /** How names and roots are written: the truncated hash of a file name, the bytes of a root, the UTF-8 of
      a database name. */
  datatype Wire = Wire(fileId: string -> Id16, hash: C.Root -> Hash, text: string -> seq<byte>)

  /** A uuid is sixteen bytes. */
  predicate IsUuid(u: C.Uuid) {
    u < Values(16)
  }

  function UuidBytes(u: C.Uuid): Id16
    requires IsUuid(u)
  {
    LE(u, 16)
  }

  function WireFiles(w: Wire, files: seq<(string, nat)>): (fs: seq<FileLength>)
    ensures |fs| == |files| && forall i :: 0 <= i < |files| ==> fs[i] == FileLength(w.fileId(files[i].0), files[i].1)
  {
    seq(|files|, i requires 0 <= i < |files| => FileLength(w.fileId(files[i].0), files[i].1))
  }

  /** A manifest payload of the commit protocol as its fields on disk. */
  function WirePayload(w: Wire, p: M.Payload): Payload
    requires IsUuid(p.uuid)
  {
    Payload(p.generation, UuidBytes(p.uuid), w.hash(p.root), w.hash(p.prevRoot), WireFiles(w, p.files))
  }

  /** Within the width of the counters and the room of the block. */
  predicate Storable(p: M.Payload) {
    && IsUuid(p.uuid) && p.generation <= U64_MAX && |p.files| <= MAX_FILES
    && forall i :: 0 <= i < |p.files| ==> p.files[i].1 <= U64_MAX
  }

  /** The hashes tell the roots and the names of these two payloads apart. */
  predicate NoCollision(w: Wire, p: M.Payload, q: M.Payload) {
    && (w.hash(p.root) == w.hash(q.root) ==> p.root == q.root)
    && (w.hash(p.prevRoot) == w.hash(q.prevRoot) ==> p.prevRoot == q.prevRoot)
    && forall i :: 0 <= i < |p.files| && i < |q.files| && w.fileId(p.files[i].0) == w.fileId(q.files[i].0) ==> p.files[i].0 == q.files[i].0
  }

  lemma SameUuid(a: C.Uuid, b: C.Uuid)
    requires IsUuid(a) && IsUuid(b) && UuidBytes(a) == UuidBytes(b)
    ensures a == b
  {
    LERoundTrip(a, 16);
    LERoundTrip(b, 16);
  }

  /** The manifest block of a payload says that payload and no other. */
  lemma BlockSaysPayload(w: Wire, p: M.Payload, q: M.Payload)
    requires Storable(p) && Storable(q)
    ensures Decoded(Encoded(WirePayload(w, p))) == Some(WirePayload(w, p))
    ensures NoCollision(w, p, q) && Encoded(WirePayload(w, p)) == Encoded(WirePayload(w, q)) ==> p == q
  {
    WiredFits(w, p);
    WiredFits(w, q);
    hide Encoded, Decoded, WirePayload, NoCollision, Storable, Fits;
    PayloadRoundTrip(WirePayload(w, p));
    PayloadRoundTrip(WirePayload(w, q));
    if NoCollision(w, p, q) && Encoded(WirePayload(w, p)) == Encoded(WirePayload(w, q)) { SamePayload(w, p, q); }
  }

  lemma WiredFits(w: Wire, p: M.Payload)
    requires Storable(p)
    ensures IsUuid(p.uuid) && Fits(WirePayload(w, p)) && |WirePayload(w, p).files| <= MAX_FILES
  {
    hide UuidBytes;
  }

  lemma SamePayload(w: Wire, p: M.Payload, q: M.Payload)
    requires IsUuid(p.uuid) && IsUuid(q.uuid) && WirePayload(w, p) == WirePayload(w, q) && NoCollision(w, p, q)
    ensures p == q
  {
    hide UuidBytes, IsUuid;
    SameUuid(p.uuid, q.uuid);
    var (fs, gs) := (WireFiles(w, p.files), WireFiles(w, q.files));
    forall i | 0 <= i < |p.files| ensures p.files[i] == q.files[i] {
      assert fs[i] == gs[i];
    }
  }

  function WireEntry(e: A.AnchorEntry): AnchorEntry
    requires IsUuid(e.uuid)
  {
    AnchorEntry(UuidBytes(e.uuid), e.committed, e.inFlight, e.epochFloor)
  }

  predicate EntryStorable(e: A.AnchorEntry) {
    IsUuid(e.uuid) && e.committed <= U64_MAX && e.inFlight <= U64_MAX && e.epochFloor <= U64_MAX
  }

  predicate EntriesStorable(es: seq<A.AnchorEntry>) {
    forall i :: 0 <= i < |es| ==> EntryStorable(es[i])
  }

  function WireEntries(es: seq<A.AnchorEntry>): (r: seq<AnchorEntry>)
    requires EntriesStorable(es)
    ensures |r| == |es| && forall i :: 0 <= i < |es| ==> r[i] == WireEntry(es[i])
  {
    seq(|es|, i requires 0 <= i < |es| => WireEntry(es[i]))
  }

  lemma WiredEntriesFit(es: seq<A.AnchorEntry>)
    requires EntriesStorable(es)
    ensures forall e <- WireEntries(es) :: EntryFits(e)
  {
    hide UuidBytes;
  }

  lemma SameEntries(a: seq<A.AnchorEntry>, b: seq<A.AnchorEntry>)
    requires EntriesStorable(a) && EntriesStorable(b) && WireEntries(a) == WireEntries(b)
    ensures a == b
  {
    hide UuidBytes;
    var (x, y) := (WireEntries(a), WireEntries(b));
    forall i | 0 <= i < |a| ensures a[i] == b[i] {
      assert x[i] == y[i];
      SameUuid(a[i].uuid, b[i].uuid);
    }
  }

  /** The anchor block of a table that the anchor protocol keeps says that table and no other. */
  lemma BlockSaysTable(t: A.Table, u: A.Table)
    requires t.seqno <= U64_MAX && |t.entries| <= ANCHOR_CAP && EntriesStorable(t.entries)
    requires u.seqno <= U64_MAX && |u.entries| <= ANCHOR_CAP && EntriesStorable(u.entries)
    ensures DecodedAnchor(EncodedAnchor(t.seqno, WireEntries(t.entries))) == Some((t.seqno, WireEntries(t.entries)))
    ensures EncodedAnchor(t.seqno, WireEntries(t.entries)) == EncodedAnchor(u.seqno, WireEntries(u.entries)) ==> t == u
  {
    var (x, y) := (WireEntries(t.entries), WireEntries(u.entries));
    WiredEntriesFit(t.entries);
    WiredEntriesFit(u.entries);
    hide EncodedAnchor, DecodedAnchor, EntriesStorable, EntryFits;
    AnchorRoundTrip(t.seqno, x);
    AnchorRoundTrip(u.seqno, y);
    assert x[..|x|] == x && y[..|y|] == y;
    if EncodedAnchor(t.seqno, x) == EncodedAnchor(u.seqno, y) { SameEntries(t.entries, u.entries); }
  }

  function WireNames(w: Wire, names: seq<string>): (r: seq<seq<byte>>)
    ensures |r| == |names| && forall i :: 0 <= i < |names| ==> r[i] == w.text(names[i])
  {
    seq(|names|, i requires 0 <= i < |names| => w.text(names[i]))
  }

  function WireIntent(w: Wire, i: R.Intent): Intent
    requires EntriesStorable(i.anchors)
  {
    Intent(i.oldGen, i.newGen, WireNames(w, i.names), WireEntries(i.anchors))
  }

  /** Database names are written in one byte a character. */
  predicate Plain(w: Wire, names: seq<string>) {
    forall i :: 0 <= i < |names| ==> |w.text(names[i])| == |names[i]| && Utf8.Valid(w.text(names[i]))
  }

  /** The rotation's own limits are those of the record, and the record gives the names and the anchor
      entries of the intent back. */
  lemma RecordSaysIntent(w: Wire, i: R.Intent)
    requires EntriesStorable(i.anchors) && Plain(w, i.names)
    ensures R.Recordable(i) <==> EncodedIntent(WireIntent(w, i)).Some?
    ensures R.Recordable(i) ==>
      ParsedIntent(EncodedIntent(WireIntent(w, i)).value) == Some((WireNames(w, i.names), WireEntries(i.anchors)))
  {
    var j := WireIntent(w, i);
    WiredEntriesFit(i.anchors);
    SameLimits(w, i);
    assert R.Recordable(i) <==> Recordable(j);
    forall n | n in j.names ensures Utf8.Valid(n) {
      var k :| 0 <= k < |j.names| && j.names[k] == n;
      assert n == w.text(i.names[k]);
    }
    if R.Recordable(i) { IntentRoundTrip(j); }
  }

  lemma SameLimits(w: Wire, i: R.Intent)
    requires EntriesStorable(i.anchors) && Plain(w, i.names)
    ensures R.Recordable(i) <==> Recordable(WireIntent(w, i))
  {
    var j := WireIntent(w, i);
    if R.Recordable(i) {
      forall n | n in j.names ensures |n| <= 255 {
        var k :| 0 <= k < |j.names| && j.names[k] == n;
        assert i.names[k] in i.names;
      }
    }
    if Recordable(j) {
      forall n | n in i.names ensures |n| <= 255 {
        var k :| 0 <= k < |i.names| && i.names[k] == n;
        assert j.names[k] in j.names;
      }
    }
  }
}
