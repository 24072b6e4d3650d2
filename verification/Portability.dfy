/** Exporting a live session and recovering it with the standalone tool (`session_export_inner`,
    `hex_to_bytes` in lib.rs; `export_bundle` in vfs.rs; freehold-decrypt). */
module Export {
  import opened Bytes
  import E = Envelope
  import B = Bundle

  const PIPE: byte := 0x7c
  const NEWLINE: byte := 0x0a
  const RETURN: byte := 0x0d

  /** `#manifest`. */
  const MANIFEST_SUFFIX: seq<byte> := [0x23, 0x6d, 0x61, 0x6e, 0x69, 0x66, 0x65, 0x73, 0x74]

  type Pool = map<seq<byte>, seq<byte>>

  // ---------------------------------------------------------------- hex

  function Digit(n: nat): byte
    requires n < 16
  {
    if n < 10 then 0x30 + n else 0x61 + n - 10
  }

  /** Two lower-case digits a byte. */
  function HexOf(data: seq<byte>): (s: seq<byte>)
    ensures |s| % 2 == 0
  {
    if data == [] then [] else [Digit(data[0] / 16), Digit(data[0] % 16)] + HexOf(data[1..])
  }

  function DigitValue(c: byte): Option<nat> {
    if 0x30 <= c <= 0x39 then Some(c - 0x30)
    else if 0x61 <= c <= 0x66 then Some(c - 0x61 + 10)
    else if 0x41 <= c <= 0x46 then Some(c - 0x41 + 10)
    else None
  }

  /** `u8::from_str_radix` on two characters; a leading plus sign is accepted. */
  function PairValue(hi: byte, lo: byte): Option<nat> {
    match (DigitValue(hi), DigitValue(lo))
    case (Some(h), Some(l)) => Some(16 * h + l)
    case (None, Some(l)) => if hi == 0x2b then Some(l) else None
    case _ => None
  }

  function FromHex(s: seq<byte>): Option<seq<byte>> {
    if s == [] then Some([])
    else if |s| == 1 then None
    else
      match (PairValue(s[0], s[1]), FromHex(s[2..]))
      case (Some(b), Some(rest)) => if b < 256 then Some([b] + rest) else None
      case _ => None
  }

  /** `hex_to_bytes`. */
  method HexToBytes(s: seq<byte>) returns (r: Option<seq<byte>>)
    ensures r == FromHex(s)
  {
    if |s| % 2 != 0 {
      OddRefused(s);
      return None;
    }
    var out: seq<byte>, i := [], 0;
    ghost var whole := FromHex(s);
    if whole.Some? { assert [] + whole.value == whole.value; }
    while i < |s|
      invariant 0 <= i <= |s| && i % 2 == 0
      invariant whole == match FromHex(s[i..]) case None => None case Some(rest) => Some(out + rest)
    {
      var left := s[i..];
      assert left[0] == s[i] && left[1] == s[i + 1] && left[2..] == s[i + 2..];
      var b := PairValue(s[i], s[i + 1]);
      if b.None? { return None; }
      ghost var rest := FromHex(s[i + 2..]);
      if rest.Some? { assert out + ([b.value] + rest.value) == (out + [b.value]) + rest.value; }
      out, i := out + [b.value], i + 2;
    }
    assert s[i..] == [] && out + [] == out;
    r := Some(out);
  }

  lemma {:induction false} OddRefused(s: seq<byte>)
    requires |s| % 2 != 0
    ensures FromHex(s) == None
  {
    if |s| > 1 { OddRefused(s[2..]); }
  }

  /** Digit for digit: the high half and then the low half of each byte, in lower case. */
  lemma {:induction false} HexDigits(data: seq<byte>, i: nat)
    requires i < |data|
    ensures |HexOf(data)| == 2 * |data|
    ensures HexOf(data)[2 * i] == "0123456789abcdef"[data[i] / 16] as int
    ensures HexOf(data)[2 * i + 1] == "0123456789abcdef"[data[i] % 16] as int
    decreases data
  {
    DigitIs(data[0] / 16);
    DigitIs(data[0] % 16);
    HexLength(data);
    if i > 0 { HexDigits(data[1..], i - 1); }
  }

  lemma DigitIs(n: nat)
    requires n < 16
    ensures Digit(n) == "0123456789abcdef"[n] as int
  {
  }

  lemma {:induction false} HexLength(data: seq<byte>)
    ensures |HexOf(data)| == 2 * |data|
  {
    if data != [] { HexLength(data[1..]); }
  }

  lemma {:induction false} HexRoundTrip(data: seq<byte>)
    ensures FromHex(HexOf(data)) == Some(data)
  {
    if data != [] {
      HexRoundTrip(data[1..]);
      var s := HexOf(data);
      assert s[0] == Digit(data[0] / 16) && s[1] == Digit(data[0] % 16) && s[2..] == HexOf(data[1..]);
      assert PairValue(s[0], s[1]) == Some(data[0]);
      assert data == [data[0]] + data[1..];
    }
  }

  // ---------------------------------------------------------------- the text in between

  function Line(name: seq<byte>, data: seq<byte>): seq<byte> {
    name + [PIPE] + HexOf(data) + [NEWLINE]
  }

  /** `export_bundle`: a line for the database and one for its manifest, as far as they exist. */
  function ExportText(pool: Pool, db: seq<byte>): seq<byte> {
    var m := db + MANIFEST_SUFFIX;
    (if db in pool then Line(db, pool[db]) else []) + (if m in pool then Line(m, pool[m]) else [])
  }

  /** Where `c` first stands, or the length. */
  function IndexOf(s: seq<byte>, c: byte): (i: nat)
    ensures i <= |s| && (i < |s| ==> s[i] == c)
    ensures forall k :: 0 <= k < i ==> s[k] != c
  {
    if s == [] || s[0] == c then 0 else 1 + IndexOf(s[1..], c)
  }

  /** `str::lines`. */
  function Lines(text: seq<byte>): seq<seq<byte>>
    decreases |text|
  {
    if text == [] then []
    else
      var i := IndexOf(text, NEWLINE);
      if i == |text| then [text]
      else [if i > 0 && text[i - 1] == RETURN then text[..i - 1] else text[..i]] + Lines(text[i + 1..])
  }

  /** The files of the lines; a line without a pipe is skipped, bad hex refuses. */
  function FilesOf(lines: seq<seq<byte>>): Option<seq<B.File>> {
    if lines == [] then Some([])
    else
      var line, rest := lines[0], FilesOf(lines[1..]);
      var i := IndexOf(line, PIPE);
      if i == |line| then rest
      else
        match (FromHex(line[i + 1..]), rest)
        case (Some(data), Some(files)) => Some([B.File(line[..i], data)] + files)
        case _ => None
  }

  /** The file list of `session_export_inner`. */
  function ExportFiles(pool: Pool, names: seq<seq<byte>>): Option<seq<B.File>> {
    if names == [] then Some([])
    else
      match (FilesOf(Lines(ExportText(pool, names[0]))), ExportFiles(pool, names[1..]))
      case (Some(files), Some(rest)) => Some(files + rest)
      case _ => None
  }

  /** `session_export_inner`. `names` are the pool's databases in sorted order; the epoch token is
      minted elsewhere. */
  function SessionExport(s: E.Suite, pool: Pool, names: seq<seq<byte>>, dek: E.Bytes32, envelope: seq<byte>,
                         credId: seq<byte>, epoch: seq<byte>): Option<seq<byte>> {
    match ExportFiles(pool, names)
    case None => None
    case Some(files) =>
      if files == [] then None
      else
        match E.Strip(s, envelope, dek, E.KIND_DEVICE)
        case Failed(_) => None
        case Done(env) => Some(B.Encoded(B.Bundle(env, credId, files, epoch)))
  }

  /** A carriage return in front of the newline is no part of the line, and a line without a pipe is skipped. */
  lemma OtherLines(line: seq<byte>, rest: seq<byte>)
    requires forall c <- line :: c != NEWLINE && c != RETURN
    ensures Lines(line + [RETURN, NEWLINE] + rest) == [line] + Lines(rest)
    ensures (forall c <- line :: c != PIPE) ==> FilesOf([line] + Lines(rest)) == FilesOf(Lines(rest))
  {
    var text := line + [RETURN, NEWLINE] + rest;
    assert text == (line + [RETURN]) + [NEWLINE] + rest;
    FirstOf(line + [RETURN], NEWLINE, rest);
    assert text[..|line|] == line && text[|line| + 2..] == rest && text[|line|] == RETURN;
    var lines := [line] + Lines(rest);
    assert lines[0] == line && lines[1..] == Lines(rest);
    var i := IndexOf(line, PIPE);
    assert i < |line| ==> line[i] in line;
    hide IndexOf;
  }

  /** A pool without databases is not exported. */
  lemma NothingToExport(s: E.Suite, pool: Pool, names: seq<seq<byte>>, dek: E.Bytes32, envelope: seq<byte>, credId: seq<byte>, epoch: seq<byte>)
    requires forall n <- names :: n !in pool && n + MANIFEST_SUFFIX !in pool
    ensures SessionExport(s, pool, names, dek, envelope, credId, epoch) == None
  {
    NoFiles(pool, names);
  }

  lemma {:induction false} NoFiles(pool: Pool, names: seq<seq<byte>>)
    requires forall n <- names :: n !in pool && n + MANIFEST_SUFFIX !in pool
    ensures ExportFiles(pool, names) == Some([])
  {
    if names != [] {
      assert names[0] in names && forall n <- names[1..] :: n in names;
      assert ExportText(pool, names[0]) == [] && Lines([]) == [] && FilesOf([]) == Some([]);
      NoFiles(pool, names[1..]);
    }
  }

  lemma {:induction false} HexIsPlain(data: seq<byte>)
    ensures forall c <- HexOf(data) :: c != NEWLINE && c != RETURN && c != PIPE
  {
    if data != [] { HexIsPlain(data[1..]); }
  }

  lemma FirstOf(before: seq<byte>, c: byte, after: seq<byte>)
    requires forall x <- before :: x != c
    ensures IndexOf(before + [c] + after, c) == |before|
  {
    var s := before + [c] + after;
    assert s[|before|] == c;
    forall k | 0 <= k < |before| ensures s[k] != c { assert s[k] == before[k] && before[k] in before; }
  }

  /** A line reads back as the file it was written for. */
  lemma LineReadsBack(name: seq<byte>, data: seq<byte>, rest: seq<byte>)
    requires forall c <- name :: c != NEWLINE && c != PIPE
    ensures Lines(Line(name, data) + rest) == [name + [PIPE] + HexOf(data)] + Lines(rest)
    ensures FilesOf([name + [PIPE] + HexOf(data)] + Lines(rest))
         == match FilesOf(Lines(rest)) case None => None case Some(fs) => Some([B.File(name, data)] + fs)
  {
    var line := name + [PIPE] + HexOf(data);
    HexIsPlain(data);
    LineIsOneLine(line, rest, name, HexOf(data));
    PipeSplits(name, HexOf(data));
    HexRoundTrip(data);
    assert Line(name, data) + rest == line + [NEWLINE] + rest;
    hide HexOf, FromHex, IndexOf, Lines;
    var lines := [line] + Lines(rest);
    assert lines[0] == line && lines[1..] == Lines(rest);
  }

  lemma LineIsOneLine(line: seq<byte>, rest: seq<byte>, name: seq<byte>, hex: seq<byte>)
    requires line == name + [PIPE] + hex
    requires (forall c <- name :: c != NEWLINE) && forall c <- hex :: c != NEWLINE && c != RETURN
    ensures Lines(line + [NEWLINE] + rest) == [line] + Lines(rest)
  {
    forall c | c in line ensures c != NEWLINE { assert c in name || c == PIPE || c in hex; }
    FirstOf(line, NEWLINE, rest);
    var text := line + [NEWLINE] + rest;
    assert text[..|line|] == line && text[|line| + 1..] == rest;
    assert line[|line| - 1] != RETURN by {
      if hex != [] { assert line[|line| - 1] == hex[|hex| - 1] && hex[|hex| - 1] in hex; } else { assert line[|line| - 1] == PIPE; }
    }
    assert text[|line| - 1] == line[|line| - 1];
    hide IndexOf;
  }

  lemma PipeSplits(name: seq<byte>, hex: seq<byte>)
    requires forall c <- name :: c != PIPE
    ensures
      var line := name + [PIPE] + hex;
      IndexOf(line, PIPE) == |name| && line[..|name|] == name && line[|name| + 1..] == hex
  {
    FirstOf(name, PIPE, hex);
  }

  /** Through the text, hex and back, an export is the pool's files. */
  lemma TextReadsBack(pool: Pool, db: seq<byte>)
    requires db in pool && db + MANIFEST_SUFFIX in pool && forall c <- db :: c != NEWLINE && c != PIPE
    ensures FilesOf(Lines(ExportText(pool, db)))
         == Some([B.File(db, pool[db]), B.File(db + MANIFEST_SUFFIX, pool[db + MANIFEST_SUFFIX])])
  {
    var m := db + MANIFEST_SUFFIX;
    assert forall c <- MANIFEST_SUFFIX :: c != NEWLINE && c != PIPE;
    forall c | c in m ensures c != NEWLINE && c != PIPE { assert c in db || c in MANIFEST_SUFFIX; }
    assert Lines([]) == [] && FilesOf([]) == Some([]);
    hide Line, Lines, FilesOf, HexOf;
    var second := Line(m, pool[m]);
    LineReadsBack(db, pool[db], second);
    LineReadsBack(m, pool[m], []);
    assert second + [] == second;
    assert ExportText(pool, db) == Line(db, pool[db]) + second;
    var (f1, f2) := (B.File(db, pool[db]), B.File(m, pool[m]));
    assert [f2] + [] == [f2] && [f1] + [f2] == [f1, f2];
  }
}

module Portability {
  import opened Bytes
  import opened Crypto
  import Utf8
  import E = Envelope
  import B = Bundle
  import D = Decryptor
  import Commit
  import BD = BlockDevice
  import Caps
  import X = Export

  // ---------------------------------------------------------------- the block grid

  /** The block cipher opens what it sealed, and its blocks have their lengths. */
  ghost predicate Correct(bs: D.BlockSuite) {
    forall dek, uuid, name, k, nonce, page :: |page| == BLOCK_SIZE ==>
      var (ct, tag) := bs.seal(dek, uuid, name, k, nonce, page);
      |ct| == 4096 && |tag| == 16 && bs.unseal(dek, uuid, name, k, nonce, ct, tag) == Some(page)
  }

  function SealedBlock(bs: D.BlockSuite, dek: E.Bytes32, uuid: D.Uuid16, name: seq<byte>, k: nat, nonce: E.Nonce, page: Page): seq<byte> {
    var (ct, tag) := bs.seal(dek, uuid, name, k, nonce, page);
    ct + nonce + tag
  }

  /** The physical bytes of a file whose blocks hold `pages`. */
  function Grid(bs: D.BlockSuite, dek: E.Bytes32, uuid: D.Uuid16, name: seq<byte>, pages: seq<Page>, nonces: seq<E.Nonce>): seq<byte>
    requires |nonces| == |pages|
  {
    if pages == [] then []
    else
      var n := |pages| - 1;
      Grid(bs, dek, uuid, name, pages[..n], nonces[..n]) + SealedBlock(bs, dek, uuid, name, n, nonces[n], pages[n])
  }

  lemma BlockUnseals(bs: D.BlockSuite, dek: E.Bytes32, uuid: D.Uuid16, name: seq<byte>, k: nat, nonce: E.Nonce, page: Page)
    requires Correct(bs)
    ensures |SealedBlock(bs, dek, uuid, name, k, nonce, page)| == D.PHYS_BLOCK
    ensures D.Unsealed(bs, name, SealedBlock(bs, dek, uuid, name, k, nonce, page), dek, uuid, k) == Some(page)
  {
    var (ct, tag) := bs.seal(dek, uuid, name, k, nonce, page);
    var phys := SealedBlock(bs, dek, uuid, name, k, nonce, page);
    assert phys[..4096] == ct && phys[4096..4120] == nonce && phys[4120..] == tag;
  }

  lemma {:induction false} GridLength(bs: D.BlockSuite, dek: E.Bytes32, uuid: D.Uuid16, name: seq<byte>, pages: seq<Page>, nonces: seq<E.Nonce>)
    requires Correct(bs) && |nonces| == |pages|
    ensures |Grid(bs, dek, uuid, name, pages, nonces)| == |pages| * D.PHYS_BLOCK
  {
    if pages != [] {
      var n := |pages| - 1;
      GridLength(bs, dek, uuid, name, pages[..n], nonces[..n]);
      BlockUnseals(bs, dek, uuid, name, n, nonces[n], pages[n]);
    }
  }

  lemma {:induction false} StreamSnoc(pages: seq<Page>, p: Page)
    ensures Commit.Stream(pages + [p]) == Commit.Stream(pages) + p
  {
    if pages == [] {
      assert [p][1..] == [] && p + Commit.Stream([]) == p;
    } else {
      assert (pages + [p])[1..] == pages[1..] + [p];
      StreamSnoc(pages[1..], p);
    }
  }

  /** The plaintext of the first blocks does not depend on what follows them. */
  lemma {:induction false} PlaintextOfPrefix(bs: D.BlockSuite, name: seq<byte>, data: seq<byte>, more: seq<byte>, dek: E.Bytes32, uuid: D.Uuid16, n: nat)
    requires n * D.PHYS_BLOCK <= |data|
    ensures D.Plaintext(bs, name, data + more, dek, uuid, n) == D.Plaintext(bs, name, data, dek, uuid, n)
  {
    if n > 0 {
      PlaintextOfPrefix(bs, name, data, more, dek, uuid, n - 1);
      var (lo, hi) := ((n - 1) * D.PHYS_BLOCK, n * D.PHYS_BLOCK);
      assert (data + more)[lo..hi] == data[lo..hi];
    }
  }

  /** The second implementation decrypts a grid to exactly its pages. */
  lemma {:induction false} GridDecrypts(bs: D.BlockSuite, dek: E.Bytes32, uuid: D.Uuid16, name: seq<byte>, pages: seq<Page>, nonces: seq<E.Nonce>)
    requires Correct(bs) && |nonces| == |pages|
    ensures |Grid(bs, dek, uuid, name, pages, nonces)| == |pages| * D.PHYS_BLOCK
    ensures D.Plaintext(bs, name, Grid(bs, dek, uuid, name, pages, nonces), dek, uuid, |pages|) == Some(Commit.Stream(pages))
  {
    GridLength(bs, dek, uuid, name, pages, nonces);
    if pages != [] {
      var n := |pages| - 1;
      var before, block := Grid(bs, dek, uuid, name, pages[..n], nonces[..n]), SealedBlock(bs, dek, uuid, name, n, nonces[n], pages[n]);
      GridDecrypts(bs, dek, uuid, name, pages[..n], nonces[..n]);
      BlockUnseals(bs, dek, uuid, name, n, nonces[n], pages[n]);
      PlaintextOfPrefix(bs, name, before, block, dek, uuid, n);
      StreamSnoc(pages[..n], pages[n]);
      assert pages == pages[..n] + [pages[n]];
      assert (before + block)[n * D.PHYS_BLOCK..(n + 1) * D.PHYS_BLOCK] == block;
      hide SealedBlock, Correct, D.Unsealed;
    }
  }

  // ---------------------------------------------------------------- the second reader of the envelope

  lemma FramingAgrees(blob: seq<byte>)
    ensures D.WellFramed(blob) <==> E.Parse(blob).Done?
    ensures D.WellFramed(blob) ==> E.Parse(blob).value == blob[9]
  {
  }

  lemma SlotsAgree(blob: seq<byte>, i: nat)
    requires D.WellFramed(blob) && i < blob[9]
    ensures E.Parse(blob).Done? && |E.Slots(blob)| == blob[9] && D.SlotOf(blob, i) == E.Slots(blob)[i]
  {
    E.SlotAt(blob, i);
  }

  predicate Recovery(m: E.Method, kek: E.Kek) {
    m.kind == E.KIND_RECOVERY && m.kek == kek
  }

  /** What the i-th slot of a blob with a vault's slots is, for the standalone tool. */
  lemma SlotDecides(s: E.Suite, v: E.Vault, blob: seq<byte>, kek: E.Kek, keks: set<E.Kek>, i: nat)
    requires E.Ideal(s, keks) && kek in keks && i < |v.methods| && v.methods[i].kek in keks
    requires D.WellFramed(blob) && blob[9] == |v.methods|
    requires E.Parse(blob).Done? && E.Slots(blob) == E.SlotsFor(s, v.dek, v.methods)
    ensures
      var slot := D.SlotOf(blob, i);
      && slot[1] == v.methods[i].kind
      && s.unwrap(kek, slot[2..26], slot[0], slot[1], slot[26..]) == if v.methods[i].kek == kek then Some(v.dek) else None
  {
    var m := v.methods[i];
    SlotsAgree(blob, i);
    var slot := D.SlotOf(blob, i);
    assert slot == E.WrapSlot(s, v.dek, m.kek, m.id, m.kind, m.nonce);
    hide E.Parse, E.Slots, D.WellFramed, D.SlotOf;
    E.OpenOwnSlot(s, v.dek, kek, m, keks);
    assert slot[1] == m.kind;
    assert E.OpenSlot(s, kek, slot) == s.unwrap(kek, slot[2..26], slot[0], slot[1], slot[26..]);
  }

  predicate HasRecovery(methods: seq<E.Method>, kek: E.Kek) {
    exists m <- methods :: Recovery(m, kek)
  }

  lemma HasRecoveryFrom(methods: seq<E.Method>, kek: E.Kek, i: nat)
    requires i < |methods|
    ensures HasRecovery(methods[i..], kek) <==> Recovery(methods[i], kek) || HasRecovery(methods[i + 1..], kek)
  {
    hide Recovery;
    assert methods[i..] == [methods[i]] + methods[i + 1..];
    assert methods[i] in methods[i..] && forall m <- methods[i + 1..] :: m in methods[i..];
  }

  lemma {:induction false} RecoverySlots(s: E.Suite, v: E.Vault, blob: seq<byte>, kek: E.Kek, keks: set<E.Kek>, i: nat)
    requires E.Ideal(s, keks) && (forall m <- v.methods :: m.kek in keks) && kek in keks && i <= |v.methods|
    requires D.WellFramed(blob) && blob[9] == |v.methods|
    requires E.Parse(blob).Done? && E.Slots(blob) == E.SlotsFor(s, v.dek, v.methods)
    ensures D.FirstRecovery(s, blob, kek, i) == if HasRecovery(v.methods[i..], kek) then Some(v.dek) else None
    decreases |v.methods| - i
  {
    if i < |v.methods| {
      assert v.methods[i] in v.methods;
      hide E.Ideal, E.Parse, D.WellFramed, E.Slots, E.SlotsFor, D.SlotOf, HasRecovery;
      RecoverySlots(s, v, blob, kek, keks, i + 1);
      SlotDecides(s, v, blob, kek, keks, i);
      HasRecoveryFrom(v.methods, kek, i);
    } else {
      hide E.Ideal, E.Parse, D.WellFramed, E.Slots, E.SlotsFor, D.SlotOf;
    }
  }

  /** The standalone tool opens an envelope exactly when the code is one of its recovery slots'. */
  lemma StandaloneOpens(s: E.Suite, v: E.Vault, code: string, keks: set<E.Kek>)
    requires E.Ideal(s, keks) && E.Valid(v, keks) && E.FromCode(code, v.salt) in keks
    ensures D.Opened(s, E.Render(s, v), code)
         == if exists m <- v.methods :: Recovery(m, E.FromCode(code, v.salt)) then D.Done(v.dek) else D.Failed(D.Unlock)
  {
    var blob, kek := E.Render(s, v), E.FromCode(code, v.salt);
    assert E.FullSlots(s);
    E.RenderParsesIff(s, v);
    E.RenderMac(s, v);
    E.RenderSalt(s, v);
    E.RenderParts(s, v);
    FramingAgrees(blob);
    assert blob[12..28] == E.SaltOf(blob);
    RecoverySlots(s, v, blob, kek, keks, 0);
    assert v.methods[0..] == v.methods;
    hide E.Render, E.Ideal, E.Valid, E.Parse, E.Slots, E.FullSlots, D.WellFramed, D.FirstRecovery;
  }

  /** Nor does the standalone tool open an envelope whose generation was overwritten. */
  lemma StandaloneCatchesTamper(s: E.Suite, v: E.Vault, gen: nat, code: string, keks: set<E.Kek>)
    requires E.Ideal(s, keks) && E.Valid(v, keks) && E.FromCode(code, v.salt) in keks
    requires gen <= U64_MAX && gen != v.gen && |E.Render(s, v)| >= 68
    requires
      var (was, forged) := (E.Render(s, v), E.Render(s, v)[..28] + LE(gen, 8) + E.Render(s, v)[36..]);
      E.TellsApart(s, v.dek, {was[..|was| - 32], forged[..|was| - 32]})
    ensures
      var forged := E.Render(s, v)[..28] + LE(gen, 8) + E.Render(s, v)[36..];
      D.Opened(s, forged, code)
      == D.Failed(if exists m <- v.methods :: Recovery(m, E.FromCode(code, v.salt)) then D.Tamper else D.Unlock)
  {
    var kek, forged := E.FromCode(code, v.salt), E.Render(s, v)[..28] + LE(gen, 8) + E.Render(s, v)[36..];
    ForgedRecovery(s, v, gen, kek, keks, forged);
    E.ForgedMac(s, v, gen, forged);
    HasRecoveryIs(v.methods, kek);
    hide *;
    if HasRecovery(v.methods, kek) { D.OpensIffTagged(s, forged, code, v.dek); } else { D.NoneOpens(s, forged, code); }
  }

  lemma ForgedRecovery(s: E.Suite, v: E.Vault, gen: nat, kek: E.Kek, keks: set<E.Kek>, forged: seq<byte>)
    requires E.Ideal(s, keks) && E.Valid(v, keks) && kek in keks && gen <= U64_MAX && gen != v.gen && |E.Render(s, v)| >= 68
    requires forged == E.Render(s, v)[..28] + LE(gen, 8) + E.Render(s, v)[36..]
    ensures D.WellFramed(forged) && |forged| >= 68 && forged[12..28] == v.salt
    ensures D.FirstRecovery(s, forged, kek, 0) == if HasRecovery(v.methods, kek) then Some(v.dek) else None
  {
    assert E.FullSlots(s) && (forall m <- v.methods :: m.kek in keks) && |v.methods| <= 255 && v.gen <= U64_MAX;
    hide E.Render, E.Ideal, E.Valid, E.FullSlots, E.SlotsFor, E.Parse, E.Slots, LE, D.WellFramed, D.FirstRecovery, HasRecovery;
    E.ForgedGeneration(s, v, gen, forged);
    ForgedFraming(s, v, gen, forged);
    RecoverySlots(s, v, forged, kek, keks, 0);
    assert v.methods[0..] == v.methods;
  }

  lemma HasRecoveryIs(methods: seq<E.Method>, kek: E.Kek)
    ensures HasRecovery(methods, kek) <==> exists m <- methods :: Recovery(m, kek)
  {
  }

  lemma ForgedFraming(s: E.Suite, v: E.Vault, gen: nat, forged: seq<byte>)
    requires E.FullSlots(s) && |E.Render(s, v)| >= 68 && forged == E.Render(s, v)[..28] + LE(gen, 8) + E.Render(s, v)[36..]
    requires E.Parse(forged) == E.Done(|v.methods|)
    ensures D.WellFramed(forged) && forged[9] == |v.methods| && |forged| >= 68 && forged[12..28] == v.salt
  {
    hide E.Render, E.Parse, E.FullSlots, LE;
    E.RenderSalt(s, v);
    FramingAgrees(forged);
    assert forged[12..28] == E.Render(s, v)[12..28] == E.SaltOf(E.Render(s, v));
  }

  // ---------------------------------------------------------------- the pool and what it stores

  /** `valid_db_name` with its `.db`. */
  predicate PoolName(name: string) {
    && 4 <= |name| <= 35 && name[|name| - 3..] == ".db"
    && forall i :: 0 <= i < |name| - 3 ==> NameChar(name[i])
  }

  predicate NameChar(c: char) {
    'a' <= c <= 'z' || '0' <= c <= '9' || c == '_' || c == '-'
  }

  function Ascii(name: string): (b: seq<byte>)
    requires PoolName(name)
    ensures |b| == |name| && forall i :: 0 <= i < |name| ==> b[i] == name[i] as int && b[i] < 0x80
  {
    seq(|name|, i requires 0 <= i < |name| => AsciiChar(name, i))
  }

  function AsciiChar(name: string, i: nat): (b: byte)
    requires PoolName(name) && i < |name|
    ensures b == name[i] as int && b < 0x80 && b != X.PIPE && b != X.NEWLINE
  {
    assert i >= |name| - 3 ==> name[i] == name[|name| - 3..][i - (|name| - 3)];
    name[i] as int
  }

  /** A database at rest: its name, uuid, encrypted blocks, the nonces they carry, and its manifest file. */
  datatype Stored = Stored(name: string, uuid: D.Uuid16, cells: seq<Cell<Page>>, nonces: seq<E.Nonce>, manifest: seq<byte>)

  /** Every block authenticates under the database key. */
  predicate Sound(dek: E.Bytes32, d: Stored) {
    && PoolName(d.name) && |d.nonces| == |d.cells|
    && Commit.Authentic(Commit.Db(FromLE(dek), d.name), FromLE(d.uuid), d.name, d.cells)
  }

  /** The plaintext blocks of the database. */
  function Pages(dek: E.Bytes32, d: Stored): (pages: seq<Page>)
    requires Sound(dek, d)
    ensures |pages| == |d.cells|
  {
    Commit.Plain(Commit.Db(FromLE(dek), d.name), FromLE(d.uuid), d.name, d.cells)
  }

  /** The pool holds the database's physical bytes, and its manifest names the uuid in plaintext. */
  ghost predicate Holds(bs: D.BlockSuite, dek: E.Bytes32, pool: X.Pool, d: Stored) {
    && Sound(dek, d)
    && var n, m := Ascii(d.name), Ascii(d.name) + X.MANIFEST_SUFFIX;
       && n in pool && pool[n] == Grid(bs, dek, d.uuid, n, Pages(dek, d), d.nonces) && |pool[n]| <= U32_MAX
       && m in pool && pool[m] == d.manifest && 24 <= |d.manifest| <= U32_MAX && d.manifest[8..24] == d.uuid
  }

  function NamesOf(ds: seq<Stored>): (names: seq<seq<byte>>)
    requires forall d <- ds :: PoolName(d.name)
    ensures |names| == |ds|
  {
    if ds == [] then [] else [Ascii(ds[0].name)] + NamesOf(ds[1..])
  }

  /** What recovery should give. */
  function Expected(dek: E.Bytes32, ds: seq<Stored>): seq<D.RecoveredDb>
    requires forall d <- ds :: Sound(dek, d)
  {
    if ds == [] then []
    else
      assert ds[0] in ds && Sound(dek, ds[0]);
      [D.RecoveredDb(Ascii(ds[0].name), Commit.Stream(Pages(dek, ds[0])))] + Expected(dek, ds[1..])
  }

  function FilesFor(pool: X.Pool, names: seq<seq<byte>>): seq<B.File>
    requires forall n <- names :: n in pool && n + X.MANIFEST_SUFFIX in pool
  {
    if names == [] then []
    else
      var (n, m) := (names[0], names[0] + X.MANIFEST_SUFFIX);
      [B.File(n, pool[n]), B.File(m, pool[m])] + FilesFor(pool, names[1..])
  }

  lemma {:induction false} NamesInPool(bs: D.BlockSuite, dek: E.Bytes32, pool: X.Pool, ds: seq<Stored>)
    requires forall d <- ds :: Holds(bs, dek, pool, d)
    ensures (forall d <- ds :: PoolName(d.name) && Sound(dek, d))
    ensures forall n <- NamesOf(ds) :: n in pool && n + X.MANIFEST_SUFFIX in pool
  {
    if ds != [] {
      assert ds[0] in ds && forall d <- ds[1..] :: d in ds;
      NamesInPool(bs, dek, pool, ds[1..]);
    }
  }

  lemma {:induction false} ExportIsThePool(bs: D.BlockSuite, dek: E.Bytes32, pool: X.Pool, ds: seq<Stored>)
    requires forall d <- ds :: Holds(bs, dek, pool, d)
    ensures (forall d <- ds :: PoolName(d.name)) && forall n <- NamesOf(ds) :: n in pool && n + X.MANIFEST_SUFFIX in pool
    ensures X.ExportFiles(pool, NamesOf(ds)) == Some(FilesFor(pool, NamesOf(ds)))
  {
    NamesInPool(bs, dek, pool, ds);
    if ds != [] {
      assert ds[0] in ds && forall d <- ds[1..] :: d in ds;
      var n := Ascii(ds[0].name);
      PlainName(ds[0].name);
      hide Holds, PoolName, Ascii, X.ExportText, X.Lines, X.FilesOf;
      X.TextReadsBack(pool, n);
      ExportIsThePool(bs, dek, pool, ds[1..]);
    }
  }

  lemma PlainName(name: string)
    requires PoolName(name)
    ensures forall c <- Ascii(name) :: c != X.NEWLINE && c != X.PIPE
  {
    var n := Ascii(name);
    forall c | c in n ensures c != X.NEWLINE && c != X.PIPE {
      var i :| 0 <= i < |n| && n[i] == c;
      assert n[i] == AsciiChar(name, i);
    }
  }

  /** Every listed file says what the pool says under its name. */
  ghost predicate FromPool(pool: X.Pool, files: seq<B.File>) {
    forall f <- files :: f.name in pool && f.data == pool[f.name]
  }

  lemma {:induction false} FindsWhatIsThere(pool: X.Pool, files: seq<B.File>, name: seq<byte>)
    requires FromPool(pool, files) && exists f <- files :: f.name == name
    ensures name in pool && D.Find(files, name) == Some(pool[name])
  {
    assert files[0] in files && forall f <- files[1..] :: f in files;
    if files[0].name != name {
      assert files == [files[0]] + files[1..];
      FindsWhatIsThere(pool, files[1..], name);
    }
  }

  lemma {:induction false} FilesAreFromPool(pool: X.Pool, names: seq<seq<byte>>)
    requires forall n <- names :: n in pool && n + X.MANIFEST_SUFFIX in pool
    ensures FromPool(pool, FilesFor(pool, names))
    ensures forall n <- names :: exists f <- FilesFor(pool, names) :: f.name == n + X.MANIFEST_SUFFIX
  {
    if names != [] {
      assert names[0] in names && forall n <- names[1..] :: n in names;
      FilesAreFromPool(pool, names[1..]);
      var m := names[0] + X.MANIFEST_SUFFIX;
      var (first, second, rest) := (B.File(names[0], pool[names[0]]), B.File(m, pool[m]), FilesFor(pool, names[1..]));
      assert FilesFor(pool, names) == [first, second] + rest;
      assert second in FilesFor(pool, names) && second.name == m;
      forall n | n in names ensures exists f <- FilesFor(pool, names) :: f.name == n + X.MANIFEST_SUFFIX {
        if n in names[1..] {
          var f :| f in rest && f.name == n + X.MANIFEST_SUFFIX;
          assert f in FilesFor(pool, names);
        }
      }
    }
  }

  lemma NameKinds(name: string)
    requires PoolName(name)
    ensures D.IsDb(Ascii(name)) && !D.IsDb(Ascii(name) + X.MANIFEST_SUFFIX) && Utf8.Valid(Ascii(name)) && Utf8.Valid(Ascii(name) + X.MANIFEST_SUFFIX)
    ensures |Ascii(name)| <= 35
  {
    var n := Ascii(name);
    assert n[|n| - 3..] == D.DB_SUFFIX by {
      assert name[|name| - 3..][0] == '.' && name[|name| - 3..][1] == 'd' && name[|name| - 3..][2] == 'b';
    }
    var m := n + X.MANIFEST_SUFFIX;
    assert m[|m| - 3..][2] == 0x74;
    assert forall x <- X.MANIFEST_SUFFIX :: x < 0x80;
    forall x | x in n ensures x < 0x80 {}
    forall x | x in m ensures x < 0x80 { assert x in n || x in X.MANIFEST_SUFFIX; }
    Utf8.AsciiIsValid(n);
    Utf8.AsciiIsValid(m);
  }

  lemma RecoversOne(bs: D.BlockSuite, dek: E.Bytes32, pool: X.Pool, d: Stored, all: seq<B.File>)
    requires Correct(bs) && Holds(bs, dek, pool, d)
    requires D.Find(all, Ascii(d.name) + D.MANIFEST_SUFFIX) == Some(d.manifest)
    ensures
      var n := Ascii(d.name);
      D.RecoverOne(bs, all, B.File(n, pool[n]), dek) == D.Done(D.RecoveredDb(n, Commit.Stream(Pages(dek, d))))
  {
    var n, pages := Ascii(d.name), Pages(dek, d);
    GridDecrypts(bs, dek, d.uuid, n, pages, d.nonces);
    assert |pool[n]| / D.PHYS_BLOCK == |pages| && |pool[n]| % D.PHYS_BLOCK == 0;
    assert D.Decrypted(bs, n, pool[n], dek, d.uuid) == D.Done(Commit.Stream(pages));
    hide Holds, Sound, Commit.Stream, D.Find, D.Decrypted;
  }

  lemma {:induction false} RecoversEach(bs: D.BlockSuite, dek: E.Bytes32, pool: X.Pool, ds: seq<Stored>, all: seq<B.File>)
    requires Correct(bs) && forall d <- ds :: Holds(bs, dek, pool, d)
    requires FromPool(pool, all)
    requires forall d <- ds :: PoolName(d.name) ==> exists f <- all :: f.name == Ascii(d.name) + X.MANIFEST_SUFFIX
    ensures (forall d <- ds :: Sound(dek, d) && PoolName(d.name)) && forall n <- NamesOf(ds) :: n in pool && n + X.MANIFEST_SUFFIX in pool
    ensures D.RecoverAll(bs, all, FilesFor(pool, NamesOf(ds)), dek) == D.Done(Expected(dek, ds))
  {
    NamesInPool(bs, dek, pool, ds);
    if ds != [] {
      var d := ds[0];
      assert d in ds && forall x <- ds[1..] :: x in ds;
      var n := Ascii(d.name);
      var m := n + X.MANIFEST_SUFFIX;
      FindsWhatIsThere(pool, all, m);
      RecoversOne(bs, dek, pool, d, all);
      NameKinds(d.name);
      RecoversEach(bs, dek, pool, ds[1..], all);
      var (first, second, rest) := (B.File(n, pool[n]), B.File(m, pool[m]), FilesFor(pool, NamesOf(ds[1..])));
      hide Holds, Correct, FromPool, D.RecoverOne, D.IsDb, Ascii, PoolName, Pages, Commit.Stream;
      SkipManifest(bs, all, first, second, rest, dek);
    }
  }

  lemma SkipManifest(bs: D.BlockSuite, all: seq<B.File>, first: B.File, second: B.File, rest: seq<B.File>, dek: E.Bytes32)
    requires D.IsDb(first.name) && !D.IsDb(second.name)
    ensures D.RecoverAll(bs, all, [first, second] + rest, dek) ==
      match D.RecoverOne(bs, all, first, dek)
      case Failed(e) => D.Failed(e)
      case Done(db) =>
        match D.RecoverAll(bs, all, rest, dek)
        case Failed(e) => D.Failed(e)
        case Done(dbs) => D.Done([db] + dbs)
  {
    var files := [first, second] + rest;
    assert files[0] == first && files[1..] == [second] + rest && ([second] + rest)[1..] == rest;
  }

  // ---------------------------------------------------------------- end to end

  /** Stripping device slots keeps every recovery slot. */
  lemma StripKeepsRecovery(s: E.Suite, v: E.Vault, code: string, keks: set<E.Kek>)
    requires E.Ideal(s, keks) && E.Valid(v, keks)
    requires exists m <- v.methods :: Recovery(m, E.FromCode(code, v.salt))
    ensures
      var kept := E.Keep(v.methods, 1, E.KIND_DEVICE);
      var v' := v.(methods := kept);
      && E.Strip(s, E.Render(s, v), v.dek, E.KIND_DEVICE) == E.Done(E.Render(s, v'))
      && E.Valid(v', keks) && exists m <- v'.methods :: Recovery(m, E.FromCode(code, v.salt))
  {
    var m :| m in v.methods && Recovery(m, E.FromCode(code, v.salt));
    assert m.kind != E.KIND_DEVICE && E.Field(m, 1) != E.KIND_DEVICE;
    StripKeepsOthers(s, v, keks);
  }

  predicate FileFits(f: B.File) {
    |f.name| <= U16_MAX && |f.data| <= U32_MAX && Utf8.Valid(f.name)
  }

  ghost predicate AllFit(files: seq<B.File>) {
    forall f <- files :: FileFits(f)
  }

  lemma AllFitCons(first: B.File, second: B.File, rest: seq<B.File>)
    requires FileFits(first) && FileFits(second) && AllFit(rest)
    ensures AllFit([first, second] + rest)
  {
    hide FileFits;
  }

  lemma BothFit(bs: D.BlockSuite, dek: E.Bytes32, pool: X.Pool, d: Stored)
    requires Holds(bs, dek, pool, d)
    ensures
      var (n, m) := (Ascii(d.name), Ascii(d.name) + X.MANIFEST_SUFFIX);
      n in pool && m in pool && FileFits(B.File(n, pool[n])) && FileFits(B.File(m, pool[m]))
  {
    NameKinds(d.name);
  }

  lemma {:induction false} FilesEncodable(bs: D.BlockSuite, dek: E.Bytes32, pool: X.Pool, ds: seq<Stored>)
    requires forall d <- ds :: Holds(bs, dek, pool, d)
    ensures (forall d <- ds :: PoolName(d.name)) && forall n <- NamesOf(ds) :: n in pool && n + X.MANIFEST_SUFFIX in pool
    ensures AllFit(FilesFor(pool, NamesOf(ds)))
  {
    NamesInPool(bs, dek, pool, ds);
    if ds != [] {
      assert ds[0] in ds && forall x <- ds[1..] :: x in ds;
      BothFit(bs, dek, pool, ds[0]);
      FilesEncodable(bs, dek, pool, ds[1..]);
      hide Holds, Ascii, PoolName, FileFits, Sound, AllFit;
      var n := Ascii(ds[0].name);
      var m := n + X.MANIFEST_SUFFIX;
      AllFitCons(B.File(n, pool[n]), B.File(m, pool[m]), FilesFor(pool, NamesOf(ds[1..])));
    }
  }

  lemma {:induction false} ManifestsListed(bs: D.BlockSuite, dek: E.Bytes32, pool: X.Pool, ds: seq<Stored>)
    requires forall d <- ds :: Holds(bs, dek, pool, d)
    ensures (forall d <- ds :: PoolName(d.name)) && forall n <- NamesOf(ds) :: n in pool && n + X.MANIFEST_SUFFIX in pool
    ensures FromPool(pool, FilesFor(pool, NamesOf(ds)))
    ensures forall d <- ds :: PoolName(d.name) ==> exists f <- FilesFor(pool, NamesOf(ds)) :: f.name == Ascii(d.name) + X.MANIFEST_SUFFIX
  {
    NamesInPool(bs, dek, pool, ds);
    FilesAreFromPool(pool, NamesOf(ds));
    forall d | d in ds && PoolName(d.name)
      ensures exists f <- FilesFor(pool, NamesOf(ds)) :: f.name == Ascii(d.name) + X.MANIFEST_SUFFIX
    {
      NameListed(ds, d);
    }
  }

  lemma {:induction false} NameListed(ds: seq<Stored>, d: Stored)
    requires (forall x <- ds :: PoolName(x.name)) && d in ds
    ensures PoolName(d.name) && Ascii(d.name) in NamesOf(ds)
  {
    if ds[0] != d {
      assert ds == [ds[0]] + ds[1..];
      NameListed(ds[1..], d);
    }
  }

  /** A vault whose envelope has a recovery slot for `code`, exported from a live session and recovered
      by the standalone tool with that code, gives for every database of the pool exactly the plaintext
      of its blocks. */
  lemma RecoveryReturnsThePlaintext(s: E.Suite, bs: D.BlockSuite, v: E.Vault, keks: set<E.Kek>, code: string,
                                    pool: X.Pool, ds: seq<Stored>, credId: seq<byte>, epoch: seq<byte>)
    requires E.Ideal(s, keks) && E.Valid(v, keks) && E.FromCode(code, v.salt) in keks && Correct(bs)
    requires exists m <- v.methods :: Recovery(m, E.FromCode(code, v.salt))
    requires ds != [] && (forall d <- ds :: Holds(bs, v.dek, pool, d))
    requires |credId| <= U32_MAX && |epoch| <= U32_MAX
    ensures (forall d <- ds :: Sound(v.dek, d) && PoolName(d.name))
    ensures
      var bundle := X.SessionExport(s, pool, NamesOf(ds), v.dek, E.Render(s, v), credId, epoch);
      bundle.Some? && D.Recovered(s, bs, bundle.value, code) == D.Done(Expected(v.dek, ds))
  {
    hide *;
    NamesInPool(bs, v.dek, pool, ds);
    StripKeepsRecovery(s, v, code, keks);
    var v' := v.(methods := E.Keep(v.methods, 1, E.KIND_DEVICE));
    var files, env := FilesFor(pool, NamesOf(ds)), E.Render(s, v');
    ExportIsThePool(bs, v.dek, pool, ds);
    FilesEncodable(bs, v.dek, pool, ds);
    ManifestsListed(bs, v.dek, pool, ds);
    StandaloneOpens(s, v', code, keks);
    EnvelopeIsShort(s, v', keks);
    FilesNotEmpty(pool, ds);
    var b := B.Bundle(env, credId, files, epoch);
    EncodableParts(b);
    B.RoundTrip(b);
    D.ReadersAgree(B.Encoded(b));
    RecoversEach(bs, v.dek, pool, ds, files);
    ExpectedNotEmpty(v.dek, ds);
    ExportUnfolds(s, pool, NamesOf(ds), v.dek, E.Render(s, v), credId, epoch, files, env);
    RecoveredUnfolds(s, bs, B.Encoded(b), code, env, files, v.dek, Expected(v.dek, ds));
  }

  /** Read back, the exported bundle is the pool's databases with their manifests, the credential id and the
      epoch token as they were given, and the envelope without its device slots: every other slot is there,
      and the generation, the salt and the DEK are the same. */
  lemma ExportCarries(s: E.Suite, bs: D.BlockSuite, v: E.Vault, keks: set<E.Kek>, pool: X.Pool, ds: seq<Stored>,
                      credId: seq<byte>, epoch: seq<byte>)
    requires E.Ideal(s, keks) && E.Valid(v, keks) && exists m <- v.methods :: m.kind != 2
    requires ds != [] && (forall d <- ds :: Holds(bs, v.dek, pool, d))
    requires |credId| <= U32_MAX && |epoch| <= U32_MAX
    ensures (forall d <- ds :: PoolName(d.name)) && forall n <- NamesOf(ds) :: n in pool && n + X.MANIFEST_SUFFIX in pool
    ensures X.SessionExport(s, pool, NamesOf(ds), v.dek, E.Render(s, v), credId, epoch).Some?
    ensures
      var bytes := X.SessionExport(s, pool, NamesOf(ds), v.dek, E.Render(s, v), credId, epoch).value;
      var kept := E.Keep(v.methods, 1, 2);
      && B.Decoded(bytes) == Some(B.Bundle(E.Render(s, v.(methods := kept)), credId, FilesFor(pool, NamesOf(ds)), epoch))
      && (forall m <- kept :: m in v.methods && m.kind != 2) && (forall m <- v.methods :: m.kind != 2 ==> m in kept)
  {
    KeepsOthers(v);
    assert E.FullSlots(s);
    hide *;
    NamesInPool(bs, v.dek, pool, ds);
    StripKeepsOthers(s, v, keks);
    var v' := v.(methods := E.Keep(v.methods, 1, E.KIND_DEVICE));
    var files, env := FilesFor(pool, NamesOf(ds)), E.Render(s, v');
    ExportIsThePool(bs, v.dek, pool, ds);
    FilesEncodable(bs, v.dek, pool, ds);
    EnvelopeIsShort(s, v', keks);
    FilesNotEmpty(pool, ds);
    var b := B.Bundle(env, credId, files, epoch);
    EncodableParts(b);
    B.RoundTrip(b);
    ExportUnfolds(s, pool, NamesOf(ds), v.dek, E.Render(s, v), credId, epoch, files, env);
  }

  lemma KeepsOthers(v: E.Vault)
    ensures E.KIND_DEVICE == 2
    ensures
      var kept := E.Keep(v.methods, 1, 2);
      (forall m <- kept :: m in v.methods && m.kind != 2) && (forall m <- v.methods :: m.kind != 2 ==> m in kept)
  {
    var kept := E.Keep(v.methods, 1, 2);
    forall m | m in kept ensures m.kind != 2 { assert E.Field(m, 1) != 2; }
    forall m | m in v.methods && m.kind != 2 ensures m in kept { assert E.Field(m, 1) != 2; }
  }

  lemma StripKeepsOthers(s: E.Suite, v: E.Vault, keks: set<E.Kek>)
    requires E.Ideal(s, keks) && E.Valid(v, keks) && exists m <- v.methods :: m.kind != E.KIND_DEVICE
    ensures
      var v' := v.(methods := E.Keep(v.methods, 1, E.KIND_DEVICE));
      E.Strip(s, E.Render(s, v), v.dek, E.KIND_DEVICE) == E.Done(E.Render(s, v')) && E.Valid(v', keks)
  {
    var m :| m in v.methods && m.kind != E.KIND_DEVICE;
    var op := E.StripOp(E.KIND_DEVICE);
    var kept := E.Keep(v.methods, 1, E.KIND_DEVICE);
    assert E.Field(m, 1) != E.KIND_DEVICE && m in kept && kept != [];
    assert E.FullSlots(s);
    E.BytesRefine(s, v, op);
    E.DoKeeps(v, op, keks);
    assert E.Do(v, op) == E.Done(v.(methods := kept));
  }

  /** The names the export lists: every `.db` name of the pool, sorted. */
  ghost predicate Databases(pool: X.Pool, names: seq<seq<byte>>) {
    (forall n :: n in names <==> n in pool && D.IsDb(n)) && Caps.StrictlySorted(names)
  }

  /** The filter and the sort of `session_export_inner`. */
  method ListDatabases(pool: X.Pool) returns (names: seq<seq<byte>>)
    ensures Databases(pool, names)
  {
    names := [];
    var left := pool.Keys;
    while left != {}
      invariant left <= pool.Keys
      invariant forall n :: n in names <==> n in pool && n !in left && D.IsDb(n)
      decreases |left|
    {
      var n :| n in left;
      if D.IsDb(n) { names := names + [n]; }
      left := left - {n};
    }
    Caps.SortKeeps(names);
    names := Caps.SortDedup(names);
  }

  function DiskBinding(dek: E.Bytes32, d: Stored): BD.Binding {
    BD.Binding(DbKey(FromLE(dek), FromLE(d.uuid)), d.name, FromLE(d.uuid))
  }

  function Padding(s: seq<byte>): seq<byte> {
    seq(BD.Blocks(|s|) * BLOCK_SIZE - |s|, _ => 0)
  }

  /** The database's blocks are what the block device left of these calls on a new file, which a plain file
      would have left as `content`. */
  ghost predicate Wrote(dek: E.Bytes32, d: Stored, calls: seq<BD.Call>, content: seq<byte>) {
    && BD.ModelRun([], calls) == Some(content)
    && d.cells == BD.DeviceRun(DiskBinding(dek, d), BD.File([], None), calls).cells
  }

  lemma {:induction false} StreamAt(pages: seq<Page>, i: nat)
    requires i < |pages| * BLOCK_SIZE
    ensures |Commit.Stream(pages)| == |pages| * BLOCK_SIZE && Commit.Stream(pages)[i] == pages[i / BLOCK_SIZE][i % BLOCK_SIZE]
  {
    StreamLength(pages);
    if i < BLOCK_SIZE {
      assert i / BLOCK_SIZE == 0;
    } else {
      StreamAt(pages[1..], i - BLOCK_SIZE);
      assert i / BLOCK_SIZE == (i - BLOCK_SIZE) / BLOCK_SIZE + 1 && i % BLOCK_SIZE == (i - BLOCK_SIZE) % BLOCK_SIZE;
    }
  }

  lemma {:induction false} StreamLength(pages: seq<Page>)
    ensures |Commit.Stream(pages)| == |pages| * BLOCK_SIZE
  {
    if pages != [] { StreamLength(pages[1..]); }
  }

  /** What was written through the block device is what the database's pages say, zeros behind it. */
  lemma WrittenIsThePages(dek: E.Bytes32, d: Stored, calls: seq<BD.Call>, content: seq<byte>)
    requires Wrote(dek, d, calls, content) && PoolName(d.name) && |d.nonces| == |d.cells|
    ensures Sound(dek, d) && Commit.Stream(Pages(dek, d)) == content + Padding(content)
  {
    var b := DiskBinding(dek, d);
    DeviceHolds(b, d.cells, calls, content);
    forall k | 0 <= k < |d.cells|
      ensures Commit.Block(Commit.Db(FromLE(dek), d.name), FromLE(d.uuid), d.name, d.cells, k) == Some(BD.PlainAt(b, d.cells, k))
    {
      assert BD.OpenBlock(b, d.cells, k).Some?;
    }
    assert Sound(dek, d);
    var (pages, all) := (Pages(dek, d), content + Padding(content));
    StreamLength(pages);
    forall i | 0 <= i < |all| ensures Commit.Stream(pages)[i] == all[i] {
      StreamAt(pages, i);
      assert Commit.Stream(pages)[i] == BD.ByteAt(b, d.cells, i);
      if i < |content| { assert BD.Content(b, d.cells, |content|)[i] == content[i]; }
    }
  }

  lemma DeviceHolds(b: BD.Binding, cells: BD.Cells, calls: seq<BD.Call>, content: seq<byte>)
    requires BD.ModelRun([], calls) == Some(content) && cells == BD.DeviceRun(b, BD.File([], None), calls).cells
    ensures BD.Holds(b, cells, |content|) && BD.Content(b, cells, |content|) == content
  {
    assert forall i: nat :: BD.ByteAt(b, [], i) == 0;
    assert BD.Content(b, [], 0) == [];
    hide BD.DeviceRun, BD.ModelRun;
    BD.DeviceRefines(b, BD.File([], None), calls);
  }

  lemma {:induction false} ExpectedAt(dek: E.Bytes32, ds: seq<Stored>, i: nat)
    requires (forall d <- ds :: Sound(dek, d)) && i < |ds|
    ensures |Expected(dek, ds)| == |ds|
    ensures PoolName(ds[i].name) && Expected(dek, ds)[i] == D.RecoveredDb(Ascii(ds[i].name), Commit.Stream(Pages(dek, ds[i])))
    decreases |ds|
  {
    assert ds[0] in ds && forall d <- ds[1..] :: d in ds;
    if i > 0 {
      hide Sound, Commit.Stream, Ascii, Pages;
      ExpectedAt(dek, ds[1..], i - 1);
      assert ds[1..][i - 1] == ds[i];
    } else if |ds| > 1 {
      hide Sound, Commit.Stream, Ascii, Pages;
      ExpectedAt(dek, ds[1..], 0);
    }
  }

  /** Recovery gave each of these databases back, in order, filled up to whole blocks. */
  predicate Returns(r: D.Outcome<seq<D.RecoveredDb>>, names: seq<seq<byte>>, contents: seq<seq<byte>>) {
    && r.Done? && |r.value| == |names| == |contents|
    && forall i :: 0 <= i < |names| ==> r.value[i] == D.RecoveredDb(names[i], contents[i] + Padding(contents[i]))
  }

  /** The promise of a portable bundle: of a pool whose databases were written through the block device, the
      export lists every database, and recovery with a code that some recovery slot holds returns, for
      each of them and nothing else, exactly the bytes that were written, filled up to whole blocks. */
  lemma WrittenBytesComeBack(s: E.Suite, bs: D.BlockSuite, v: E.Vault, keks: set<E.Kek>, code: string,
                             pool: X.Pool, names: seq<seq<byte>>, ds: seq<Stored>, logs: seq<seq<BD.Call>>, contents: seq<seq<byte>>,
                             credId: seq<byte>, epoch: seq<byte>)
    requires E.Ideal(s, keks) && E.Valid(v, keks) && E.FromCode(code, v.salt) in keks && Correct(bs)
    requires exists m <- v.methods :: Recovery(m, E.FromCode(code, v.salt))
    requires ds != [] && (forall d <- ds :: Holds(bs, v.dek, pool, d)) && |logs| == |contents| == |ds|
    requires forall i :: 0 <= i < |ds| ==> Wrote(v.dek, ds[i], logs[i], contents[i])
    requires (forall d <- ds :: PoolName(d.name)) && Databases(pool, NamesOf(ds)) && Databases(pool, names)
    requires |credId| <= U32_MAX && |epoch| <= U32_MAX
    ensures
      var bundle := X.SessionExport(s, pool, names, v.dek, E.Render(s, v), credId, epoch);
      bundle.Some? && Returns(D.Recovered(s, bs, bundle.value, code), names, contents)
  {
    hide *;
    DatabasesUnique(pool, names, NamesOf(ds));
    RecoveryReturnsThePlaintext(s, bs, v, keks, code, pool, ds, credId, epoch);
    AllAreWritten(bs, v.dek, pool, ds, logs, contents);
  }

  lemma AllAreWritten(bs: D.BlockSuite, dek: E.Bytes32, pool: X.Pool, ds: seq<Stored>, logs: seq<seq<BD.Call>>, contents: seq<seq<byte>>)
    requires (forall d <- ds :: Holds(bs, dek, pool, d)) && (forall d <- ds :: PoolName(d.name)) && ds != []
    requires |logs| == |contents| == |ds| && forall i :: 0 <= i < |ds| ==> Wrote(dek, ds[i], logs[i], contents[i])
    ensures (forall d <- ds :: Sound(dek, d)) && Returns(D.Done(Expected(dek, ds)), NamesOf(ds), contents)
  {
    hide Holds, Sound, Wrote, PoolName, Expected, Padding, NamesOf;
    NamesInPool(bs, dek, pool, ds);
    ExpectedIsWritten(bs, dek, pool, ds, 0, logs[0], contents[0]);
    forall i | 0 <= i < |ds|
      ensures Expected(dek, ds)[i] == D.RecoveredDb(NamesOf(ds)[i], contents[i] + Padding(contents[i]))
    {
      ExpectedIsWritten(bs, dek, pool, ds, i, logs[i], contents[i]);
    }
  }

  lemma DatabasesUnique(pool: X.Pool, a: seq<seq<byte>>, b: seq<seq<byte>>)
    requires Databases(pool, a) && Databases(pool, b)
    ensures a == b
  {
    Caps.SortedUnique(a, b);
  }

  lemma ExpectedIsWritten(bs: D.BlockSuite, dek: E.Bytes32, pool: X.Pool, ds: seq<Stored>, i: nat, calls: seq<BD.Call>, content: seq<byte>)
    requires (forall d <- ds :: Holds(bs, dek, pool, d)) && (forall d <- ds :: PoolName(d.name)) && i < |ds|
    requires Wrote(dek, ds[i], calls, content)
    ensures (forall d <- ds :: Sound(dek, d)) && |Expected(dek, ds)| == |ds|
    ensures Expected(dek, ds)[i] == D.RecoveredDb(NamesOf(ds)[i], content + Padding(content))
  {
    hide *;
    assert ds[i] in ds;
    NamesInPool(bs, dek, pool, ds);
    NamesAt(ds, i);
    HoldsNonces(bs, dek, pool, ds[i]);
    ExpectedAt(dek, ds, i);
    WrittenIsThePages(dek, ds[i], calls, content);
  }

  lemma HoldsNonces(bs: D.BlockSuite, dek: E.Bytes32, pool: X.Pool, d: Stored)
    requires Holds(bs, dek, pool, d)
    ensures PoolName(d.name) && |d.nonces| == |d.cells|
  {
  }

  lemma {:induction false} NamesAt(ds: seq<Stored>, i: nat)
    requires (forall d <- ds :: PoolName(d.name)) && i < |ds|
    ensures PoolName(ds[i].name) && NamesOf(ds)[i] == Ascii(ds[i].name)
  {
    assert ds[0] in ds && forall d <- ds[1..] :: d in ds;
    if i > 0 { NamesAt(ds[1..], i - 1); }
  }

  lemma EncodableParts(b: B.Bundle)
    requires |b.envelope| <= 20000 && |b.credId| <= U32_MAX && |b.epoch| <= U32_MAX
    requires AllFit(b.files)
    ensures B.Encodable(b)
  {
  }

  lemma EnvelopeIsShort(s: E.Suite, v: E.Vault, keks: set<E.Kek>)
    requires E.Ideal(s, keks) && E.Valid(v, keks)
    ensures 0 < |E.Render(s, v)| <= 20000
  {
    assert E.FullSlots(s);
    E.RenderParts(s, v);
  }

  lemma FilesNotEmpty(pool: X.Pool, ds: seq<Stored>)
    requires ds != [] && (forall d <- ds :: PoolName(d.name))
    requires forall n <- NamesOf(ds) :: n in pool && n + X.MANIFEST_SUFFIX in pool
    ensures FilesFor(pool, NamesOf(ds)) != []
  {
  }

  lemma ExpectedNotEmpty(dek: E.Bytes32, ds: seq<Stored>)
    requires ds != [] && forall d <- ds :: Sound(dek, d)
    ensures Expected(dek, ds) != []
  {
  }

  lemma ExportUnfolds(s: E.Suite, pool: X.Pool, names: seq<seq<byte>>, dek: E.Bytes32, envelope: seq<byte>,
                      credId: seq<byte>, epoch: seq<byte>, files: seq<B.File>, env: seq<byte>)
    requires X.ExportFiles(pool, names) == Some(files) && files != []
    requires E.Strip(s, envelope, dek, E.KIND_DEVICE) == E.Done(env)
    ensures X.SessionExport(s, pool, names, dek, envelope, credId, epoch) == Some(B.Encoded(B.Bundle(env, credId, files, epoch)))
  {
  }

  lemma RecoveredUnfolds(s: E.Suite, bs: D.BlockSuite, bytes: seq<byte>, code: string, env: seq<byte>, files: seq<B.File>,
                         dek: E.Bytes32, dbs: seq<D.RecoveredDb>)
    requires D.Parsed(bytes) == Some((env, files)) && D.Opened(s, env, code) == D.Done(dek)
    requires D.RecoverAll(bs, files, files, dek) == D.Done(dbs) && dbs != []
    ensures D.Recovered(s, bs, bytes, code) == D.Done(dbs)
  {
  }
}
