/** Unpadded base64url (section 5 of RFC 4648), as device.rs implements it. */
module Base64Url {
  import opened Bytes

  /** The alphabet. */
  function Symbol(v: nat): (c: byte)
    requires v < 64
  {
    if v < 26 then 0x41 + v
    else if v < 52 then 0x61 + v - 26
    else if v < 62 then 0x30 + v - 52
    else if v == 62 then 0x2d else 0x5f
  }

  function SymbolValue(c: byte): (v: Option<nat>)
    ensures v.Some? ==> v.value < 64
  {
    if 0x41 <= c <= 0x5a then Some(c - 0x41)
    else if 0x61 <= c <= 0x7a then Some(c - 0x61 + 26)
    else if 0x30 <= c <= 0x39 then Some(c - 0x30 + 52)
    else if c == 0x2d then Some(62)
    else if c == 0x5f then Some(63)
    else None
  }

  /** The 24 bits of a group, zero-filled on the right. */
  function Bits(g: seq<byte>): (n: nat)
    requires 1 <= |g| <= 3
    ensures n < 16777216
  {
    var b0: int, b1: int, b2: int := g[0], if |g| > 1 then g[1] else 0, if |g| > 2 then g[2] else 0;
    b0 * 65536 + b1 * 256 + b2
  }

  /** One group of up to three bytes. */
  function EncodeGroup(g: seq<byte>): (s: seq<byte>)
    requires 1 <= |g| <= 3
    ensures |s| == |g| + 1
  {
    var n := Bits(g);
    [Symbol(n / 262144), Symbol(n / 4096 % 64)]
    + (if |g| > 1 then [Symbol(n / 64 % 64)] else []) + (if |g| > 2 then [Symbol(n % 64)] else [])
  }

  function Encode(data: seq<byte>): seq<byte> {
    if data == [] then []
    else if |data| <= 3 then EncodeGroup(data)
    else EncodeGroup(data[..3]) + Encode(data[3..])
  }

  /** The symbols of a group, accumulated. */
  function Accumulate(g: seq<byte>): Option<nat> {
    if g == [] then Some(0)
    else
      match (Accumulate(g[..|g| - 1]), SymbolValue(g[|g| - 1]))
      case (Some(acc), Some(v)) => Some(acc * 64 + v)
      case _ => None
  }

  function Shifted(acc: nat, missing: nat): nat
    requires missing <= 2
  {
    if missing == 0 then acc else if missing == 1 then acc * 64 else acc * 4096
  }

  /** One group of up to four symbols; bits past the encoded bytes are ignored. */
  function DecodeGroup(g: seq<byte>): Option<seq<byte>>
    requires 1 <= |g| <= 4
  {
    if |g| == 1 then None
    else
      match Accumulate(g)
      case None => None
      case Some(raw) =>
        var acc := Shifted(raw, 4 - |g|);
        var (first, second, third) := (acc / 65536 % 256, acc / 256 % 256, acc % 256);
        Some(if |g| == 2 then [first] else if |g| == 3 then [first, second] else [first, second, third])
  }

  function Decode(s: seq<byte>): Option<seq<byte>> {
    if s == [] then Some([])
    else if |s| <= 4 then DecodeGroup(s)
    else
      match (DecodeGroup(s[..4]), Decode(s[4..]))
      case (Some(g), Some(rest)) => Some(g + rest)
      case _ => None
  }

  /** The alphabet of section 5 of RFC 4648. */
  const LETTERS: string := "ABCDEFGHIJKLMNOPQRSTUVWXYZ"
  const SMALL: string := "abcdefghijklmnopqrstuvwxyz"
  const REST: string := "0123456789-_"

  lemma SymbolIsAlphabet(v: nat)
    requires v < 64
    ensures |LETTERS| == 26 && |SMALL| == 26 && |REST| == 12
    ensures Symbol(v) == (if v < 26 then LETTERS[v] else if v < 52 then SMALL[v - 26] else REST[v - 52]) as int
  {
  }

  lemma GroupBits(b0: int, b1: int, b2: int)
    requires 0 <= b0 < 256 && 0 <= b1 < 256 && 0 <= b2 < 256
    ensures
      var n := b0 * 65536 + b1 * 256 + b2;
      && n / 262144 == b0 / 4 && n / 4096 % 64 == b0 % 4 * 16 + b1 / 16
      && n / 64 % 64 == b1 % 16 * 4 + b2 / 64 && n % 64 == b2 % 64
  {
    var (h0, l0, h1, l1, h2, l2) := (b0 / 4, b0 % 4, b1 / 16, b1 % 16, b2 / 64, b2 % 64);
    assert b0 == 4 * h0 + l0 && b1 == 16 * h1 + l1 && b2 == 64 * h2 + l2;
    assert 0 <= h0 < 64 && 0 <= l0 < 4 && 0 <= h1 < 16 && 0 <= l1 < 16 && 0 <= h2 < 4 && 0 <= l2 < 64;
    FourSextets(h0, l0 * 16 + h1, l1 * 4 + h2, l2);
    assert b0 * 65536 + b1 * 256 + b2 == h0 * 262144 + (l0 * 16 + h1) * 4096 + (l1 * 4 + h2) * 64 + l2;
  }

  lemma FourSextets(a: int, b: int, c: int, d: int)
    requires 0 <= a < 64 && 0 <= b < 64 && 0 <= c < 64 && 0 <= d < 64
    ensures
      var n := a * 262144 + b * 4096 + c * 64 + d;
      n / 262144 == a && n / 4096 % 64 == b && n / 64 % 64 == c && n % 64 == d
  {
    var n := a * 262144 + b * 4096 + c * 64 + d;
    assert n / 64 == a * 4096 + b * 64 + c;
    assert n / 4096 == a * 64 + b;
  }

  lemma SymbolsOfBits(g: seq<byte>)
    requires 1 <= |g| <= 3
    ensures
      var (b0: int, b1: int, b2: int) := (g[0], if |g| > 1 then g[1] else 0, if |g| > 2 then g[2] else 0);
      var s := EncodeGroup(g);
      && s[0] == Symbol(b0 / 4) && s[1] == Symbol(b0 % 4 * 16 + b1 / 16)
      && (|g| > 1 ==> s[2] == Symbol(b1 % 16 * 4 + b2 / 64)) && (|g| > 2 ==> s[3] == Symbol(b2 % 64))
  {
    hide Symbol;
    GroupBits(g[0], if |g| > 1 then g[1] else 0, if |g| > 2 then g[2] else 0);
  }

  /** Three bytes are the four symbols of their 24 bits; two bytes leave out the last symbol, one byte the last
      two; longer data is encoded group by group. */
  lemma EncodesBits(data: seq<byte>)
    ensures data == [] ==> Encode(data) == []
    ensures |data| > 3 ==> Encode(data) == Encode(data[..3]) + Encode(data[3..])
    ensures 1 <= |data| <= 3 ==>
      var (b0: int, b1: int, b2: int) := (data[0], if |data| > 1 then data[1] else 0, if |data| > 2 then data[2] else 0);
      var s := Encode(data);
      && |s| == |data| + 1 && s[0] == Symbol(b0 / 4) && s[1] == Symbol(b0 % 4 * 16 + b1 / 16)
      && (|data| > 1 ==> s[2] == Symbol(b1 % 16 * 4 + b2 / 64)) && (|data| > 2 ==> s[3] == Symbol(b2 % 64))
  {
    hide Symbol, EncodeGroup;
    if 1 <= |data| <= 3 { SymbolsOfBits(data); }
  }

  lemma SymbolRoundTrip(v: nat)
    requires v < 64
    ensures SymbolValue(Symbol(v)) == Some(v)
  {
  }

  lemma AccumulateTwo(a: byte, b: byte)
    requires SymbolValue(a).Some? && SymbolValue(b).Some?
    ensures Accumulate([a, b]) == Some(SymbolValue(a).value * 64 + SymbolValue(b).value)
  {
    assert [a, b][..1] == [a] && [a][..0] == [];
    assert Accumulate([a]) == Some(SymbolValue(a).value);
  }

  lemma AccumulateThree(a: byte, b: byte, c: byte)
    requires SymbolValue(a).Some? && SymbolValue(b).Some? && SymbolValue(c).Some?
    ensures Accumulate([a, b, c]) == Some((SymbolValue(a).value * 64 + SymbolValue(b).value) * 64 + SymbolValue(c).value)
  {
    assert [a, b, c][..2] == [a, b];
    AccumulateTwo(a, b);
  }

  lemma AccumulateFour(a: byte, b: byte, c: byte, d: byte)
    requires SymbolValue(a).Some? && SymbolValue(b).Some? && SymbolValue(c).Some? && SymbolValue(d).Some?
    ensures Accumulate([a, b, c, d])
         == Some(((SymbolValue(a).value * 64 + SymbolValue(b).value) * 64 + SymbolValue(c).value) * 64 + SymbolValue(d).value)
  {
    assert [a, b, c, d][..3] == [a, b, c];
    AccumulateThree(a, b, c);
  }

  /** A group's symbols, as values, spell its bits. */
  lemma GroupSymbols(g: seq<byte>)
    requires 1 <= |g| <= 3
    ensures
      var (n, s) := (Bits(g), EncodeGroup(g));
      && SymbolValue(s[0]) == Some(n / 262144) && SymbolValue(s[1]) == Some(n / 4096 % 64)
      && (|g| > 1 ==> SymbolValue(s[2]) == Some(n / 64 % 64)) && (|g| > 2 ==> SymbolValue(s[3]) == Some(n % 64))
  {
    var n := Bits(g);
    SymbolRoundTrip(n / 262144);
    SymbolRoundTrip(n / 4096 % 64);
    SymbolRoundTrip(n / 64 % 64);
    SymbolRoundTrip(n % 64);
  }

  /** The leading symbols of 24 bits, shifted back, when the bits beyond them are zero. */
  lemma BitsSplit(n: nat)
    requires n < 16777216
    ensures n % 4096 == 0 ==> Shifted(n / 262144 * 64 + n / 4096 % 64, 2) == n
    ensures n % 64 == 0 ==> Shifted((n / 262144 * 64 + n / 4096 % 64) * 64 + n / 64 % 64, 1) == n
    ensures Shifted(((n / 262144 * 64 + n / 4096 % 64) * 64 + n / 64 % 64) * 64 + n % 64, 0) == n
  {
    assert n / 262144 * 64 + n / 4096 % 64 == n / 4096;
    assert n / 4096 * 64 + n / 64 % 64 == n / 64;
  }

  lemma BytesOfBits(g: seq<byte>)
    requires 1 <= |g| <= 3
    ensures Bits(g) / 65536 % 256 == g[0]
    ensures |g| >= 2 ==> Bits(g) / 256 % 256 == g[1]
    ensures |g| == 3 ==> Bits(g) % 256 == g[2]
    ensures (|g| == 1 ==> Bits(g) % 4096 == 0) && (|g| == 2 ==> Bits(g) % 64 == 0)
  {
  }

  /** The accumulated symbols, shifted back, are the group's bits. */
  lemma GroupAccumulates(g: seq<byte>)
    requires 1 <= |g| <= 3
    ensures Accumulate(EncodeGroup(g)).Some? && Shifted(Accumulate(EncodeGroup(g)).value, 3 - |g|) == Bits(g)
  {
    var s, n := EncodeGroup(g), Bits(g);
    GroupSymbols(g);
    BitsSplit(n);
    BytesOfBits(g);
    hide EncodeGroup, SymbolValue, Symbol, Accumulate, Bits, Shifted;
    if |g| == 1 {
      assert s == [s[0], s[1]];
      AccumulateTwo(s[0], s[1]);
    } else if |g| == 2 {
      assert s == [s[0], s[1], s[2]];
      AccumulateThree(s[0], s[1], s[2]);
    } else {
      assert s == [s[0], s[1], s[2], s[3]];
      AccumulateFour(s[0], s[1], s[2], s[3]);
    }
  }

  lemma GroupRoundTrip(g: seq<byte>)
    requires 1 <= |g| <= 3
    ensures DecodeGroup(EncodeGroup(g)) == Some(g)
  {
    GroupAccumulates(g);
    BytesOfBits(g);
    hide EncodeGroup, Accumulate, Bits, Shifted;
    assert g == if |g| == 1 then [g[0]] else if |g| == 2 then [g[0], g[1]] else [g[0], g[1], g[2]];
  }

  /** It decodes what it encodes, so distinct byte strings have distinct encodings. */
  lemma {:induction false} RoundTrip(data: seq<byte>)
    ensures Decode(Encode(data)) == Some(data)
  {
    hide EncodeGroup, DecodeGroup;
    if |data| > 3 {
      GroupRoundTrip(data[..3]);
      RoundTrip(data[3..]);
      var s := Encode(data);
      assert s[..4] == EncodeGroup(data[..3]) && s[4..] == Encode(data[3..]);
      EncodeNonEmpty(data[3..]);
      assert data == data[..3] + data[3..];
    } else if data != [] {
      GroupRoundTrip(data);
    }
  }

  lemma EncodeNonEmpty(data: seq<byte>)
    requires data != []
    ensures Encode(data) != []
  {
  }

  /** The converse fails: bits past the last byte are ignored, so two strings can decode alike. */
  lemma DecodeIsNotInjective()
    ensures
      var a: seq<byte>, b: seq<byte> := [0x41, 0x41], [0x41, 0x42];
      a != b && Decode(a) == Decode(b) == Some([0])
  {
    AccumulateTwo(0x41, 0x41);
    AccumulateTwo(0x41, 0x42);
    var a: seq<byte>, b: seq<byte> := [0x41, 0x41], [0x41, 0x42];
    assert DecodeGroup(a) == Some([0]) && DecodeGroup(b) == Some([0]);
  }

  // ---------------------------------------------------------------- the loops

  method EncodeChunks(data: seq<byte>) returns (out: seq<byte>)
    ensures out == Encode(data)
  {
    out := [];
    var at := 0;
    assert data[0..] == data;
    while at < |data|
      invariant 0 <= at <= |data|
      invariant out + Encode(data[at..]) == Encode(data)
    {
      var end := Min(at + 3, |data|);
      ghost var left := data[at..];
      SliceOfSlice(data, at, |data|, 0, end - at);
      SliceOfSlice(data, at, |data|, end - at, |data| - at);
      assert left == data[at..|data|] && left[..end - at] == data[at..end] && left[end - at..] == data[end..];
      assert |left| <= 3 ==> left == data[at..end] && Encode(data[end..]) == [];
      var s := EncodeGroup(data[at..end]);
      assert Encode(left) == s + Encode(data[end..]);
      assert out + (s + Encode(data[end..])) == (out + s) + Encode(data[end..]);
      out, at := out + s, end;
    }
    assert data[at..] == [] && out + [] == out;
  }

  ghost function Behind(out: seq<byte>, rest: Option<seq<byte>>): Option<seq<byte>> {
    match rest case None => None case Some(r) => Some(out + r)
  }

  method DecodeChunks(s: seq<byte>) returns (r: Option<seq<byte>>)
    ensures r == Decode(s)
  {
    var out: seq<byte>, at := [], 0;
    assert s[0..] == s;
    ghost var whole := Decode(s);
    if whole.Some? { assert [] + whole.value == whole.value; }
    while at < |s|
      invariant 0 <= at <= |s|
      invariant whole == Behind(out, Decode(s[at..]))
    {
      hide DecodeGroup;
      var end := Min(at + 4, |s|);
      ghost var left := s[at..];
      SliceOfSlice(s, at, |s|, 0, end - at);
      SliceOfSlice(s, at, |s|, end - at, |s| - at);
      assert left == s[at..|s|] && left[..end - at] == s[at..end] && left[end - at..] == s[end..];
      assert |left| <= 4 ==> left == s[at..end] && Decode(s[end..]) == Some([]);
      var g := DecodeGroup(s[at..end]);
      if g.None? { return None; }
      DecodeOneMore(out, left, g.value, s[end..]);
      out, at := out + g.value, end;
    }
    assert s[at..] == [] && out + [] == out;
    r := Some(out);
  }

  lemma DecodeOneMore(out: seq<byte>, left: seq<byte>, g: seq<byte>, rest: seq<byte>)
    requires left != []
    requires if |left| <= 4 then rest == [] && DecodeGroup(left) == Some(g) else rest == left[4..] && DecodeGroup(left[..4]) == Some(g)
    ensures Behind(out, Decode(left)) == Behind(out + g, Decode(rest))
  {
    hide DecodeGroup;
    var r := Decode(rest);
    if r.Some? {
      assert out + (g + r.value) == (out + g) + r.value;
      if |left| <= 4 { assert r.value == [] && g + [] == g; }
    }
  }
}
