/** Bytes, fixed-width integer encodings and the lexicographic order, as the byte formats of the
    repository use them. Integers are unbounded; a width is always stated where the source has one. */
module Bytes {

  type byte = x: int | 0 <= x < 256

  const U16_MAX: nat := 0xffff
  const U32_MAX: nat := 0xffff_ffff
  const U64_MAX: nat := 0xffff_ffff_ffff_ffff

  datatype Option<+T> = None | Some(value: T)

  datatype Result<+T> = Ok(value: T) | Err

  function Min(a: int, b: int): int {
    if a <= b then a else b
  }

  function Max(a: int, b: int): int {
    if a <= b then b else a
  }

  /** The number of values `width` bytes can hold. */
  function Values(width: nat): (v: nat)
    ensures v > 0
  {
    if width == 0 then 1 else 256 * Values(width - 1)
  }

  /** Little-endian bytes of the low `width` bytes of `n` (`to_le_bytes`). */
  function LE(n: nat, width: nat): (b: seq<byte>)
    ensures |b| == width
  {
    if width == 0 then [] else [n % 256] + LE(n / 256, width - 1)
  }

  /** `from_le_bytes`. */
  function FromLE(b: seq<byte>): (n: nat)
    ensures n < Values(|b|)
  {
    if b == [] then 0 else b[0] + 256 * FromLE(b[1..])
  }

  /** Big-endian bytes (`to_be_bytes`). */
  function BE(n: nat, width: nat): (b: seq<byte>)
    ensures |b| == width
  {
    if width == 0 then [] else BE(n / 256, width - 1) + [n % 256]
  }

  /** `from_be_bytes`. */
  function FromBE(b: seq<byte>): (n: nat)
    ensures n < Values(|b|)
  {
    if b == [] then 0 else 256 * FromBE(b[..|b| - 1]) + b[|b| - 1]
  }

  /** Byte `i` of a little-endian number has the weight 256^i, and big-endian bytes are the same backwards. */
  lemma {:induction false} ByteOrder(n: nat, width: nat, i: nat)
    requires i < width
    ensures LE(n, width)[i] == n / Values(i) % 256
    ensures BE(n, width)[width - 1 - i] == LE(n, width)[i]
    decreases width
  {
    if i > 0 {
      ByteOrder(n / 256, width - 1, i - 1);
      DivideTwice(n, Values(i - 1));
    }
  }

  lemma DivideTwice(n: nat, k: nat)
    requires k > 0
    ensures n / 256 / k == n / (256 * k)
  {
    var q, r := n / 256, n % 256;
    var q', r' := q / k, q % k;
    assert n == 256 * k * q' + (256 * r' + r) by {
      assert n == 256 * q + r && q == k * q' + r';
    }
    Quotient(n, 256 * k, q', 256 * r' + r);
  }

  lemma Quotient(n: nat, d: nat, q: nat, r: nat)
    requires d > 0 && n == d * q + r && r < d
    ensures n / d == q
  {
    var (p, m) := (n / d, n % d);
    Apart(d, p, q, m, r);
  }

  lemma Apart(d: nat, p: int, q: int, m: nat, r: nat)
    requires d * p + m == d * q + r && m < d && r < d
    ensures p == q
  {
    var k := p - q;
    assert d * p == d * q + d * k;
    Multiple(d, k);
  }

  lemma Multiple(d: nat, k: int)
    ensures k >= 1 ==> d * k >= d
    ensures k <= -1 ==> d * k + d <= 0
  {
  }

  lemma {:induction false} LERoundTrip(n: nat, width: nat)
    requires n < Values(width)
    ensures FromLE(LE(n, width)) == n
  {
    if width > 0 {
      LERoundTrip(n / 256, width - 1);
      assert LE(n, width)[1..] == LE(n / 256, width - 1);
    }
  }

  lemma {:induction false} LECanonical(b: seq<byte>)
    ensures LE(FromLE(b), |b|) == b
  {
    if b != [] {
      LECanonical(b[1..]);
      assert FromLE(b) / 256 == FromLE(b[1..]);
    }
  }

  lemma {:induction false} BERoundTrip(n: nat, width: nat)
    requires n < Values(width)
    ensures FromBE(BE(n, width)) == n
  {
    if width > 0 {
      BERoundTrip(n / 256, width - 1);
      assert BE(n, width)[..width - 1] == BE(n / 256, width - 1);
    }
  }

  lemma {:induction false} BECanonical(b: seq<byte>)
    ensures BE(FromBE(b), |b|) == b
  {
    if b != [] {
      BECanonical(b[..|b| - 1]);
      assert FromBE(b) / 256 == FromBE(b[..|b| - 1]);
    }
  }

  lemma Widths()
    ensures Values(1) == 256
    ensures Values(2) == U16_MAX + 1
    ensures Values(4) == U32_MAX + 1
    ensures Values(8) == U64_MAX + 1
  {
    assert Values(2) == 256 * Values(1);
    assert Values(3) == 256 * Values(2);
    assert Values(4) == 256 * Values(3);
    assert Values(5) == 256 * Values(4);
    assert Values(6) == 256 * Values(5);
    assert Values(7) == 256 * Values(6);
    assert Values(8) == 256 * Values(7);
  }

  /** The order Rust's slices compare by: element by element, a proper prefix first. */
  predicate LexLess(a: seq<int>, b: seq<int>) {
    b != [] && (a == [] || a[0] < b[0] || (a[0] == b[0] && LexLess(a[1..], b[1..])))
  }

  /** The first place where they differ decides; a proper prefix is smaller. */
  lemma {:induction false} LexDecides(a: seq<int>, b: seq<int>, k: nat)
    requires k <= |a| && k <= |b| && a[..k] == b[..k]
    ensures k == |a| ==> (LexLess(a, b) <==> k < |b|)
    ensures k == |b| ==> !LexLess(a, b)
    ensures k < |a| && k < |b| && a[k] != b[k] ==> (LexLess(a, b) <==> a[k] < b[k])
    decreases k
  {
    if k > 0 {
      assert a[0] == a[..k][0] == b[..k][0] == b[0];
      assert a[1..][..k - 1] == a[..k][1..] == b[..k][1..] == b[1..][..k - 1];
      LexDecides(a[1..], b[1..], k - 1);
    }
  }

  /** What both have in front, and what stands behind sequences of one length that differ, does not matter. */
  lemma {:induction false} LexInside(p: seq<int>, a: seq<int>, b: seq<int>, x: seq<int>, y: seq<int>)
    requires |a| == |b| && a != b
    ensures LexLess(p + a + x, p + b + y) <==> LexLess(a, b)
    decreases |p|, |a|
  {
    if p != [] {
      assert (p + a + x)[1..] == p[1..] + a + x && (p + b + y)[1..] == p[1..] + b + y;
      LexInside(p[1..], a, b, x, y);
    } else {
      assert p + a + x == a + x && p + b + y == b + y;
      if a[0] == b[0] {
        assert a == [a[0]] + a[1..] && b == [b[0]] + b[1..];
        assert (a + x)[1..] == a[1..] + x && (b + y)[1..] == b[1..] + y;
        assert [] + a[1..] + x == a[1..] + x && [] + b[1..] + y == b[1..] + y;
        LexInside([], a[1..], b[1..], x, y);
      }
    }
  }

  lemma {:induction false} LexIrreflexive(a: seq<int>)
    ensures !LexLess(a, a)
  {
    if a != [] {
      LexIrreflexive(a[1..]);
    }
  }

  lemma {:induction false} LexTransitive(a: seq<int>, b: seq<int>, c: seq<int>)
    requires LexLess(a, b) && LexLess(b, c)
    ensures LexLess(a, c)
  {
    if a != [] && a[0] == b[0] == c[0] {
      LexTransitive(a[1..], b[1..], c[1..]);
    }
  }

  lemma {:induction false} LexTotal(a: seq<int>, b: seq<int>)
    requires a != b
    ensures LexLess(a, b) || LexLess(b, a)
  {
    if a != [] && b != [] && a[0] == b[0] {
      assert a == [a[0]] + a[1..] && b == [b[0]] + b[1..];
      LexTotal(a[1..], b[1..]);
    }
  }

  lemma SliceOfSlice<T>(s: seq<T>, lo: nat, hi: nat, i: nat, j: nat)
    requires lo <= hi <= |s| && i <= j <= hi - lo
    ensures s[lo..hi][i..j] == s[lo + i..lo + j]
  {
    forall k | 0 <= k < j - i ensures s[lo..hi][i..j][k] == s[lo + i..lo + j][k] {
      assert s[lo..hi][i + k] == s[lo + i + k];
    }
  }

  lemma Middle<T>(a: seq<T>, b: seq<T>, c: seq<T>)
    ensures (a + b + c)[|a|..|a| + |b|] == b && |a + b + c| == |a| + |b| + |c|
  {
  }

  lemma Regroup<T>(a: seq<T>, b: seq<T>, c: seq<T>, d: seq<T>)
    ensures a + (b + c) + d == a + b + (c + d)
    ensures a + b + c + d == a + b + (c + d)
  {
  }

  /** `copy_from_slice`. */
  method CopyInto(blob: array<byte>, at: nat, src: seq<byte>)
    requires at + |src| <= blob.Length
    modifies blob
    ensures blob[..] == old(blob[..at]) + src + old(blob[at + |src|..])
  {
    for i := 0 to |src|
      invariant forall k :: 0 <= k < blob.Length ==>
        blob[k] == if at <= k < at + i then src[k - at] else old(blob[k])
    {
      blob[at + i] := src[i];
    }
    assert blob[..at] == old(blob[..at]) && blob[at..at + |src|] == src && blob[at + |src|..] == old(blob[at + |src|..]);
  }

  lemma Within<T>(a: seq<T>, b: seq<T>, c: seq<T>, i: nat, k: nat)
    requires i <= k <= |b|
    ensures |a| + k <= |a + b + c| && (a + b + c)[|a| + i..|a| + k] == b[i..k]
  {
    var s := a + b + c;
    forall x | 0 <= x < k - i ensures s[|a| + i..|a| + k][x] == b[i..k][x] {
      assert s[|a| + i + x] == b[i + x];
    }
  }
}
