/** Capability strings in canonical form (device.rs). Scopes are the UTF-8 bytes of strings. */
module Caps {
  import opened Bytes
  import Utf8

  const NEWLINE: byte := 0x0a

  type Scope = seq<byte>

  // ---------------------------------------------------------------- trimming

  /** The length of the white-space character at the front, or zero. */
  function SpaceAtFront(s: Scope): (n: nat)
    ensures n <= |s|
  {
    if |s| >= 1 && (0x09 <= s[0] <= 0x0d || s[0] == 0x20) then 1
    else if |s| >= 2 && s[0] == 0xc2 && (s[1] == 0x85 || s[1] == 0xa0) then 2
    else if |s| >= 3 && WideSpace(s[0], s[1], s[2]) then 3
    else 0
  }

  function SpaceAtBack(s: Scope): (n: nat)
    ensures n <= |s|
  {
    var k := |s|;
    if k >= 1 && (0x09 <= s[k - 1] <= 0x0d || s[k - 1] == 0x20) then 1
    else if k >= 2 && s[k - 2] == 0xc2 && (s[k - 1] == 0x85 || s[k - 1] == 0xa0) then 2
    else if k >= 3 && WideSpace(s[k - 3], s[k - 2], s[k - 1]) then 3
    else 0
  }

  /** U+1680, U+2000 to U+200A, U+2028, U+2029, U+202F, U+205F and U+3000. */
  predicate WideSpace(a: byte, b: byte, c: byte) {
    || (a == 0xe1 && b == 0x9a && c == 0x80)
    || (a == 0xe2 && b == 0x80 && (0x80 <= c <= 0x8a || c == 0xa8 || c == 0xa9 || c == 0xaf))
    || (a == 0xe2 && b == 0x81 && c == 0x9f)
    || (a == 0xe3 && b == 0x80 && c == 0x80)
  }

  /** The characters with the Unicode property White_Space. */
  predicate WhiteSpace(c: nat) {
    || 0x9 <= c <= 0xd || c in {0x20, 0x85, 0xa0, 0x1680, 0x2028, 0x2029, 0x202f, 0x205f, 0x3000} || 0x2000 <= c <= 0x200a
  }

  lemma WhiteIsSpace(c: nat, s: Scope)
    requires WhiteSpace(c)
    ensures Utf8.Scalar(c)
    ensures Utf8.EncodeChar(c) <= s ==> SpaceAtFront(s) == |Utf8.EncodeChar(c)|
    ensures |Utf8.EncodeChar(c)| <= |s| && s[|s| - |Utf8.EncodeChar(c)|..] == Utf8.EncodeChar(c) ==> SpaceAtBack(s) == |Utf8.EncodeChar(c)|
  {
    var (e, k) := (Utf8.EncodeChar(c), |s|);
    if e <= s { assert forall i :: 0 <= i < |e| ==> s[i] == e[i]; }
    if |e| <= k && s[k - |e|..] == e { assert forall i :: 0 <= i < |e| ==> s[k - |e| + i] == e[i]; }
  }

  lemma SpaceIsWhite(a: byte, b: byte, c: byte)
    ensures 0x09 <= a <= 0x0d || a == 0x20 ==> WhiteSpace(a) && Utf8.EncodeChar(a) == [a]
    ensures a == 0xc2 && (b == 0x85 || b == 0xa0) ==> WhiteSpace(b) && Utf8.Scalar(b) && Utf8.EncodeChar(b) == [a, b]
    ensures WideSpace(a, b, c) ==> exists w :: WhiteSpace(w) && Utf8.Scalar(w) && Utf8.EncodeChar(w) == [a, b, c]
  {
    if WideSpace(a, b, c) {
      var (x: int, y: int, z: int) := (a, b, c);
      var w := (x - 0xe0) * 4096 + (y - 0x80) * 64 + (z - 0x80);
      assert WhiteSpace(w) && Utf8.Scalar(w);
      assert w / 64 == (x - 0xe0) * 64 + (y - 0x80);
      assert Utf8.EncodeChar(w) == [a, b, c];
    }
  }

  /** What is trimmed off is white space and nothing else, at the front and at the back. */
  lemma SpaceIffWhite(s: Scope)
    ensures SpaceAtFront(s) > 0 <==> exists c :: WhiteSpace(c) && Utf8.Scalar(c) && Utf8.EncodeChar(c) <= s
    ensures SpaceAtBack(s) > 0 <==>
      exists c :: WhiteSpace(c) && Utf8.Scalar(c) && |Utf8.EncodeChar(c)| <= |s| && s[|s| - |Utf8.EncodeChar(c)|..] == Utf8.EncodeChar(c)
  {
    forall c | WhiteSpace(c) ensures Utf8.Scalar(c) && (Utf8.EncodeChar(c) <= s ==> SpaceAtFront(s) == |Utf8.EncodeChar(c)|)
      && (|Utf8.EncodeChar(c)| <= |s| && s[|s| - |Utf8.EncodeChar(c)|..] == Utf8.EncodeChar(c) ==> SpaceAtBack(s) == |Utf8.EncodeChar(c)|)
    {
      WhiteIsSpace(c, s);
    }
    var k := |s|;
    hide WhiteSpace, Utf8.EncodeChar, Utf8.Scalar, WideSpace;
    if SpaceAtFront(s) > 0 { FrontWitness(s); }
    if SpaceAtBack(s) > 0 { BackWitness(s); }
  }

  lemma FrontWitness(s: Scope)
    requires SpaceAtFront(s) > 0
    ensures exists c :: WhiteSpace(c) && Utf8.Scalar(c) && Utf8.EncodeChar(c) <= s
  {
    var n := SpaceAtFront(s);
    SpaceIsWhite(s[0], if n > 1 then s[1] else 0, if n > 2 then s[2] else 0);
    hide WhiteSpace, Utf8.EncodeChar, WideSpace;
    if n == 1 { assert [s[0]] <= s; } else if n == 2 { assert [s[0], s[1]] <= s; } else { assert [s[0], s[1], s[2]] <= s; }
  }

  lemma BackWitness(s: Scope)
    requires SpaceAtBack(s) > 0
    ensures exists c :: WhiteSpace(c) && Utf8.Scalar(c) && |Utf8.EncodeChar(c)| <= |s| && s[|s| - |Utf8.EncodeChar(c)|..] == Utf8.EncodeChar(c)
  {
    var (n, k) := (SpaceAtBack(s), |s|);
    SpaceIsWhite(s[k - n], if n > 1 then s[k - n + 1] else 0, if n > 2 then s[k - n + 2] else 0);
    hide WhiteSpace, Utf8.EncodeChar, WideSpace;
    if n == 1 { assert s[k - 1..] == [s[k - 1]]; }
    else if n == 2 { assert s[k - 2..] == [s[k - 2], s[k - 1]]; }
    else { assert s[k - 3..] == [s[k - 3], s[k - 2], s[k - 1]]; }
  }

  function TrimFront(s: Scope): (t: Scope)
    ensures SpaceAtFront(t) == 0
  {
    if SpaceAtFront(s) == 0 then s else TrimFront(s[SpaceAtFront(s)..])
  }

  function TrimBack(s: Scope): (t: Scope)
    ensures SpaceAtBack(t) == 0 && t <= s
  {
    if SpaceAtBack(s) == 0 then s else TrimBack(s[..|s| - SpaceAtBack(s)])
  }

  /** `str::trim`. */
  function Trim(s: Scope): (t: Scope)
    ensures SpaceAtFront(t) == 0 && SpaceAtBack(t) == 0
  {
    FrontOfPrefix(TrimFront(s), TrimBack(TrimFront(s)));
    TrimBack(TrimFront(s))
  }

  lemma FrontOfPrefix(s: Scope, t: Scope)
    requires t <= s && SpaceAtFront(s) == 0
    ensures SpaceAtFront(t) == 0
  {
  }

  lemma TrimmedIffNoSpace(s: Scope)
    ensures Trim(s) == s <==> SpaceAtFront(s) == 0 && SpaceAtBack(s) == 0
  {
  }

  // ---------------------------------------------------------------- sorted scope lists

  predicate StrictlySorted(v: seq<Scope>) {
    forall i, j :: 0 <= i < j < |v| ==> LexLess(v[i], v[j])
  }

  function Insert(x: Scope, v: seq<Scope>): seq<Scope>
    decreases |v|
  {
    if v == [] then [x]
    else if x == v[0] then v
    else if LexLess(x, v[0]) then [x] + v
    else [v[0]] + Insert(x, v[1..])
  }

  /** Sorted by bytes and de-duplicated. `SortedUnique` says that there is only one such list. */
  function SortDedup(v: seq<Scope>): seq<Scope> {
    if v == [] then [] else Insert(v[0], SortDedup(v[1..]))
  }

  lemma {:induction false} InsertKeeps(x: Scope, v: seq<Scope>)
    requires StrictlySorted(v)
    ensures StrictlySorted(Insert(x, v))
    ensures forall y :: y in Insert(x, v) <==> y == x || y in v
    decreases |v|
  {
    if v != [] && x != v[0] {
      if LexLess(x, v[0]) {
        forall j | 0 <= j < |v| ensures LexLess(x, v[j]) {
          if j > 0 { LexTransitive(x, v[0], v[j]); }
        }
      } else {
        LexTotal(x, v[0]);
        InsertKeeps(x, v[1..]);
        var rest := Insert(x, v[1..]);
        forall y | y in rest ensures LexLess(v[0], y) {
          if y != x {
            var i :| 0 <= i < |v[1..]| && v[1..][i] == y;
            assert v[i + 1] == y;
          }
        }
        assert v == [v[0]] + v[1..];
      }
    }
  }

  lemma {:induction false} SortKeeps(v: seq<Scope>)
    ensures StrictlySorted(SortDedup(v))
    ensures forall y :: y in SortDedup(v) <==> y in v
  {
    if v != [] {
      SortKeeps(v[1..]);
      InsertKeeps(v[0], SortDedup(v[1..]));
      assert v == [v[0]] + v[1..];
    }
  }

  lemma {:induction false} SortedUnique(a: seq<Scope>, b: seq<Scope>)
    requires StrictlySorted(a) && StrictlySorted(b) && forall y :: y in a <==> y in b
    ensures a == b
    decreases |a|
  {
    assert (a != [] ==> a[0] in a) && (b != [] ==> b[0] in b);
    if a != [] {
      HeadsEqual(a, b);
      TailsSame(a, b);
      SortedUnique(a[1..], b[1..]);
      assert a == [a[0]] + a[1..] && b == [b[0]] + b[1..];
    }
  }

  lemma HeadsEqual(a: seq<Scope>, b: seq<Scope>)
    requires StrictlySorted(a) && StrictlySorted(b) && (forall y :: y in a <==> y in b) && a != [] && b != []
    ensures a[0] == b[0]
  {
    if a[0] != b[0] {
      assert a[0] in b && b[0] in a by { assert a[0] in a && b[0] in b; }
      var i :| 0 <= i < |b| && b[i] == a[0];
      var j :| 0 <= j < |a| && a[j] == b[0];
      assert LexLess(b[0], b[i]) && LexLess(a[0], a[j]);
      LexTransitive(a[0], b[0], a[0]);
      LexIrreflexive(a[0]);
    }
  }

  lemma TailsSame(a: seq<Scope>, b: seq<Scope>)
    requires StrictlySorted(a) && StrictlySorted(b) && (forall y :: y in a <==> y in b) && a != [] && b != [] && a[0] == b[0]
    ensures forall y :: y in a[1..] <==> y in b[1..]
  {
    NotInTail(a);
    NotInTail(b);
    assert a == [a[0]] + a[1..] && b == [b[0]] + b[1..];
    forall y ensures y in a[1..] <==> y in b[1..] {
      assert y in a <==> y == a[0] || y in a[1..];
      assert y in b <==> y == b[0] || y in b[1..];
    }
  }

  lemma NotInTail(v: seq<Scope>)
    requires StrictlySorted(v) && v != []
    ensures v[0] !in v[1..]
  {
    if v[0] in v[1..] {
      var i :| 0 <= i < |v[1..]| && v[1..][i] == v[0];
      assert LexLess(v[0], v[i + 1]);
      LexIrreflexive(v[0]);
    }
  }

  // ---------------------------------------------------------------- joining and splitting

  function Join(v: seq<Scope>): seq<byte> {
    if v == [] then [] else if |v| == 1 then v[0] else v[0] + [NEWLINE] + Join(v[1..])
  }

  /** Where the first newline stands, or the length. */
  function FirstNewline(s: seq<byte>): (i: nat)
    ensures i <= |s| && (i < |s| ==> s[i] == NEWLINE)
    ensures forall k :: 0 <= k < i ==> s[k] != NEWLINE
  {
    if s == [] || s[0] == NEWLINE then 0 else 1 + FirstNewline(s[1..])
  }

  /** `split('\n')`: at least one part. */
  function Split(s: seq<byte>): (v: seq<Scope>)
    ensures v != [] && forall p <- v :: NEWLINE !in p
    decreases |s|
  {
    var i := FirstNewline(s);
    if i == |s| then [s] else [s[..i]] + Split(s[i + 1..])
  }

  lemma SplitOnce(p: Scope, rest: seq<byte>)
    requires NEWLINE !in p
    ensures Split(p + [NEWLINE] + rest) == [p] + Split(rest)
  {
    var s := p + [NEWLINE] + rest;
    assert s[|p|] == NEWLINE;
    forall k | 0 <= k < |p| ensures s[k] != NEWLINE { assert s[k] == p[k] && p[k] in p; }
    assert FirstNewline(s) == |p|;
    assert s[..|p|] == p && s[|p| + 1..] == rest;
  }

  lemma {:induction false} SplitOfJoin(v: seq<Scope>)
    requires v != [] && forall p <- v :: NEWLINE !in p
    ensures Split(Join(v)) == v
  {
    assert v[0] in v && forall p <- v[1..] :: p in v;
    if |v| == 1 {
      assert v == [v[0]];
      assert FirstNewline(v[0]) == |v[0]|;
    } else {
      hide Split;
      SplitOfJoin(v[1..]);
      SplitOnce(v[0], Join(v[1..]));
      assert v == [v[0]] + v[1..];
    }
  }

  // ---------------------------------------------------------------- canonical capability strings

  /** The trimmed scopes without the empty ones. */
  function Clean(caps: seq<Scope>): (v: seq<Scope>)
    ensures forall x <- v :: x != [] && Trim(x) == x
  {
    if caps == [] then []
    else
      var t := Trim(caps[0]);
      TrimmedIffNoSpace(t);
      (if t != [] then [t] else []) + Clean(caps[1..])
  }

  /** `canonicalize_caps`. */
  function Canonicalize(caps: seq<Scope>): seq<byte> {
    Join(SortDedup(Clean(caps)))
  }

  /** `caps_well_formed`. */
  predicate WellFormed(c: seq<byte>) {
    c == [] || ((forall p <- Split(c) :: p != [] && Trim(p) == p) && Canonicalize(Split(c)) == c)
  }

  /** No trimmed scope has a newline inside. */
  predicate NewlineFree(caps: seq<Scope>) {
    forall x <- Clean(caps) :: NEWLINE !in x
  }

  predicate SameScopes(a: seq<Scope>, b: seq<Scope>) {
    (forall x <- Clean(a) :: x in Clean(b)) && (forall x <- Clean(b) :: x in Clean(a))
  }

  lemma {:induction false} CleanIsIdentity(v: seq<Scope>)
    requires forall x <- v :: x != [] && Trim(x) == x
    ensures Clean(v) == v
  {
    if v != [] {
      assert v[0] in v && forall x <- v[1..] :: x in v;
      CleanIsIdentity(v[1..]);
    }
  }

  /** The canonical string depends only on the set of scopes, and for newline-free scopes it determines
      that set. */
  lemma CanonicalIffSameScopes(a: seq<Scope>, b: seq<Scope>)
    ensures SameScopes(a, b) ==> Canonicalize(a) == Canonicalize(b)
    ensures NewlineFree(a) && NewlineFree(b) && Canonicalize(a) == Canonicalize(b) ==> SameScopes(a, b)
  {
    var (x, y) := (SortDedup(Clean(a)), SortDedup(Clean(b)));
    SortKeeps(Clean(a));
    SortKeeps(Clean(b));
    if SameScopes(a, b) { SortedUnique(x, y); }
    if NewlineFree(a) && NewlineFree(b) && Join(x) == Join(y) {
      JoinIsEmptyIff(x);
      JoinIsEmptyIff(y);
      if x != [] {
        SplitOfJoin(x);
        SplitOfJoin(y);
      }
    }
  }

  lemma JoinIsEmptyIff(v: seq<Scope>)
    requires forall x <- v :: x != []
    ensures Join(v) == [] <==> v == []
  {
    if v != [] { assert v[0] in v; }
  }

  /** The well-formed strings are exactly the canonical strings of newline-free scope lists. */
  lemma WellFormedIffCanonical(c: seq<byte>)
    ensures WellFormed(c) ==> exists caps :: NewlineFree(caps) && Canonicalize(caps) == c
    ensures forall caps :: NewlineFree(caps) && Canonicalize(caps) == c ==> WellFormed(c)
  {
    if WellFormed(c) {
      var caps := if c == [] then [] else Split(c);
      if c != [] { CleanIsIdentity(Split(c)); }
      assert NewlineFree(caps) && Canonicalize(caps) == c;
    }
    forall caps | NewlineFree(caps) && Canonicalize(caps) == c ensures WellFormed(c) {
      var v := SortDedup(Clean(caps));
      SortKeeps(Clean(caps));
      JoinIsEmptyIff(v);
      if v != [] {
        SplitOfJoin(v);
        CleanIsIdentity(v);
        SortKeeps(v);
        SortedUnique(SortDedup(v), v);
      }
    }
  }

  lemma Unsorted(v: seq<Scope>, b: Scope, a: Scope)
    requires StrictlySorted(v) && !LexLess(b, a)
    ensures v != [b, a]
  {
    if |v| == 2 { assert LexLess(v[0], v[1]); }
  }

  /** A single scope without white space is its own canonical string. */
  lemma OneScope(x: Scope)
    requires x != [] && SpaceAtFront(x) == 0 && SpaceAtBack(x) == 0 && NEWLINE !in x
    ensures Canonicalize([x]) == x && WellFormed(x)
  {
    assert TrimFront(x) == x && TrimBack(x) == x;
    assert Clean([x]) == [x] by { assert [x][1..] == []; }
    assert SortDedup([x]) == [x] by { assert [x][1..] == []; }
    assert NewlineFree([x]);
    WellFormedIffCanonical(x);
  }

  /** A newline inside a scope can make the canonical string ill-formed. */
  lemma NewlineCanBreak()
    ensures !WellFormed(Canonicalize([[0x62, NEWLINE, 0x61]]))
  {
    var scope: Scope := [0x62, NEWLINE, 0x61];
    var b: Scope, a: Scope := [0x62], [0x61];
    assert TrimFront(scope) == scope && TrimBack(scope) == scope;
    assert Clean([scope]) == [scope] by { assert [scope][1..] == []; }
    assert SortDedup([scope]) == [scope] by { assert [scope][1..] == []; }
    assert [b, a] == [b] + [a] && Join([b, a]) == scope by { assert [b, a][1..] == [a]; }
    SplitOfJoin([b, a]);
    CleanIsIdentity([b, a]);
    SortKeeps([b, a]);
    var v := SortDedup([b, a]);
    assert !LexLess(b, a) && a in v;
    Unsorted(v, b, a);
    forall p | p in v ensures NEWLINE !in p { assert p in [b, a]; }
    SplitOfJoin(v);
  }
}

/** Device certificates: the canonical claim, issuing and verifying (device.rs).

    Signatures are ideal: one verifies exactly for the public key and the message it was made for.
    Ed25519 key derivation and the hash behind a device id enter as functions. */
module Device {
  import opened Bytes
  import Utf8
  import Base64Url
  import Caps

  /** `freehold-device-cert-v1`. */
  const CERT_DOMAIN: seq<byte> :=
    [0x66, 0x72, 0x65, 0x65, 0x68, 0x6f, 0x6c, 0x64, 0x2d, 0x64, 0x65, 0x76, 0x69, 0x63, 0x65, 0x2d, 0x63, 0x65, 0x72, 0x74, 0x2d, 0x76, 0x31]
  /** `dev_`. */
  const ID_PREFIX: seq<byte> := [0x64, 0x65, 0x76, 0x5f]

  type Key = b: seq<byte> | |b| == 32 witness seq(32, _ => 0)

  datatype Fields = Fields(trust: Key, deviceId: seq<byte>, devicePub: Key, caps: seq<byte>, issuedAt: nat, expiry: nat)

  /** What the length fields and the text fields allow. */
  predicate Encodable(f: Fields) {
    && |f.deviceId| <= U16_MAX && |f.caps| <= U16_MAX && f.issuedAt <= U64_MAX && f.expiry <= U64_MAX
    && Utf8.Valid(f.deviceId) && Utf8.Valid(f.caps)
  }

  // ---------------------------------------------------------------- the claim codec

  /** `push_field`. */
  function Field(b: seq<byte>): seq<byte> {
    LE(|b|, 2) + b
  }

  function FieldList(f: Fields): (l: seq<seq<byte>>)
    ensures |l| == 6
  {
    [f.trust, f.deviceId, f.devicePub, f.caps, LE(f.issuedAt, 8), LE(f.expiry, 8)]
  }

  function Concat(l: seq<seq<byte>>): seq<byte> {
    if l == [] then [] else Field(l[0]) + Concat(l[1..])
  }

  /** `canonical_claim_bytes`. */
  function ClaimBytes(f: Fields): seq<byte> {
    CERT_DOMAIN + Concat(FieldList(f))
  }

  /** Field by field: the domain string, and six fields behind two-byte lengths. */
  lemma ClaimLayout(f: Fields)
    ensures |CERT_DOMAIN| == 23 && forall i :: 0 <= i < 23 ==> CERT_DOMAIN[i] == "freehold-device-cert-v1"[i] as int
    ensures ClaimBytes(f)
         == CERT_DOMAIN + LE(32, 2) + f.trust + LE(|f.deviceId|, 2) + f.deviceId + LE(32, 2) + f.devicePub
            + LE(|f.caps|, 2) + f.caps + LE(8, 2) + LE(f.issuedAt, 8) + LE(8, 2) + LE(f.expiry, 8)
  {
    DomainIsAscii();
    var l := FieldList(f);
    hide LE, Field;
    var l1: seq<seq<byte>> := l[1..];
    var l2: seq<seq<byte>> := l1[1..];
    var l3: seq<seq<byte>> := l2[1..];
    var l4: seq<seq<byte>> := l3[1..];
    var l5: seq<seq<byte>> := l4[1..];
    assert Concat(l) == Field(l[0]) + Concat(l1) && Concat(l1) == Field(l[1]) + Concat(l2) && Concat(l2) == Field(l[2]) + Concat(l3);
    assert Concat(l3) == Field(l[3]) + Concat(l4) && Concat(l4) == Field(l[4]) + Concat(l5) && Concat(l5) == Field(l[5]) + [];
    SixFields(f);
  }

  lemma SixFields(f: Fields)
    ensures
      var l := FieldList(f);
      CERT_DOMAIN + (Field(l[0]) + (Field(l[1]) + (Field(l[2]) + (Field(l[3]) + (Field(l[4]) + (Field(l[5]) + []))))))
      == CERT_DOMAIN + LE(32, 2) + f.trust + LE(|f.deviceId|, 2) + f.deviceId + LE(32, 2) + f.devicePub
         + LE(|f.caps|, 2) + f.caps + LE(8, 2) + LE(f.issuedAt, 8) + LE(8, 2) + LE(f.expiry, 8)
  {
    hide LE;
  }

  lemma DomainIsAscii()
    ensures |CERT_DOMAIN| == 23 && forall i :: 0 <= i < 23 ==> CERT_DOMAIN[i] == "freehold-device-cert-v1"[i] as int
  {
    var t := "freehold-device-cert-v1";
    assert |t| == 23;
  }

  /** `n` length-prefixed fields and nothing behind them. */
  function TakeFields(raw: seq<byte>, n: nat): Option<seq<seq<byte>>>
    decreases n
  {
    if n == 0 then if raw == [] then Some([]) else None
    else if |raw| < 2 then None
    else
      var len := FromLE(raw[..2]);
      if 2 + len > |raw| then None
      else
        match TakeFields(raw[2 + len..], n - 1)
        case None => None
        case Some(rest) => Some([raw[2..2 + len]] + rest)
  }

  /** The fields, when they have their types. */
  function Typed(l: seq<seq<byte>>): Option<Fields>
    requires |l| == 6
  {
    if |l[0]| == 32 && Utf8.Valid(l[1]) && |l[2]| == 32 && Utf8.Valid(l[3]) && |l[4]| == 8 && |l[5]| == 8
    then Some(Fields(l[0], l[1], l[2], l[3], FromLE(l[4]), FromLE(l[5])))
    else None
  }

  lemma {:induction false} TakesCount(raw: seq<byte>, n: nat)
    ensures TakeFields(raw, n).Some? ==> |TakeFields(raw, n).value| == n
    decreases n
  {
    if n > 0 && |raw| >= 2 && 2 + FromLE(raw[..2]) <= |raw| { TakesCount(raw[2 + FromLE(raw[..2])..], n - 1); }
  }

  function ParseRaw(raw: seq<byte>): Option<Fields> {
    if |raw| < |CERT_DOMAIN| || raw[..|CERT_DOMAIN|] != CERT_DOMAIN then None
    else
      TakesCount(raw[|CERT_DOMAIN|..], 6);
      match TakeFields(raw[|CERT_DOMAIN|..], 6)
      case None => None
      case Some(l) => Typed(l)
  }

  /** `parse_device_cert_claim`. */
  function ParseClaim(claim: seq<byte>): Option<Fields> {
    match Base64Url.Decode(claim)
    case None => None
    case Some(raw) => ParseRaw(raw)
  }

  lemma FieldReads(b: seq<byte>, rest: seq<byte>)
    requires |b| <= U16_MAX
    ensures
      var raw := Field(b) + rest;
      |raw| >= 2 + |b| && FromLE(raw[..2]) == |b| && raw[2..2 + |b|] == b && raw[2 + |b|..] == rest
  {
    hide LE, FromLE;
    Widths();
    LERoundTrip(|b|, 2);
    var raw := Field(b) + rest;
    assert raw[..2] == LE(|b|, 2);
  }

  lemma TakesOne(b: seq<byte>, rest: seq<byte>, n: nat)
    requires |b| <= U16_MAX && TakeFields(rest, n).Some?
    ensures TakeFields(Field(b) + rest, n + 1) == Some([b] + TakeFields(rest, n).value)
  {
    hide Field, FromLE;
    FieldReads(b, rest);
  }

  lemma {:induction false} ConcatReads(l: seq<seq<byte>>)
    requires forall i :: 0 <= i < |l| ==> |l[i]| <= U16_MAX
    ensures TakeFields(Concat(l), |l|) == Some(l)
  {
    if l != [] {
      assert l == [l[0]] + l[1..];
      hide Field, FromLE;
      FieldReads(l[0], Concat(l[1..]));
      ConcatReads(l[1..]);
      TakesOne(l[0], Concat(l[1..]), |l| - 1);
    }
  }

  lemma ConcatFirst(b: seq<byte>, rest: seq<seq<byte>>)
    ensures Concat([b] + rest) == LE(|b|, 2) + b + Concat(rest)
  {
    assert ([b] + rest)[1..] == rest;
  }

  lemma Length16(b: seq<byte>)
    requires |b| == 2
    ensures FromLE(b) <= U16_MAX && LE(FromLE(b), 2) == b
  {
    Widths();
    LECanonical(b);
  }

  lemma ThreeParts(raw: seq<byte>, i: nat, k: nat)
    requires i <= k <= |raw|
    ensures raw[..i] + raw[i..k] + raw[k..] == raw
  {
  }

  lemma TakenFirst(raw: seq<byte>, n: nat)
    requires n > 0 && TakeFields(raw, n).Some?
    ensures |raw| >= 2 && 2 + FromLE(raw[..2]) <= |raw| && TakeFields(raw[2 + FromLE(raw[..2])..], n - 1).Some?
    ensures
      var len := FromLE(raw[..2]);
      TakeFields(raw, n).value == [raw[2..2 + len]] + TakeFields(raw[2 + len..], n - 1).value
  {
    hide FromLE;
  }

  lemma {:induction false} TakesAreConcat(raw: seq<byte>, n: nat)
    requires TakeFields(raw, n).Some?
    ensures Concat(TakeFields(raw, n).value) == raw
    decreases n
  {
    if n > 0 {
      TakenFirst(raw, n);
      hide LE, FromLE, TakeFields, Concat;
      var len := FromLE(raw[..2]);
      var (b, rest) := (raw[2..2 + len], raw[2 + len..]);
      TakesAreConcat(rest, n - 1);
      Length16(raw[..2]);
      ConcatFirst(b, TakeFields(rest, n - 1).value);
      assert |b| == len && LE(|b|, 2) == raw[..2];
      ThreeParts(raw, 2, 2 + len);
    }
  }

  lemma {:induction false} TakenAreShort(raw: seq<byte>, n: nat)
    requires TakeFields(raw, n).Some?
    ensures forall i :: 0 <= i < |TakeFields(raw, n).value| ==> |TakeFields(raw, n).value[i]| <= U16_MAX
    decreases n
  {
    if n > 0 {
      TakenFirst(raw, n);
      hide LE, FromLE, TakeFields;
      var len := FromLE(raw[..2]);
      Length16(raw[..2]);
      TakenAreShort(raw[2 + len..], n - 1);
    }
  }

  /** The claim codec is a bijection between encodable fields and the byte strings it accepts. */
  lemma ClaimRoundTrip(f: Fields)
    requires Encodable(f)
    ensures ParseRaw(ClaimBytes(f)) == Some(f)
  {
    var l := FieldList(f);
    FieldsAreTyped(f);
    hide Concat, TakeFields, Typed, FieldList;
    ConcatReads(l);
    assert ClaimBytes(f)[..|CERT_DOMAIN|] == CERT_DOMAIN && ClaimBytes(f)[|CERT_DOMAIN|..] == Concat(l);
  }

  lemma FieldsAreTyped(f: Fields)
    requires Encodable(f)
    ensures Typed(FieldList(f)) == Some(f) && forall i :: 0 <= i < 6 ==> |FieldList(f)[i]| <= U16_MAX
  {
    Widths();
    LERoundTrip(f.issuedAt, 8);
    LERoundTrip(f.expiry, 8);
    hide LE, FromLE;
  }

  lemma TypedIsItsFields(l: seq<seq<byte>>)
    requires |l| == 6 && Typed(l).Some? && forall i :: 0 <= i < |l| ==> |l[i]| <= U16_MAX
    ensures Encodable(Typed(l).value) && FieldList(Typed(l).value) == l
  {
    hide LE, FromLE, Utf8.Valid;
    Widths();
    LECanonical(l[4]);
    LECanonical(l[5]);
    assert l == [l[0], l[1], l[2], l[3], l[4], l[5]];
  }

  lemma ParsedIsCanonical(raw: seq<byte>)
    requires ParseRaw(raw).Some?
    ensures Encodable(ParseRaw(raw).value) && ClaimBytes(ParseRaw(raw).value) == raw
  {
    hide Concat, TakeFields, LE, FromLE, Typed, FieldList, Encodable;
    var rest := raw[|CERT_DOMAIN|..];
    TakesCount(rest, 6);
    TakesAreConcat(rest, 6);
    TakenAreShort(rest, 6);
    TypedIsItsFields(TakeFields(rest, 6).value);
    assert raw == CERT_DOMAIN + rest;
  }

  /** An outcome, or the panic of an over-long length field. */
  datatype Checked<T> = Returned(value: T) | Panicked

  /** The buffer of `canonical_claim_bytes`, field by field; `push_field` panics on a field too long for
      its 16-bit length. */
  method CanonicalClaimBytes(f: Fields) returns (m: Checked<seq<byte>>)
    ensures m == if |f.deviceId| > U16_MAX || |f.caps| > U16_MAX then Panicked else Returned(ClaimBytes(f))
  {
    var l := FieldList(f);
    var buf := CERT_DOMAIN;
    FieldLengths(f);
    assert l[0..] == l;
    hide LE, Concat, FieldList, ClaimBytes;
    for i := 0 to 6
      invariant forall k :: 0 <= k < i ==> |l[k]| <= U16_MAX
      invariant buf + Concat(l[i..]) == ClaimBytes(f)
    {
      if |l[i]| > U16_MAX { return Panicked; }
      OneMoreField(buf, l, i);
      buf := buf + LE(|l[i]|, 2) + l[i];
    }
    ConcatNothing(buf, l[6..]);
    m := Returned(buf);
  }

  lemma OneMoreField(buf: seq<byte>, l: seq<seq<byte>>, i: nat)
    requires i < |l|
    ensures buf + Concat(l[i..]) == buf + LE(|l[i]|, 2) + l[i] + Concat(l[i + 1..])
  {
    hide LE, Concat;
    assert l[i..] == [l[i]] + l[i + 1..];
    ConcatFirst(l[i], l[i + 1..]);
  }

  lemma FieldLengths(f: Fields)
    ensures (forall k :: 0 <= k < 6 ==> |FieldList(f)[k]| <= U16_MAX) <==> |f.deviceId| <= U16_MAX && |f.caps| <= U16_MAX
    ensures CERT_DOMAIN + Concat(FieldList(f)) == ClaimBytes(f)
  {
    hide LE, Concat;
    var l := FieldList(f);
    assert l[0] == f.trust && l[1] == f.deviceId && l[2] == f.devicePub && l[3] == f.caps && |l[4]| == |l[5]| == 8;
  }

  lemma ConcatNothing(b: seq<byte>, l: seq<seq<byte>>)
    requires l == []
    ensures b + Concat(l) == b
  {
  }

  /** The fields taken so far in front of what the rest gives. */
  ghost function Glued(l: seq<seq<byte>>, rest: Option<seq<seq<byte>>>): Option<seq<seq<byte>>> {
    match rest case None => None case Some(more) => Some(l + more)
  }

  lemma GluedOne(l: seq<seq<byte>>, raw: seq<byte>, p: nat, n: nat)
    requires p <= |raw|
    ensures Glued(l, TakeFields(raw[p..], n + 1)) ==
      if p + 2 > |raw| then None
      else
        var len := FromLE(raw[p..p + 2]);
        if p + 2 + len > |raw| then None
        else Glued(l + [raw[p + 2..p + 2 + len]], TakeFields(raw[p + 2 + len..], n))
  {
    hide FromLE;
    var left := raw[p..];
    if p + 2 <= |raw| {
      assert left[..2] == raw[p..p + 2];
      var len := FromLE(raw[p..p + 2]);
      if p + 2 + len <= |raw| {
        assert left[2..2 + len] == raw[p + 2..p + 2 + len] && left[2 + len..] == raw[p + 2 + len..];
        var rest := TakeFields(raw[p + 2 + len..], n);
        if rest.Some? { assert l + ([raw[p + 2..p + 2 + len]] + rest.value) == l + [raw[p + 2..p + 2 + len]] + rest.value; }
      }
    }
  }

  lemma GluedEnd(l: seq<seq<byte>>, raw: seq<byte>, p: nat)
    requires p <= |raw|
    ensures Glued(l, TakeFields(raw[p..], 0)) == if p == |raw| then Some(l) else None
  {
    assert l + [] == l && (raw[p..] == [] <==> p == |raw|);
  }

  lemma GluedStart(rest: Option<seq<seq<byte>>>)
    ensures Glued([], rest) == rest
  {
    if rest.Some? { assert [] + rest.value == rest.value; }
  }

  /** The cursor of `parse_device_cert_claim` over its six fields. */
  method TakeSix(raw: seq<byte>, start: nat) returns (r: Option<seq<seq<byte>>>)
    requires start <= |raw|
    ensures r == TakeFields(raw[start..], 6)
  {
    hide TakeFields, FromLE, Glued;
    var p, l := start, [];
    GluedStart(TakeFields(raw[start..], 6));
    for i := 0 to 6
      invariant 0 <= p <= |raw|
      invariant TakeFields(raw[start..], 6) == Glued(l, TakeFields(raw[p..], 6 - i))
    {
      GluedOne(l, raw, p, 5 - i);
      if p + 2 > |raw| { return None; }
      var len := FromLE(raw[p..p + 2]);
      if p + 2 + len > |raw| { return None; }
      l, p := l + [raw[p + 2..p + 2 + len]], p + 2 + len;
    }
    GluedEnd(l, raw, p);
    r := if p == |raw| then Some(l) else None;
  }

  /** The parser behind the base64 step. */
  method ParseClaimBytes(raw: seq<byte>) returns (r: Option<Fields>)
    ensures r == ParseRaw(raw)
  {
    hide TakeFields, Typed;
    if |raw| < |CERT_DOMAIN| || raw[..|CERT_DOMAIN|] != CERT_DOMAIN { return None; }
    var l := TakeSix(raw, |CERT_DOMAIN|);
    TakesCount(raw[|CERT_DOMAIN|..], 6);
    if l.None? { return None; }
    r := Typed(l.value);
  }

  // ---------------------------------------------------------------- issuing and verifying

  /** What a signature covers; its byte layout prefixes both strings with 16-bit lengths. */
  datatype Message = Message(claim: seq<byte>, audience: seq<byte>, issuedAt: nat, expiry: nat)

  datatype Signature = Signed(pub: Key, message: Message) | Garbage

  /** Key derivation, the first 12 bytes of the hash of a labelled device key, and whether 32 bytes are a
      public key at all. */
  datatype Suite = Suite(publicKey: Key -> Key, idHash: Key -> seq<byte>, validKey: Key -> bool)

  /** Every derived key is a public key. */
  ghost predicate Derives(s: Suite) {
    forall seed: Key :: s.validKey(s.publicKey(seed))
  }

  /** `device_id_from_pubkey`. */
  function DeviceId(s: Suite, devicePub: Key): seq<byte> {
    ID_PREFIX + Base64Url.Encode(s.idHash(devicePub))
  }

  lemma DeviceIdIs(s: Suite, devicePub: Key)
    ensures |DeviceId(s, devicePub)| >= 4 && forall i :: 0 <= i < 4 ==> DeviceId(s, devicePub)[i] == "dev_"[i] as int
    ensures DeviceId(s, devicePub)[4..] == Base64Url.Encode(s.idHash(devicePub))
  {
    var t := "dev_";
    assert |t| == 4 && forall i :: 0 <= i < 4 ==> ID_PREFIX[i] == t[i] as int;
  }

  function Claim(f: Fields): seq<byte> {
    Base64Url.Encode(ClaimBytes(f))
  }

  function FieldsFor(s: Suite, trust: Key, devicePub: Key, caps: seq<Caps.Scope>, issuedAt: nat, expiry: nat): Fields {
    Fields(trust, DeviceId(s, devicePub), devicePub, Caps.Canonicalize(caps), issuedAt, expiry)
  }

  /** `issue_device_cert`. */
  function Issue(s: Suite, trustSeed: Key, devicePub: Key, caps: seq<Caps.Scope>, issuedAt: nat, expiry: nat): Checked<(seq<byte>, Signature)> {
    var f := FieldsFor(s, s.publicKey(trustSeed), devicePub, caps, issuedAt, expiry);
    if |f.deviceId| > U16_MAX || |f.caps| > U16_MAX || |Claim(f)| > U16_MAX then Panicked
    else Returned((Claim(f), Signed(f.trust, Message(Claim(f), f.deviceId, issuedAt, expiry))))
  }

  /** `verify_device_cert`. The signature check refuses a trust key that is no public key; then it builds
      the message, which panics on a claim too long for its length field. */
  function Verify(s: Suite, trust: Key, claim: seq<byte>, devicePub: Key, sig: Signature, now: nat): Checked<bool> {
    match ParseClaim(claim)
    case None => Returned(false)
    case Some(f) =>
      if f.trust != trust || f.devicePub != devicePub then Returned(false)
      else if Claim(f) != claim then Returned(false)
      else if f.deviceId != DeviceId(s, devicePub) then Returned(false)
      else if !Caps.WellFormed(f.caps) then Returned(false)
      else if !s.validKey(trust) then Returned(false)
      else if |claim| > U16_MAX then Panicked
      else if sig != Signed(trust, Message(claim, f.deviceId, f.issuedAt, f.expiry)) then Returned(false)
      else Returned(f.issuedAt <= now <= f.expiry)
  }

  /** Fields a verifier can accept for this trust key and device. */
  predicate Acceptable(s: Suite, f: Fields, trust: Key, devicePub: Key) {
    && Encodable(f) && f.trust == trust && f.devicePub == devicePub
    && f.deviceId == DeviceId(s, devicePub) && Caps.WellFormed(f.caps)
  }

  lemma ParsesOwnClaim(f: Fields)
    requires Encodable(f)
    ensures ParseClaim(Claim(f)) == Some(f)
  {
    ClaimRoundTrip(f);
    Base64Url.RoundTrip(ClaimBytes(f));
  }

  lemma ParsedIsEncodable(claim: seq<byte>)
    requires ParseClaim(claim).Some?
    ensures Encodable(ParseClaim(claim).value)
  {
    ParsedIsCanonical(Base64Url.Decode(claim).value);
  }

  /** A claim is accepted exactly when it is the canonical string of acceptable fields, signed under
      the pinned key for these very fields, within the window; and those fields are unique. */
  lemma AcceptedIffCanonicalAndSigned(s: Suite, trust: Key, claim: seq<byte>, devicePub: Key, sig: Signature, now: nat)
    ensures Verify(s, trust, claim, devicePub, sig, now) == Returned(true) <==>
      && s.validKey(trust) && |claim| <= U16_MAX
      && exists f :: Acceptable(s, f, trust, devicePub) && claim == Claim(f)
                     && sig == Signed(trust, Message(claim, f.deviceId, f.issuedAt, f.expiry)) && f.issuedAt <= now <= f.expiry
    ensures forall f, g :: Encodable(f) && Encodable(g) && Claim(f) == Claim(g) ==> f == g
  {
    hide Claim, DeviceId, Caps.WellFormed, Encodable, ParseClaim;
    forall f, g | Encodable(f) && Encodable(g) && Claim(f) == Claim(g) ensures f == g {
      ParsesOwnClaim(f);
      ParsesOwnClaim(g);
    }
    if ParseClaim(claim).Some? {
      var f := ParseClaim(claim).value;
      ParsedIsEncodable(claim);
      if Verify(s, trust, claim, devicePub, sig, now) == Returned(true) {
        assert Acceptable(s, f, trust, devicePub) && claim == Claim(f);
      }
    }
    forall f | Acceptable(s, f, trust, devicePub) && claim == Claim(f) ensures ParseClaim(claim) == Some(f) {
      ParsesOwnClaim(f);
    }
  }

  lemma {:induction false} EncodedIsAscii(data: seq<byte>)
    ensures forall c <- Base64Url.Encode(data) :: c < 0x80
  {
    if |data| > 3 { EncodedIsAscii(data[3..]); }
  }

  lemma DeviceIdIsText(s: Suite, devicePub: Key)
    ensures Utf8.Valid(DeviceId(s, devicePub))
  {
    EncodedIsAscii(s.idHash(devicePub));
    Utf8.AsciiIsValid(DeviceId(s, devicePub));
  }

  /** An issued certificate verifies throughout its window, and only there, exactly when its capability
      string is well-formed, as it is for newline-free scopes. (A capability string is a string, so it
      is valid UTF-8.) */
  lemma IssuedVerifiesIff(s: Suite, trustSeed: Key, devicePub: Key, caps: seq<Caps.Scope>, issuedAt: nat, expiry: nat, now: nat)
    requires Issue(s, trustSeed, devicePub, caps, issuedAt, expiry).Returned? && issuedAt <= U64_MAX && expiry <= U64_MAX
    requires Utf8.Valid(Caps.Canonicalize(caps)) && Derives(s)
    ensures
      var (claim, sig) := Issue(s, trustSeed, devicePub, caps, issuedAt, expiry).value;
      Verify(s, s.publicKey(trustSeed), claim, devicePub, sig, now)
      == Returned(Caps.WellFormed(Caps.Canonicalize(caps)) && issuedAt <= now <= expiry)
    ensures Caps.NewlineFree(caps) ==> Caps.WellFormed(Caps.Canonicalize(caps))
  {
    var f := FieldsFor(s, s.publicKey(trustSeed), devicePub, caps, issuedAt, expiry);
    IssuedFields(s, trustSeed, devicePub, caps, issuedAt, expiry);
    ParsesOwnClaim(f);
    Caps.WellFormedIffCanonical(f.caps);
    assert Issue(s, trustSeed, devicePub, caps, issuedAt, expiry).value
        == (Claim(f), Signed(f.trust, Message(Claim(f), f.deviceId, issuedAt, expiry)));
    assert f.trust == s.publicKey(trustSeed) && f.devicePub == devicePub && f.deviceId == DeviceId(s, devicePub)
        && f.caps == Caps.Canonicalize(caps) && f.issuedAt == issuedAt && f.expiry == expiry;
    hide Issue, FieldsFor, Claim, DeviceId, Caps.WellFormed, Caps.Canonicalize, Caps.NewlineFree, ParseClaim, Encodable, Utf8.Valid;
  }

  lemma IssuedFields(s: Suite, trustSeed: Key, devicePub: Key, caps: seq<Caps.Scope>, issuedAt: nat, expiry: nat)
    requires Issue(s, trustSeed, devicePub, caps, issuedAt, expiry).Returned? && issuedAt <= U64_MAX && expiry <= U64_MAX
    requires Utf8.Valid(Caps.Canonicalize(caps))
    ensures Encodable(FieldsFor(s, s.publicKey(trustSeed), devicePub, caps, issuedAt, expiry))
    ensures |Claim(FieldsFor(s, s.publicKey(trustSeed), devicePub, caps, issuedAt, expiry))| <= U16_MAX
  {
    hide Claim, Caps.Canonicalize, Utf8.Valid, DeviceId;
    DeviceIdIsText(s, devicePub);
  }

  /** The verifier does panic: exactly under a public key, on a claim that passes every check before the
      signature and is too long for the signed message's length field. */
  lemma VerifyPanicsIff(s: Suite, trust: Key, claim: seq<byte>, devicePub: Key, sig: Signature, now: nat)
    ensures Verify(s, trust, claim, devicePub, sig, now).Panicked? <==>
      s.validKey(trust) && |claim| > U16_MAX && exists f :: Acceptable(s, f, trust, devicePub) && claim == Claim(f)
  {
    hide Claim, DeviceId, Caps.WellFormed, Encodable, ParseClaim;
    if ParseClaim(claim).Some? {
      ParsedIsEncodable(claim);
      if Verify(s, trust, claim, devicePub, sig, now).Panicked? {
        assert Acceptable(s, ParseClaim(claim).value, trust, devicePub);
      }
    }
    forall f | Acceptable(s, f, trust, devicePub) && claim == Claim(f) ensures ParseClaim(claim) == Some(f) {
      ParsesOwnClaim(f);
    }
  }

  /** One scope of 60000 letters. */
  const LONG_SCOPE: seq<byte> := seq(60000, _ => 0x61)

  lemma LongScopeIsCanonical()
    ensures |LONG_SCOPE| == 60000 && Utf8.Valid(LONG_SCOPE) && Caps.WellFormed(LONG_SCOPE)
  {
    Utf8.AsciiIsValid(LONG_SCOPE);
    Caps.OneScope(LONG_SCOPE);
  }

  lemma {:induction false} EncodedLength(data: seq<byte>)
    ensures 3 * |Base64Url.Encode(data)| >= 4 * |data|
  {
    if |data| > 3 { EncodedLength(data[3..]); }
  }

  lemma {:induction false} ConcatHolds(l: seq<seq<byte>>, i: nat)
    requires i < |l|
    ensures |Concat(l)| >= |l[i]|
  {
    if i > 0 { ConcatHolds(l[1..], i - 1); }
  }

  /** And there is such a claim for every device and every trust key: a long capability string fits its own
      field, but in base64 the claim outgrows the field of the signed message. */
  lemma VerifyCanPanic(s: Suite, trust: Key, devicePub: Key, sig: Signature, now: nat)
    requires s.validKey(trust) && |s.idHash(devicePub)| == 12
    ensures
      var f := Fields(trust, DeviceId(s, devicePub), devicePub, LONG_SCOPE, 0, 0);
      Acceptable(s, f, trust, devicePub) && Verify(s, trust, Claim(f), devicePub, sig, now).Panicked?
  {
    var f := Fields(trust, DeviceId(s, devicePub), devicePub, LONG_SCOPE, 0, 0);
    LongScopeIsCanonical();
    DeviceIdIsText(s, devicePub);
    Widths();
    DeviceIdIsShort(s, devicePub);
    hide Caps.WellFormed, Utf8.Valid, DeviceId, Concat, LE, LONG_SCOPE;
    ConcatHolds(FieldList(f), 3);
    EncodedLength(ClaimBytes(f));
    hide Claim;
    assert Acceptable(s, f, trust, devicePub);
    ClaimIsEncoded(f);
    VerifyPanicsIff(s, trust, Claim(f), devicePub, sig, now);
  }

  lemma ClaimIsEncoded(f: Fields)
    ensures Claim(f) == Base64Url.Encode(ClaimBytes(f))
  {
  }

  lemma DeviceIdIsShort(s: Suite, devicePub: Key)
    requires |s.idHash(devicePub)| == 12
    ensures |DeviceId(s, devicePub)| <= U16_MAX
  {
    EncodedAtMost(s.idHash(devicePub));
  }

  lemma {:induction false} EncodedAtMost(data: seq<byte>)
    ensures |Base64Url.Encode(data)| <= 2 * |data|
  {
    if |data| > 3 { EncodedAtMost(data[3..]); }
  }
}
