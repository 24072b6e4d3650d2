/** UTF-8 as the standard library's validator accepts it (section 4 of RFC 3629). */
module Utf8 {
  import opened Bytes

  predicate Tail(b: byte) {
    0x80 <= b <= 0xbf
  }

  /** The length of the well-formed character at the front, or zero. */
  function CharLength(b: seq<byte>): (n: nat)
    ensures n <= |b| && n <= 4
    ensures n == 0 ==> b == [] || b[0] >= 0x80
  {
    if b == [] then 0
    else if b[0] < 0x80 then 1
    else if 0xc2 <= b[0] <= 0xdf && |b| >= 2 && Tail(b[1]) then 2
    else if 0xe0 <= b[0] <= 0xef && |b| >= 3 && Tail(b[1]) && Tail(b[2])
            && (b[0] == 0xe0 ==> b[1] >= 0xa0) && (b[0] == 0xed ==> b[1] <= 0x9f) then 3
    else if 0xf0 <= b[0] <= 0xf4 && |b| >= 4 && Tail(b[1]) && Tail(b[2]) && Tail(b[3])
            && (b[0] == 0xf0 ==> b[1] >= 0x90) && (b[0] == 0xf4 ==> b[1] <= 0x8f) then 4
    else 0
  }

  predicate Valid(b: seq<byte>) {
    b == [] || (CharLength(b) > 0 && Valid(b[CharLength(b)..]))
  }

  /** A Unicode scalar value: no surrogate. */
  predicate Scalar(c: nat) {
    c < 0xd800 || 0xe000 <= c < 0x11_0000
  }

  /** Its UTF-8 bytes (section 3 of RFC 3629). */
  function EncodeChar(c: nat): (b: seq<byte>)
    requires Scalar(c)
    ensures 1 <= |b| <= 4
  {
    if c < 0x80 then [c]
    else if c < 0x800 then [0xc0 + c / 64, 0x80 + c % 64]
    else if c < 0x1_0000 then [0xe0 + c / 4096, 0x80 + c / 64 % 64, 0x80 + c % 64]
    else [0xf0 + c / 262144, 0x80 + c / 4096 % 64, 0x80 + c / 64 % 64, 0x80 + c % 64]
  }

  lemma EncodedIsRead(c: nat, after: seq<byte>)
    requires Scalar(c)
    ensures CharLength(EncodeChar(c) + after) == |EncodeChar(c)|
  {
    if 0x800 <= c < 0x1_0000 {
      assert c / 4096 == c / 64 / 64;
    } else if c >= 0x1_0000 {
      assert c / 4096 == c / 64 / 64 && c / 262144 == c / 4096 / 64;
    }
  }

  lemma ReadIsEncoded(b: seq<byte>) returns (c: nat)
    requires CharLength(b) > 0
    ensures Scalar(c) && EncodeChar(c) == b[..CharLength(b)]
  {
    var n := CharLength(b);
    if n == 1 {
      c := b[0];
      assert b[..1] == [b[0]];
    } else if n == 2 {
      c := ReadTwo(b[0], b[1]);
      assert b[..2] == [b[0], b[1]];
    } else if n == 3 {
      c := ReadThree(b[0], b[1], b[2]);
      assert b[..3] == [b[0], b[1], b[2]];
    } else {
      c := ReadFour(b[0], b[1], b[2], b[3]);
      assert b[..4] == [b[0], b[1], b[2], b[3]];
    }
  }

  lemma ReadTwo(b0: int, b1: int) returns (c: nat)
    requires 0xc2 <= b0 <= 0xdf && 0x80 <= b1 <= 0xbf
    ensures Scalar(c) && EncodeChar(c) == [b0, b1]
  {
    c := (b0 - 0xc0) * 64 + (b1 - 0x80);
  }

  lemma ReadThree(b0: int, b1: int, b2: int) returns (c: nat)
    requires 0xe0 <= b0 <= 0xef && 0x80 <= b1 <= 0xbf && 0x80 <= b2 <= 0xbf && (b0 == 0xe0 ==> b1 >= 0xa0) && (b0 == 0xed ==> b1 <= 0x9f)
    ensures Scalar(c) && EncodeChar(c) == [b0, b1, b2]
  {
    c := (b0 - 0xe0) * 4096 + (b1 - 0x80) * 64 + (b2 - 0x80);
    assert c / 64 == (b0 - 0xe0) * 64 + (b1 - 0x80);
  }

  lemma ReadFour(b0: int, b1: int, b2: int, b3: int) returns (c: nat)
    requires 0xf0 <= b0 <= 0xf4 && 0x80 <= b1 <= 0xbf && 0x80 <= b2 <= 0xbf && 0x80 <= b3 <= 0xbf
    requires (b0 == 0xf0 ==> b1 >= 0x90) && (b0 == 0xf4 ==> b1 <= 0x8f)
    ensures Scalar(c) && EncodeChar(c) == [b0, b1, b2, b3]
  {
    c := (b0 - 0xf0) * 262144 + (b1 - 0x80) * 4096 + (b2 - 0x80) * 64 + (b3 - 0x80);
    assert c / 64 == (b0 - 0xf0) * 4096 + (b1 - 0x80) * 64 + (b2 - 0x80);
    assert c / 4096 == (b0 - 0xf0) * 64 + (b1 - 0x80);
  }

  predicate Scalars(cs: seq<nat>) {
    forall c <- cs :: Scalar(c)
  }

  function EncodeText(cs: seq<nat>): seq<byte>
    requires Scalars(cs)
  {
    if cs == [] then [] else assert cs[0] in cs && forall c <- cs[1..] :: c in cs; EncodeChar(cs[0]) + EncodeText(cs[1..])
  }

  lemma {:induction false} TextIsValid(cs: seq<nat>)
    requires Scalars(cs)
    ensures Valid(EncodeText(cs))
  {
    if cs != [] {
      assert cs[0] in cs && forall c <- cs[1..] :: c in cs;
      TextIsValid(cs[1..]);
      EncodedIsRead(cs[0], EncodeText(cs[1..]));
      var (x, y) := (EncodeChar(cs[0]), EncodeText(cs[1..]));
      assert (x + y)[|x|..] == y;
    }
  }

  /** The bytes that are accepted are exactly the encodings of sequences of scalar values. */
  lemma {:induction false} ValidIsText(b: seq<byte>) returns (cs: seq<nat>)
    requires Valid(b)
    ensures Scalars(cs) && EncodeText(cs) == b
  {
    if b == [] {
      cs := [];
    } else {
      var c := ReadIsEncoded(b);
      var rest := ValidIsText(b[CharLength(b)..]);
      cs := [c] + rest;
      assert cs[1..] == rest && b == b[..CharLength(b)] + b[CharLength(b)..];
    }
  }

  lemma ValidIffText(b: seq<byte>)
    ensures Valid(b) <==> exists cs :: Scalars(cs) && EncodeText(cs) == b
  {
    if Valid(b) { var _ := ValidIsText(b); }
    forall cs | Scalars(cs) && EncodeText(cs) == b ensures Valid(b) { TextIsValid(cs); }
  }

  lemma {:induction false} AsciiIsValid(b: seq<byte>)
    requires forall x <- b :: x < 0x80
    ensures Valid(b)
  {
    if b != [] {
      assert b[0] in b && forall x <- b[1..] :: x in b;
      AsciiIsValid(b[1..]);
    }
  }
}

/** The binary `.freehold` container (bundle.rs). */
module Bundle {
  import opened Bytes
  import Utf8

  const MAGIC: seq<byte> := [0x46, 0x52, 0x45, 0x45, 0x48, 0x4f, 0x4c, 0x44]
  const VERSION: byte := 1
  const TAG_ENVELOPE: byte := 1
  const TAG_CRED_ID: byte := 2
  const TAG_FILE: byte := 3
  const TAG_EPOCH: byte := 4

  /** A name is the UTF-8 bytes of a string. */
  datatype File = File(name: seq<byte>, data: seq<byte>)

  datatype Bundle = Bundle(envelope: seq<byte>, credId: seq<byte>, files: seq<File>, epoch: seq<byte>)

  // ---------------------------------------------------------------- encoding

  function Section(tag: byte, payload: seq<byte>): seq<byte> {
    [tag] + LE(|payload|, 4) + payload
  }

  function OptionalSection(tag: byte, payload: seq<byte>): seq<byte> {
    if payload == [] then [] else Section(tag, payload)
  }

  function FileSection(f: File): seq<byte> {
    [TAG_FILE] + LE(|f.name|, 2) + f.name + LE(|f.data|, 4) + f.data
  }

  function FileSections(files: seq<File>): seq<byte> {
    if files == [] then [] else FileSection(files[0]) + FileSections(files[1..])
  }

  function Encoded(b: Bundle): seq<byte> {
    MAGIC + [VERSION] + Section(TAG_ENVELOPE, b.envelope) + OptionalSection(TAG_CRED_ID, b.credId)
    + FileSections(b.files) + OptionalSection(TAG_EPOCH, b.epoch)
  }

  /** `encode`. */
  method Encode(b: Bundle) returns (out: seq<byte>)
    ensures out == Encoded(b)
  {
    out := MAGIC + [VERSION] + [TAG_ENVELOPE] + LE(|b.envelope|, 4) + b.envelope;
    if b.credId != [] {
      out := out + [TAG_CRED_ID] + LE(|b.credId|, 4) + b.credId;
    }
    ghost var head := MAGIC + [VERSION] + Section(TAG_ENVELOPE, b.envelope) + OptionalSection(TAG_CRED_ID, b.credId);
    assert out == head;
    var files := EncodeFiles(b.files);
    out := out + files;
    if b.epoch != [] {
      out := out + [TAG_EPOCH] + LE(|b.epoch|, 4) + b.epoch;
    }
  }

  /** The file loop of `encode`. */
  method EncodeFiles(files: seq<File>) returns (out: seq<byte>)
    ensures out == FileSections(files)
  {
    hide LE, FileSections;
    out := [];
    SectionsOfNone();
    assert files[..0] == [] && files[..|files|] == files;
    for i := 0 to |files|
      invariant out == FileSections(files[..i])
    {
      var f := files[i];
      var section := [TAG_FILE] + LE(|f.name|, 2) + f.name + LE(|f.data|, 4) + f.data;
      assert files[..i + 1] == files[..i] + [f];
      SectionsAppend(files[..i], f);
      out := out + section;
    }
  }

  lemma SectionsOfNone()
    ensures FileSections([]) == []
  {
  }

  lemma {:induction false} SectionsAppend(files: seq<File>, f: File)
    ensures FileSections(files + [f]) == FileSections(files) + FileSection(f)
    decreases |files|
  {
    hide FileSection;
    if files == [] {
      assert [f][1..] == [] && [] + [f] == [f] && FileSections([]) == [];
      assert FileSection(f) + [] == FileSection(f);
    } else {
      assert (files + [f])[1..] == files[1..] + [f];
      SectionsAppend(files[1..], f);
    }
  }

  // ---------------------------------------------------------------- decoding

  /** `take` at a cursor: what was taken and where the cursor stands now. */
  function Take(b: seq<byte>, at: nat, n: nat): Option<(seq<byte>, nat)> {
    if at + n > |b| then None else Some((b[at..at + n], at + n))
  }

  /** A length of `width` bytes, then that many bytes. */
  function TakeSized(b: seq<byte>, at: nat, width: nat): Option<(seq<byte>, nat)> {
    match Take(b, at, width)
    case None => None
    case Some((len, at')) => Take(b, at', FromLE(len))
  }

  /** `decode`'s loop from a cursor on. */
  function DecodeFrom(bytes: seq<byte>, at: nat, b: Bundle, haveEnvelope: bool): Option<Bundle>
    decreases |bytes| - at
  {
    if at >= |bytes| then if haveEnvelope then Some(b) else None
    else if bytes[at] == TAG_ENVELOPE then
      match TakeSized(bytes, at + 1, 4)
      case None => None
      case Some((e, at')) => DecodeFrom(bytes, at', b.(envelope := e), true)
    else if bytes[at] == TAG_CRED_ID then
      match TakeSized(bytes, at + 1, 4)
      case None => None
      case Some((c, at')) => DecodeFrom(bytes, at', b.(credId := c), haveEnvelope)
    else if bytes[at] == TAG_FILE then
      match TakeSized(bytes, at + 1, 2)
      case None => None
      case Some((name, at')) =>
        if !Utf8.Valid(name) then None
        else
          match TakeSized(bytes, at', 4)
          case None => None
          case Some((data, at'')) => DecodeFrom(bytes, at'', b.(files := b.files + [File(name, data)]), haveEnvelope)
    else if bytes[at] == TAG_EPOCH then
      match TakeSized(bytes, at + 1, 4)
      case None => None
      case Some((e, at')) => DecodeFrom(bytes, at', b.(epoch := e), haveEnvelope)
    else None
  }

  const EMPTY := Bundle([], [], [], [])

  function Decoded(bytes: seq<byte>): Option<Bundle> {
    if |bytes| < 9 || bytes[..8] != MAGIC || bytes[8] != VERSION then None
    else DecodeFrom(bytes, 9, EMPTY, false)
  }

  method TakeU32Sized(bytes: seq<byte>, at: nat) returns (r: Option<(seq<byte>, nat)>)
    ensures r == TakeSized(bytes, at, 4)
  {
    var len := Take(bytes, at, 4);
    if len.None? { return None; }
    r := Take(bytes, len.value.1, FromLE(len.value.0));
  }

  /** `decode`, with its cursor and its mutable bundle. */
  method Decode(bytes: seq<byte>) returns (r: Option<Bundle>)
    ensures r == Decoded(bytes)
  {
    if |bytes| < 9 || bytes[..8] != MAGIC || bytes[8] != VERSION { return None; }
    var b, haveEnvelope, at := EMPTY, false, 9;
    while at < |bytes|
      invariant DecodeFrom(bytes, at, b, haveEnvelope) == Decoded(bytes)
      decreases |bytes| - at
    {
      var tag := bytes[at];
      at := at + 1;
      if tag == TAG_ENVELOPE {
        var t := TakeU32Sized(bytes, at);
        if t.None? { return None; }
        b, haveEnvelope, at := b.(envelope := t.value.0), true, t.value.1;
      } else if tag == TAG_CRED_ID {
        var t := TakeU32Sized(bytes, at);
        if t.None? { return None; }
        b, at := b.(credId := t.value.0), t.value.1;
      } else if tag == TAG_FILE {
        var len := Take(bytes, at, 2);
        if len.None? { return None; }
        var name := Take(bytes, len.value.1, FromLE(len.value.0));
        if name.None? || !Utf8.Valid(name.value.0) { return None; }
        var data := TakeU32Sized(bytes, name.value.1);
        if data.None? { return None; }
        b, at := b.(files := b.files + [File(name.value.0, data.value.0)]), data.value.1;
      } else if tag == TAG_EPOCH {
        var t := TakeU32Sized(bytes, at);
        if t.None? { return None; }
        b, at := b.(epoch := t.value.0), t.value.1;
      } else {
        return None;
      }
    }
    r := if haveEnvelope then Some(b) else None;
  }

  // ---------------------------------------------------------------- the round trip

  /** What the length fields can hold. */
  predicate Encodable(b: Bundle) {
    && |b.envelope| <= U32_MAX && |b.credId| <= U32_MAX && |b.epoch| <= U32_MAX
    && forall f <- b.files :: |f.name| <= U16_MAX && |f.data| <= U32_MAX && Utf8.Valid(f.name)
  }

  lemma SizedReads(before: seq<byte>, payload: seq<byte>, after: seq<byte>, width: nat)
    requires |payload| < Values(width)
    ensures TakeSized(before + LE(|payload|, width) + payload + after, |before|, width)
         == Some((payload, |before| + width + |payload|))
  {
    hide LE, FromLE, Values, TakeSized;
    var len := LE(|payload|, width);
    LERoundTrip(|payload|, width);
    Regroup(before, len, payload, after);
    Middle(before, len, payload + after);
    Middle(before + len, payload, after);
    SizedAt(before + len + payload + after, |before|, payload, width);
  }

  lemma SizedAt(b: seq<byte>, at: nat, payload: seq<byte>, width: nat)
    requires at + width + |payload| <= |b| && FromLE(b[at..at + width]) == |payload|
    requires b[at + width..at + width + |payload|] == payload
    ensures TakeSized(b, at, width) == Some((payload, at + width + |payload|))
  {
    hide FromLE;
  }

  lemma SectionReads(before: seq<byte>, tag: byte, payload: seq<byte>, after: seq<byte>)
    requires |payload| <= U32_MAX
    ensures
      var bytes := before + Section(tag, payload) + after;
      && |bytes| > |before| && bytes[|before|] == tag
      && TakeSized(bytes, |before| + 1, 4) == Some((payload, |before| + |Section(tag, payload)|))
  {
    hide LE, FromLE, TakeSized;
    Widths();
    SizedReads(before + [tag], payload, after, 4);
    assert before + Section(tag, payload) + after == (before + [tag]) + LE(|payload|, 4) + payload + after;
  }

  lemma FileReads(before: seq<byte>, f: File, after: seq<byte>)
    requires |f.name| <= U16_MAX && |f.data| <= U32_MAX
    ensures
      var bytes := before + FileSection(f) + after;
      && |bytes| > |before| && bytes[|before|] == TAG_FILE
      && TakeSized(bytes, |before| + 1, 2) == Some((f.name, |before| + 3 + |f.name|))
      && TakeSized(bytes, |before| + 3 + |f.name|, 4) == Some((f.data, |before| + |FileSection(f)|))
  {
    hide LE, FromLE, TakeSized;
    Widths();
    var bytes := before + FileSection(f) + after;
    var nameLen, rest := LE(|f.name|, 2), LE(|f.data|, 4) + f.data + after;
    SizedReads(before + [TAG_FILE], f.name, rest, 2);
    assert bytes == (before + [TAG_FILE]) + nameLen + f.name + rest;
    var upTo := before + [TAG_FILE] + nameLen + f.name;
    SizedReads(upTo, f.data, after, 4);
    assert bytes == upTo + LE(|f.data|, 4) + f.data + after;
  }

  lemma FileStep(before: seq<byte>, f: File, after: seq<byte>, b: Bundle)
    requires |f.name| <= U16_MAX && |f.data| <= U32_MAX && Utf8.Valid(f.name)
    ensures
      var bytes := before + FileSection(f) + after;
      DecodeFrom(bytes, |before|, b, true) == DecodeFrom(bytes, |before + FileSection(f)|, b.(files := b.files + [f]), true)
  {
    hide LE, FromLE, TakeSized, FileSection, DecodeFrom;
    FileReads(before, f, after);
    var bytes := before + FileSection(f) + after;
    FileUnfolds(bytes, |before|, b, f, |before| + 3 + |f.name|, |before| + |FileSection(f)|);
  }

  lemma FileUnfolds(bytes: seq<byte>, at: nat, b: Bundle, f: File, mid: nat, end: nat)
    requires at < |bytes| && bytes[at] == TAG_FILE && Utf8.Valid(f.name)
    requires TakeSized(bytes, at + 1, 2) == Some((f.name, mid)) && TakeSized(bytes, mid, 4) == Some((f.data, end))
    ensures DecodeFrom(bytes, at, b, true) == DecodeFrom(bytes, end, b.(files := b.files + [f]), true)
  {
    hide TakeSized, Utf8.Valid;
  }

  lemma {:induction false} FilesRead(before: seq<byte>, files: seq<File>, after: seq<byte>, b: Bundle)
    requires forall f <- files :: |f.name| <= U16_MAX && |f.data| <= U32_MAX && Utf8.Valid(f.name)
    ensures
      var bytes := before + FileSections(files) + after;
      DecodeFrom(bytes, |before|, b, true)
      == DecodeFrom(bytes, |before + FileSections(files)|, b.(files := b.files + files), true)
    decreases |files|
  {
    hide DecodeFrom, FileSection;
    if files == [] {
      assert b.files + [] == b.files && before + [] == before;
    } else {
      var f, rest := files[0], files[1..];
      assert f in files && forall g <- rest :: g in files;
      assert b.files + files == (b.files + [f]) + rest;
      var (one, others) := (FileSection(f), FileSections(rest));
      assert before + FileSections(files) == before + one + others;
      Regroup(before, one, others, after);
      FileStep(before, f, others + after, b);
      FilesRead(before + one, rest, after, b.(files := b.files + [f]));
    }
  }

  lemma CredReads(before: seq<byte>, payload: seq<byte>, after: seq<byte>, b: Bundle)
    requires |payload| <= U32_MAX && b.credId == []
    ensures
      var section := OptionalSection(TAG_CRED_ID, payload);
      DecodeFrom(before + section + after, |before|, b, true)
      == DecodeFrom(before + section + after, |before + section|, b.(credId := payload), true)
  {
    hide LE, FromLE, TakeSized, Section;
    if payload != [] { SectionReads(before, TAG_CRED_ID, payload, after); } else { assert before + [] == before; }
  }

  /** Decoding an encoded bundle gives it back. */
  lemma RoundTrip(b: Bundle)
    requires Encodable(b)
    ensures Decoded(Encoded(b)) == Some(b)
  {
    var cred, files, epoch := OptionalSection(TAG_CRED_ID, b.credId), FileSections(b.files), OptionalSection(TAG_EPOCH, b.epoch);
    var head := MAGIC + [VERSION] + Section(TAG_ENVELOPE, b.envelope);
    var b1 := EMPTY.(envelope := b.envelope);
    var b2 := b1.(credId := b.credId);
    assert b2.files + b.files == b.files;
    assert Encoded(b) == head + cred + files + epoch;
    hide DecodeFrom, Section, OptionalSection, FileSections, Decoded, Encoded;
    Regroup(head, cred, files, epoch);
    Regroup(head, cred, files + epoch, []);
    assert files + epoch + [] == files + epoch && head + (cred + (files + epoch)) + [] == head + (cred + (files + epoch));
    assert head + cred + (files + epoch) + [] == head + cred + (files + epoch);
    HeadReads(b.envelope, cred + (files + epoch));
    CredReads(head, b.credId, files + epoch, b1);
    FilesRead(head + cred, b.files, epoch, b2);
    LastReads(head + cred + files, b.epoch, b.(epoch := []));
  }

  lemma HeadReads(envelope: seq<byte>, after: seq<byte>)
    requires |envelope| <= U32_MAX
    ensures
      var head := MAGIC + [VERSION] + Section(TAG_ENVELOPE, envelope);
      Decoded(head + after) == DecodeFrom(head + after, |head|, EMPTY.(envelope := envelope), true)
  {
    hide LE, FromLE, TakeSized, Section;
    var start := MAGIC + [VERSION];
    var bytes := start + Section(TAG_ENVELOPE, envelope) + after;
    assert bytes[..8] == MAGIC && bytes[8] == VERSION && |start| == 9;
    SectionReads(start, TAG_ENVELOPE, envelope, after);
  }

  lemma LastReads(before: seq<byte>, payload: seq<byte>, b: Bundle)
    requires |payload| <= U32_MAX && b.epoch == []
    ensures
      DecodeFrom(before + OptionalSection(TAG_EPOCH, payload), |before|, b, true) == Some(b.(epoch := payload))
  {
    hide LE, FromLE, TakeSized, Section;
    if payload != [] {
      SectionReads(before, TAG_EPOCH, payload, []);
      assert before + Section(TAG_EPOCH, payload) + [] == before + Section(TAG_EPOCH, payload);
    } else {
      assert before + [] == before;
    }
  }
}
