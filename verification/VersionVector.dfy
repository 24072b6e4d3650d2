/** Version vectors: the lattice, the wire encoding and the fork-winner order (sync.rs). */
module VersionVector {
  import opened Bytes

  /** A 16-byte device id, as the number its bytes spell big-endian; array order is numeric order. */
  type DeviceId = x: int | 0 <= x < ID_LIMIT
  const ID_LIMIT: int := 0x1_0000_0000_0000_0000_0000_0000_0000_0000

  datatype Entry = Entry(id: DeviceId, count: nat)

  /** The ordered map of a vector, as its entries in ascending order. */
  type Vec = seq<Entry>

  predicate Sorted(v: Vec) {
    forall i, j :: 0 <= i < j < |v| ==> v[i].id < v[j].id
  }

  /** No component is zero and every one fits 64 bits. */
  predicate Canonical(v: Vec) {
    Sorted(v) && forall e <- v :: 0 < e.count <= U64_MAX
  }

  /** One component; absent means zero. */
  function Get(v: Vec, id: DeviceId): nat {
    if v == [] then 0 else if v[0].id == id then v[0].count else Get(v[1..], id)
  }

  /** Insert or overwrite one component. */
  function Put(v: Vec, id: DeviceId, count: nat): Vec {
    if v == [] || id < v[0].id then [Entry(id, count)] + v
    else if v[0].id == id then [Entry(id, count)] + v[1..]
    else [v[0]] + Put(v[1..], id, count)
  }

  lemma {:induction false} GetAbsent(v: Vec, id: DeviceId)
    requires forall e <- v :: e.id != id
    ensures Get(v, id) == 0
  {
    if v != [] { GetAbsent(v[1..], id); }
  }

  lemma {:induction false} GetAt(v: Vec, i: nat)
    requires Sorted(v) && i < |v|
    ensures Get(v, v[i].id) == v[i].count
  {
    if i > 0 { GetAt(v[1..], i - 1); }
  }

  lemma {:induction false} PutSorted(v: Vec, id: DeviceId, count: nat)
    requires Sorted(v)
    ensures Sorted(Put(v, id, count))
    ensures forall e <- Put(v, id, count) :: e == Entry(id, count) || e in v
    ensures forall x: DeviceId :: Get(Put(v, id, count), x) == if x == id then count else Get(v, x)
    decreases |v|
  {
    if v != [] && v[0].id < id {
      PutSorted(v[1..], id, count);
      var rest := Put(v[1..], id, count);
      forall e | e in rest ensures v[0].id < e.id {
        if e in v[1..] { var i :| 0 <= i < |v[1..]| && v[1..][i] == e; assert v[i + 1] == e; }
      }
      assert ([v[0]] + rest)[1..] == rest;
    } else if v == [] || id < v[0].id {
      assert ([Entry(id, count)] + v)[1..] == v;
      if v != [] { forall e | e in v ensures id < e.id {} GetAbsent(v, id); }
    } else {
      assert ([Entry(id, count)] + v[1..])[1..] == v[1..];
    }
  }

  // ---------------------------------------------------------------- the operations

  function Incremented(v: Vec, id: DeviceId): Vec {
    Put(v, id, Min(Get(v, id) + 1, U64_MAX))
  }

  function Merge(a: Vec, b: Vec): Vec
    decreases |b|
  {
    if b == [] then a else Merge(Put(a, b[0].id, Max(Get(a, b[0].id), b[0].count)), b[1..])
  }

  datatype Relation = Equal | Dominates | DominatedBy | Concurrent

  /** Some key has a greater component in `a` than in `b`. */
  predicate Exceeds(keys: seq<Entry>, a: Vec, b: Vec) {
    exists e <- keys :: Get(a, e.id) > Get(b, e.id)
  }

  function Relate(a: Vec, b: Vec): Relation {
    match (Exceeds(a + b, a, b), Exceeds(a + b, b, a))
    case (false, false) => Equal
    case (true, false) => Dominates
    case (false, true) => DominatedBy
    case (true, true) => Concurrent
  }

  /** Component-wise at most. */
  ghost predicate Leq(a: Vec, b: Vec) {
    forall x: DeviceId :: Get(a, x) <= Get(b, x)
  }

  lemma LeqIffNotExceeding(a: Vec, b: Vec)
    ensures Leq(a, b) <==> !Exceeds(a + b, a, b)
  {
    if !Leq(a, b) {
      var x: DeviceId :| Get(a, x) > Get(b, x);
      if forall e <- a :: e.id != x { GetAbsent(a, x); }
      var e :| e in a && e.id == x;
      assert e in a + b;
    }
  }

  /** The four relations are exactly the component-wise order. */
  lemma RelationIsTheOrder(a: Vec, b: Vec)
    ensures Relate(a, b) == if Leq(a, b) then (if Leq(b, a) then Equal else DominatedBy)
                            else if Leq(b, a) then Dominates else Concurrent
  {
    LeqIffNotExceeding(a, b);
    LeqIffNotExceeding(b, a);
    assert forall e :: e in a + b <==> e in b + a;
    assert Exceeds(a + b, b, a) <==> Exceeds(b + a, b, a);
  }

  lemma EmptyIffZero(v: Vec)
    requires Canonical(v)
    ensures v == [] <==> forall x: DeviceId :: Get(v, x) == 0
  {
    if v != [] {
      assert v[0] in v;
      GetAt(v, 0);
      var x: DeviceId := v[0].id;
      assert Get(v, x) > 0;
    }
  }

  /** Canonical vectors with equal components are equal. */
  lemma {:induction false} Extensional(a: Vec, b: Vec)
    requires Canonical(a) && Canonical(b) && Leq(a, b) && Leq(b, a)
    ensures a == b
    decreases |a|
  {
    EmptyIffZero(a);
    EmptyIffZero(b);
    if a != [] {
      GetAt(a, 0);
      GetAt(b, 0);
      if a[0].id < b[0].id { GetAbsent(b, a[0].id); }
      if b[0].id < a[0].id { GetAbsent(a, b[0].id); }
      assert a[0] == b[0];
      forall x: DeviceId ensures Get(a[1..], x) == Get(b[1..], x) {
        if x == a[0].id { GetAbsent(a[1..], x); GetAbsent(b[1..], x); } else { assert Get(a, x) == Get(b, x); }
      }
      assert a == [a[0]] + a[1..] && b == [b[0]] + b[1..];
      Extensional(a[1..], b[1..]);
    }
  }

  lemma {:induction false} MergeIsMax(a: Vec, b: Vec)
    requires Sorted(a) && Sorted(b)
    ensures Sorted(Merge(a, b))
    ensures forall x: DeviceId :: Get(Merge(a, b), x) == Max(Get(a, x), Get(b, x))
    ensures Canonical(a) && Canonical(b) ==> Canonical(Merge(a, b))
    decreases |b|
  {
    if b != [] {
      var c := Max(Get(a, b[0].id), b[0].count);
      var a' := Put(a, b[0].id, c);
      PutSorted(a, b[0].id, c);
      MergeIsMax(a', b[1..]);
      forall x: DeviceId ensures Max(Get(a', x), Get(b[1..], x)) == Max(Get(a, x), Get(b, x)) {
        if x == b[0].id { GetAbsent(b[1..], x); }
      }
      if Canonical(a) && Canonical(b) {
        GetBounded(a, b[0].id);
        assert b[0] in b;
        assert forall e <- b[1..] :: e in b;
      }
    }
  }

  lemma {:induction false} GetBounded(v: Vec, id: DeviceId)
    requires forall e <- v :: e.count <= U64_MAX
    ensures Get(v, id) <= U64_MAX
  {
    if v != [] {
      assert v[0] in v && forall e <- v[1..] :: e in v;
      GetBounded(v[1..], id);
    }
  }

  /** Zero components are unreachable, and an increment moves only its own component. */
  lemma IncrementKeeps(v: Vec, id: DeviceId)
    requires Canonical(v)
    ensures Canonical(Incremented(v, id))
    ensures forall x: DeviceId :: Get(Incremented(v, id), x) == if x == id then Min(Get(v, id) + 1, U64_MAX) else Get(v, x)
  {
    PutSorted(v, id, Min(Get(v, id) + 1, U64_MAX));
  }

  lemma MergeAssociates(a: Vec, b: Vec, c: Vec)
    requires Canonical(a) && Canonical(b) && Canonical(c)
    ensures Merge(Merge(a, b), c) == Merge(a, Merge(b, c))
  {
    hide Merge, Get;
    MergeIsMax(a, b);
    MergeIsMax(b, c);
    MergeIsMax(Merge(a, b), c);
    MergeIsMax(a, Merge(b, c));
    Extensional(Merge(Merge(a, b), c), Merge(a, Merge(b, c)));
  }

  lemma MergeCommutes(a: Vec, b: Vec)
    requires Canonical(a) && Canonical(b)
    ensures Merge(a, b) == Merge(b, a)
  {
    hide Merge, Get;
    MergeIsMax(a, b);
    MergeIsMax(b, a);
    Extensional(Merge(a, b), Merge(b, a));
  }

  /** `Merge` is the join of the order. */
  lemma MergeIsJoin(a: Vec, b: Vec, c: Vec)
    requires Canonical(a) && Canonical(b) && Canonical(c)
    ensures Leq(a, Merge(a, b)) && Leq(b, Merge(a, b))
    ensures Leq(a, c) && Leq(b, c) ==> Leq(Merge(a, b), c)
    ensures Merge(a, b) == Merge(b, a)
    ensures Merge(Merge(a, b), c) == Merge(a, Merge(b, c))
    ensures Merge(a, a) == a
    ensures Leq(a, b) ==> Merge(a, b) == b
  {
    hide Merge, Get;
    MergeCommutes(a, b);
    MergeAssociates(a, b, c);
    MergeIsMax(a, b);
    MergeIsMax(a, a);
    Extensional(Merge(a, a), a);
    if Leq(a, b) { Extensional(Merge(a, b), b); }
  }

  // ---------------------------------------------------------------- the fork winner

  function Sum(v: Vec): nat {
    if v == [] then 0 else v[0].count + Sum(v[1..])
  }

  /** `total_count`: the saturating total. */
  function Total(v: Vec): nat {
    Min(Sum(v), U64_MAX)
  }

  function Ids(v: Vec): (ids: seq<int>)
    ensures |ids| == |v| && forall i :: 0 <= i < |v| ==> ids[i] == v[i].id
  {
    if v == [] then [] else [v[0].id] + Ids(v[1..])
  }

  function EncodeEntry(e: Entry): (b: seq<byte>)
    ensures |b| == 24
  {
    BE(e.id, 16) + LE(e.count, 8)
  }

  function EncodeEntries(v: Vec): (b: seq<byte>)
    ensures |b| == 24 * |v|
  {
    if v == [] then [] else EncodeEntry(v[0]) + EncodeEntries(v[1..])
  }

  /** The entries that are encoded: the non-zero ones. */
  function NonZero(v: Vec): Vec {
    if v == [] then [] else (if v[0].count > 0 then [v[0]] else []) + NonZero(v[1..])
  }

  function Encode(v: Vec): seq<byte> {
    LE(|NonZero(v)|, 4) + EncodeEntries(NonZero(v))
  }

  lemma {:induction false} NonZeroOfCanonical(v: Vec)
    requires forall e <- v :: e.count > 0
    ensures NonZero(v) == v
  {
    if v != [] {
      assert v[0] in v && forall e <- v[1..] :: e in v;
      NonZeroOfCanonical(v[1..]);
    }
  }

  /** `incoming_wins`: larger total, then smaller id list, then smaller encoding. */
  predicate IncomingWins(local: Vec, incoming: Vec) {
    if Total(incoming) != Total(local) then Total(incoming) > Total(local)
    else if Ids(NonZero(incoming)) != Ids(NonZero(local)) then LexLess(Ids(NonZero(incoming)), Ids(NonZero(local)))
    else LexLess(Encode(incoming), Encode(local))
  }

  datatype Outcome = FastForward | Stale | Fork(winnerIsIncoming: bool)

  function Reconcile(local: Vec, incoming: Vec): Outcome {
    match Relate(incoming, local)
    case Dominates => FastForward
    case Equal => Stale
    case DominatedBy => Stale
    case Concurrent => Fork(IncomingWins(local, incoming))
  }

  // ---------------------------------------------------------------- decoding

  /** `VersionVector::decode`'s entry loop, over the bytes the count announces. */
  function DecodeEntries(b: seq<byte>, prev: Option<DeviceId>): Option<Vec>
    requires |b| % 24 == 0
    decreases |b|
  {
    if b == [] then Some([])
    else
      var id := IdIn(b[..16]);
      var count := FromLE(b[16..24]);
      if (prev.Some? && id <= prev.value) || count == 0 then None
      else
        match DecodeEntries(b[24..], Some(id))
        case None => None
        case Some(rest) => Some([Entry(id, count)] + rest)
  }

  /** Sixteen bytes as an id. */
  function IdIn(b: seq<byte>): (id: DeviceId)
    requires |b| == 16
    ensures id == FromBE(b)
  {
    Values16();
    FromBE(b)
  }

  lemma Values16()
    ensures Values(16) == ID_LIMIT
  {
    Widths();
    assert Values(9) == 256 * Values(8);
    assert Values(10) == 256 * Values(9);
    assert Values(11) == 256 * Values(10);
    assert Values(12) == 256 * Values(11);
    assert Values(13) == 256 * Values(12);
    assert Values(14) == 256 * Values(13);
    assert Values(15) == 256 * Values(14);
    assert Values(16) == 256 * Values(15);
  }

  /** `VersionVector::decode` at a cursor: the vector and where it ends. */
  function Decode(b: seq<byte>, at: nat): Option<(Vec, nat)> {
    if at + 4 > |b| then None
    else
      var end := at + 4 + 24 * FromLE(b[at..at + 4]);
      if end > |b| then None
      else
        match DecodeEntries(b[at + 4..end], None)
        case None => None
        case Some(v) => Some((v, end))
  }

  lemma EntryReadsBack(e: Entry, after: seq<byte>)
    requires e.count <= U64_MAX
    ensures
      var b := EncodeEntry(e) + after;
      FromBE(b[..16]) == e.id && FromLE(b[16..24]) == e.count && b[24..] == after
  {
    var b := EncodeEntry(e) + after;
    assert b[..16] == BE(e.id, 16) && b[16..24] == LE(e.count, 8);
    Values16();
    Widths();
    BERoundTrip(e.id, 16);
    LERoundTrip(e.count, 8);
  }

  lemma DecodeStep(e: Entry, after: seq<byte>, prev: Option<DeviceId>)
    requires 0 < e.count <= U64_MAX && |after| % 24 == 0 && (prev.Some? ==> prev.value < e.id)
    requires DecodeEntries(after, Some(e.id)).Some?
    ensures DecodeEntries(EncodeEntry(e) + after, prev) == Some([e] + DecodeEntries(after, Some(e.id)).value)
  {
    hide EncodeEntry, FromLE, FromBE;
    EntryReadsBack(e, after);
  }

  lemma {:induction false} EntriesReadBack(v: Vec, prev: Option<DeviceId>)
    requires Canonical(v) && (prev.Some? && v != [] ==> prev.value < v[0].id)
    ensures DecodeEntries(EncodeEntries(v), prev) == Some(v)
    decreases |v|
  {
    if v != [] {
      var e, rest := v[0], v[1..];
      assert v == [e] + rest;
      TailIsCanonical(v);
      assert e in v && (rest != [] ==> e.id < rest[0].id);
      assert EncodeEntries(v) == EncodeEntry(e) + EncodeEntries(rest);
      hide EncodeEntry, EncodeEntries, DecodeEntries, FromLE, FromBE, Canonical;
      EntriesReadBack(rest, Some(e.id));
      DecodeStep(e, EncodeEntries(rest), prev);
    }
  }

  /** Decoding what was encoded, wherever it stands in a larger blob, gives the vector back. */
  lemma DecodeOfEncode(before: seq<byte>, v: Vec, after: seq<byte>)
    requires Canonical(v) && |v| <= U32_MAX
    ensures Decode(before + Encode(v) + after, |before|) == Some((v, |before| + |Encode(v)|))
  {
    var enc := Encode(v);
    EncodedParts(v);
    EntriesReadBack(v, None);
    Within(before, enc, after, 0, 4);
    Within(before, enc, after, 4, |enc|);
    hide LE, FromLE, EncodeEntries, DecodeEntries, Encode, Canonical, NonZero, Decode;
    DecodesAs(before + enc + after, |before|, |v|, v);
  }

  lemma DecodesAs(b: seq<byte>, at: nat, n: nat, v: Vec)
    requires at + 4 + 24 * n <= |b| && FromLE(b[at..at + 4]) == n
    requires DecodeEntries(b[at + 4..at + 4 + 24 * n], None) == Some(v)
    ensures Decode(b, at) == Some((v, at + 4 + 24 * n))
  {
    hide FromLE, DecodeEntries;
  }

  lemma EncodedParts(v: Vec)
    requires Canonical(v) && |v| <= U32_MAX
    ensures
      var enc := Encode(v);
      |enc| == 4 + 24 * |v| && FromLE(enc[0..4]) == |v| && enc[4..|enc|] == EncodeEntries(v)
  {
    var (head, entries) := (LE(|v|, 4), EncodeEntries(v));
    NonZeroOfCanonical(v);
    Widths();
    LERoundTrip(|v|, 4);
    hide LE, FromLE, EncodeEntries, Canonical, NonZero;
    assert Encode(v) == head + entries;
    Middle([], head, entries);
    Middle(head, entries, []);
    assert [] + head + entries == head + entries && head + entries + [] == head + entries;
  }

  lemma ConsSorted(e: Entry, rest: Vec)
    requires Canonical(rest) && 0 < e.count <= U64_MAX && (rest != [] ==> e.id < rest[0].id)
    ensures Canonical([e] + rest)
  {
    var v := [e] + rest;
    forall i, j | 0 <= i < j < |v| ensures v[i].id < v[j].id {
      if i == 0 && j > 1 { assert rest[0].id < rest[j - 1].id; }
    }
  }

  lemma EntryBytes(b: seq<byte>)
    requires |b| == 24
    ensures FromLE(b[16..24]) <= U64_MAX && EncodeEntry(Entry(IdIn(b[..16]), FromLE(b[16..24]))) == b
  {
    Widths();
    BECanonical(b[..16]);
    LECanonical(b[16..24]);
    assert b == b[..16] + b[16..24];
  }

  /** A decoded head and what decodes behind it. */
  lemma DecodedFirst(b: seq<byte>, prev: Option<DeviceId>)
    requires |b| % 24 == 0 && b != [] && DecodeEntries(b, prev).Some?
    ensures |b| >= 24
    ensures
      var e := Entry(IdIn(b[..16]), FromLE(b[16..24]));
      && e.count > 0 && (prev.Some? ==> prev.value < e.id) && DecodeEntries(b[24..], Some(e.id)).Some?
      && DecodeEntries(b, prev).value == [e] + DecodeEntries(b[24..], Some(e.id)).value
  {
    hide FromLE, FromBE;
  }

  lemma {:induction false} EntriesAreCanonical(b: seq<byte>, prev: Option<DeviceId>)
    requires |b| % 24 == 0 && DecodeEntries(b, prev).Some?
    ensures
      var v := DecodeEntries(b, prev).value;
      Canonical(v) && (prev.Some? && v != [] ==> prev.value < v[0].id) && EncodeEntries(v) == b
    decreases |b|
  {
    if b != [] {
      DecodedFirst(b, prev);
      var head := b[..24];
      EntryBytes(head);
      assert head[..16] == b[..16] && head[16..24] == b[16..24] && b == head + b[24..];
      hide FromLE, FromBE, IdIn, EncodeEntry, DecodeEntries, Canonical;
      var e := Entry(IdIn(b[..16]), FromLE(b[16..24]));
      EntriesAreCanonical(b[24..], Some(e.id));
      var rest := DecodeEntries(b[24..], Some(e.id)).value;
      ConsSorted(e, rest);
      assert ([e] + rest)[1..] == rest;
    }
  }

  /** Whatever decodes is canonical and is exactly its own encoding. */
  lemma EncodeOfDecode(b: seq<byte>, at: nat)
    requires Decode(b, at).Some?
    ensures
      var (v, end) := Decode(b, at).value;
      && Canonical(v) && |v| <= U32_MAX && at <= end <= |b| && b[at..end] == Encode(v)
  {
    var n := FromLE(b[at..at + 4]);
    var entries := b[at + 4..at + 4 + 24 * n];
    EntriesAreCanonical(entries, None);
    var v := DecodeEntries(entries, None).value;
    NonZeroOfCanonical(v);
    Widths();
    LECanonical(b[at..at + 4]);
    assert b[at..at + 4 + 24 * n] == b[at..at + 4] + entries;
  }

  // ---------------------------------------------------------------- the winner is agreed

  /** `a` wins against `b`, whichever of them is local. */
  predicate Beats(a: Vec, b: Vec) {
    IncomingWins(b, a)
  }

  lemma EncodeInjective(a: Vec, b: Vec)
    requires Canonical(a) && Canonical(b) && |a| <= U32_MAX && |b| <= U32_MAX && Encode(a) == Encode(b)
    ensures a == b
  {
    DecodeOfEncode([], a, []);
    DecodeOfEncode([], b, []);
    assert [] + Encode(a) + [] == Encode(a) && [] + Encode(b) + [] == Encode(b);
  }

  /** The fork rule is a strict total order on vectors. */
  lemma WinnerIsTotalOrder(a: Vec, b: Vec, c: Vec)
    requires Canonical(a) && Canonical(b) && |a| <= U32_MAX && |b| <= U32_MAX
    ensures !Beats(a, a)
    ensures a != b ==> Beats(a, b) || Beats(b, a)
    ensures !(Beats(a, b) && Beats(b, a))
    ensures Beats(a, b) && Beats(b, c) ==> Beats(a, c)
  {
    LexIrreflexive(Encode(a));
    BeatsTransitive(a, b, a);
    BeatsTransitive(a, b, c);
    if a != b {
      if Encode(a) == Encode(b) { EncodeInjective(a, b); }
      LexTotal(Encode(a), Encode(b));
      if Ids(NonZero(a)) != Ids(NonZero(b)) { LexTotal(Ids(NonZero(a)), Ids(NonZero(b))); }
    }
  }

  lemma BeatsTransitive(a: Vec, b: Vec, c: Vec)
    ensures Beats(a, b) && Beats(b, c) ==> Beats(a, c)
  {
    var (x, y, z) := (Ids(NonZero(a)), Ids(NonZero(b)), Ids(NonZero(c)));
    if LexLess(x, y) && LexLess(y, z) { LexTransitive(x, y, z); LexIrreflexive(x); }
    if LexLess(Encode(a), Encode(b)) && LexLess(Encode(b), Encode(c)) { LexTransitive(Encode(a), Encode(b), Encode(c)); }
  }

  lemma {:induction false} SumIsMonotone(a: Vec, b: Vec)
    requires Canonical(a) && Canonical(b) && Leq(b, a)
    ensures Sum(b) <= Sum(a) && (a != b ==> Sum(b) < Sum(a))
    decreases |a|
  {
    EmptyIffZero(a);
    EmptyIffZero(b);
    if a != [] {
      assert a[0] in a;
      TailIsCanonical(a);
      if b != [] && b[0].id <= a[0].id {
        HeadsMatch(a, b);
        TailIsCanonical(b);
        SumIsMonotone(a[1..], b[1..]);
        assert a == [a[0]] + a[1..] && b == [b[0]] + b[1..];
      } else if b != [] {
        HeadIsExtra(a, b);
        SumIsMonotone(a[1..], b);
      }
    }
  }

  lemma TailIsCanonical(v: Vec)
    requires Canonical(v) && v != []
    ensures Canonical(v[1..])
    ensures forall x: DeviceId :: Get(v[1..], x) == if x == v[0].id then 0 else Get(v, x)
  {
    forall e | e in v[1..] ensures e in v && e.id != v[0].id {
      var i :| 0 <= i < |v[1..]| && v[1..][i] == e;
      assert v[i + 1] == e;
    }
    GetAbsent(v[1..], v[0].id);
  }

  lemma HeadsMatch(a: Vec, b: Vec)
    requires Canonical(a) && Canonical(b) && Leq(b, a) && a != [] && b != [] && b[0].id <= a[0].id
    ensures b[0].id == a[0].id && b[0].count <= a[0].count && Leq(b[1..], a[1..])
  {
    assert b[0] in b;
    if b[0].id < a[0].id { GetAbsent(a, b[0].id); }
    assert Get(b, b[0].id) <= Get(a, b[0].id);
    TailIsCanonical(a);
    TailIsCanonical(b);
  }

  lemma HeadIsExtra(a: Vec, b: Vec)
    requires Canonical(a) && Canonical(b) && Leq(b, a) && a != [] && b != [] && a[0].id < b[0].id
    ensures Leq(b, a[1..])
  {
    GetAbsent(b, a[0].id);
    TailIsCanonical(a);
  }

  /** `a` counts a device that `b` does not, with an id below the largest of `b`. */
  predicate ExtraIdBelow(a: Vec, b: Vec) {
    b != [] && exists e <- a :: Get(b, e.id) == 0 && e.id < b[|b| - 1].id
  }

  /** Ids grow along a vector. */
  lemma LaterIds(v: Vec, e: Entry)
    requires Sorted(v) && v != [] && e in v[1..]
    ensures e in v && e.id > v[0].id
  {
    var i :| 0 <= i < |v[1..]| && v[1..][i] == e;
    assert v[i + 1] == e;
  }

  lemma ExtraIdOfTails(a: Vec, b: Vec)
    requires Canonical(a) && Canonical(b) && a != [] && b != [] && a[0].id == b[0].id
    ensures ExtraIdBelow(a, b) <==> ExtraIdBelow(a[1..], b[1..])
  {
    TailIsCanonical(a);
    TailIsCanonical(b);
    assert b[0] in b && Get(b, b[0].id) > 0;
    assert a == [a[0]] + a[1..];
    forall e | e in a[1..] ensures e in a && e.id > b[0].id { LaterIds(a, e); }
    if |b| > 1 {
      assert b[|b| - 1] == b[1..][|b| - 2];
      hide Canonical, Get, ExtraIdBelow;
      ExtraIdShifts(a, b);
    } else {
      assert b == [b[0]] && b[1..] == [];
      forall e | e in a ensures e.id >= b[0].id { assert e == a[0] || e in a[1..]; }
      hide Canonical, Get;
    }
  }

  lemma ExtraIdShifts(a: Vec, b: Vec)
    requires a != [] && |b| > 1 && a[0].id == b[0].id && Get(b, b[0].id) > 0 && a == [a[0]] + a[1..]
    requires forall e <- a[1..] :: e in a && e.id > b[0].id
    requires b[|b| - 1] == b[1..][|b| - 2]
    requires forall x: DeviceId :: Get(b[1..], x) == if x == b[0].id then 0 else Get(b, x)
    ensures ExtraIdBelow(a, b) <==> ExtraIdBelow(a[1..], b[1..])
  {
    hide Get;
    if ExtraIdBelow(a, b) {
      var e :| e in a && Get(b, e.id) == 0 && e.id < b[|b| - 1].id;
      assert e.id != b[0].id && e in a[1..];
    }
    if ExtraIdBelow(a[1..], b[1..]) {
      var e :| e in a[1..] && Get(b[1..], e.id) == 0 && e.id < b[1..][|b| - 2].id;
      assert e in a;
    }
  }

  /** A dominating vector has the smaller id list exactly when it has an extra id in front of the
      other's last one. */
  lemma {:induction false} ExtraIdIsSmaller(a: Vec, b: Vec)
    requires Canonical(a) && Canonical(b) && Leq(b, a)
    ensures LexLess(Ids(a), Ids(b)) <==> ExtraIdBelow(a, b)
    decreases |a|
  {
    EmptyIffZero(a);
    EmptyIffZero(b);
    if b != [] && a != [] {
      assert Ids(a)[1..] == Ids(a[1..]) && Ids(b)[1..] == Ids(b[1..]);
      if b[0].id <= a[0].id {
        HeadsMatch(a, b);
        TailIsCanonical(a);
        TailIsCanonical(b);
        ExtraIdIsSmaller(a[1..], b[1..]);
        ExtraIdOfTails(a, b);
      } else {
        GetAbsent(b, a[0].id);
        assert a[0] in a;
        if |b| > 1 { assert b[0].id < b[|b| - 1].id; }
      }
    }
  }

  /** The fork rule extends dominance exactly below saturation, or with an extra id that comes early, or
      with the same ids and the smaller encoding. */
  lemma DominatorWinsIff(a: Vec, b: Vec)
    requires Canonical(a) && Canonical(b) && Leq(b, a) && a != b
    ensures Beats(a, b) <==> Sum(b) < U64_MAX || ExtraIdBelow(a, b) || (Ids(a) == Ids(b) && LexLess(Encode(a), Encode(b)))
  {
    SumIsMonotone(a, b);
    ExtraIdIsSmaller(a, b);
    LexIrreflexive(Ids(a));
    NonZeroOfCanonical(a);
    NonZeroOfCanonical(b);
    hide LexLess, Ids, Encode, NonZero, ExtraIdBelow, Leq, Sum;
  }

  /** The sum counts increments. */
  lemma {:induction false} SumCounts(v: Vec, id: DeviceId)
    requires Canonical(v)
    ensures Sum([]) == 0 && Sum(Incremented(v, id)) == Sum(v) + if Get(v, id) < U64_MAX then 1 else 0
  {
    SumOfPut(v, id, Min(Get(v, id) + 1, U64_MAX));
    GetBounded(v, id);
  }

  lemma {:induction false} SumOfPut(v: Vec, id: DeviceId, count: nat)
    requires Sorted(v)
    ensures Sum(Put(v, id, count)) == Sum(v) - Get(v, id) + count && Get(v, id) <= Sum(v)
    decreases |v|
  {
    if v != [] {
      if id < v[0].id {
        GetAbsent(v, id);
        assert ([Entry(id, count)] + v)[1..] == v;
      } else if v[0].id == id {
        assert ([Entry(id, count)] + v[1..])[1..] == v[1..];
      } else {
        SumOfPut(v[1..], id, count);
        assert ([v[0]] + Put(v[1..], id, count))[1..] == Put(v[1..], id, count);
      }
    }
  }

  /** More pushes win, up to saturation. */
  lemma MorePushesWin(local: Vec, incoming: Vec)
    requires Min(Sum(local), U64_MAX) != Min(Sum(incoming), U64_MAX)
    ensures IncomingWins(local, incoming) <==> Sum(incoming) > Sum(local)
  {
  }

  /** At as many pushes, the smaller id at the first place where the ids differ wins, and the shorter list
      if there is none. */
  lemma SmallerIdsWin(local: Vec, incoming: Vec, k: nat)
    requires Canonical(local) && Canonical(incoming) && Min(Sum(local), U64_MAX) == Min(Sum(incoming), U64_MAX)
    requires k <= |local| && k <= |incoming| && forall i :: 0 <= i < k ==> local[i].id == incoming[i].id
    ensures k < |local| && k < |incoming| && local[k].id != incoming[k].id ==>
      (IncomingWins(local, incoming) <==> incoming[k].id < local[k].id)
    ensures k == |incoming| < |local| ==> IncomingWins(local, incoming)
    ensures k == |local| < |incoming| ==> !IncomingWins(local, incoming)
  {
    var (x, y) := (Ids(incoming), Ids(local));
    assert x[..k] == y[..k];
    LexDecides(x, y, k);
    hide *;
    if x != y { IdsDecide(local, incoming); }
  }

  lemma IdsDecide(local: Vec, incoming: Vec)
    requires Canonical(local) && Canonical(incoming) && Min(Sum(local), U64_MAX) == Min(Sum(incoming), U64_MAX)
    requires Ids(incoming) != Ids(local)
    ensures IncomingWins(local, incoming) <==> LexLess(Ids(incoming), Ids(local))
  {
    NonZeroOfCanonical(local);
    NonZeroOfCanonical(incoming);
    hide LexLess, Ids, NonZero, Canonical, Sum, Encode;
  }

  /** With the same ids too, the smaller little-endian count at the first place where the counts differ wins. */
  lemma SmallerCountWins(local: Vec, incoming: Vec, k: nat)
    requires Canonical(local) && Canonical(incoming) && Min(Sum(local), U64_MAX) == Min(Sum(incoming), U64_MAX)
    requires |local| == |incoming| <= U32_MAX && k < |local| && local[..k] == incoming[..k]
    requires (forall i :: 0 <= i < |local| ==> local[i].id == incoming[i].id) && local[k].count != incoming[k].count
    ensures IncomingWins(local, incoming) <==> LexLess(LE(incoming[k].count, 8), LE(local[k].count, 8))
  {
    assert local[k] in local && incoming[k] in incoming;
    CountBytesDiffer(local[k].count, incoming[k].count);
    EncodingsDecide(local, incoming);
    EncodedAround(local, k);
    EncodedAround(incoming, k);
    hide *;
    var before := LE(|local|, 4) + EncodeEntries(local[..k]) + BE(local[k].id, 16);
    LexInside(before, LE(incoming[k].count, 8), LE(local[k].count, 8), EncodeEntries(incoming[k + 1..]), EncodeEntries(local[k + 1..]));
  }

  lemma CountBytesDiffer(a: nat, b: nat)
    requires a <= U64_MAX && b <= U64_MAX && a != b
    ensures LE(a, 8) != LE(b, 8)
  {
    hide LE, FromLE;
    Widths();
    LERoundTrip(a, 8);
    LERoundTrip(b, 8);
  }

  lemma EncodingsDecide(local: Vec, incoming: Vec)
    requires Canonical(local) && Canonical(incoming) && Min(Sum(local), U64_MAX) == Min(Sum(incoming), U64_MAX)
    requires |local| == |incoming| && forall i :: 0 <= i < |local| ==> local[i].id == incoming[i].id
    ensures IncomingWins(local, incoming) <==> LexLess(Encode(incoming), Encode(local))
  {
    NonZeroOfCanonical(local);
    NonZeroOfCanonical(incoming);
    hide LexLess, NonZero, Canonical, Sum, Encode;
    assert Ids(incoming) == Ids(local);
  }

  /** The wire form: how many entries, in four bytes, and then for each its id in sixteen bytes, big-endian,
      and its count in eight, little-endian. */
  lemma EncodedAround(v: Vec, k: nat)
    requires Canonical(v) && k < |v|
    ensures Encode(v) == LE(|v|, 4) + EncodeEntries(v[..k]) + BE(v[k].id, 16) + LE(v[k].count, 8) + EncodeEntries(v[k + 1..])
    ensures |EncodeEntries(v[..k])| == 24 * k
  {
    NonZeroOfCanonical(v);
    EntriesAround(v, k);
    assert Encode(v) == LE(|v|, 4) + EncodeEntries(v);
    hide *;
    Flat(LE(|v|, 4), EncodeEntries(v[..k]), BE(v[k].id, 16), LE(v[k].count, 8), EncodeEntries(v[k + 1..]));
  }

  lemma Flat<T>(h: seq<T>, x: seq<T>, b: seq<T>, l: seq<T>, y: seq<T>)
    ensures h + (x + (b + l) + y) == h + x + b + l + y
  {
  }

  lemma {:induction false} EntriesAround(v: Vec, k: nat)
    requires k < |v|
    ensures EncodeEntries(v) == EncodeEntries(v[..k]) + (BE(v[k].id, 16) + LE(v[k].count, 8)) + EncodeEntries(v[k + 1..])
    decreases k
  {
    if k == 0 {
      EntriesFirst(v);
      assert v[..0] == [] && EncodeEntries([]) == [];
      hide *;
      assert [] + (BE(v[0].id, 16) + LE(v[0].count, 8)) + EncodeEntries(v[1..]) == (BE(v[0].id, 16) + LE(v[0].count, 8)) + EncodeEntries(v[1..]);
    } else {
      hide *;
      EntriesFirst(v);
      EntriesFirst(v[..k]);
      EntriesAround(v[1..], k - 1);
      assert v[..k][1..] == v[1..][..k - 1] && v[1..][k..] == v[k + 1..] && v[1..][k - 1] == v[k] && v[..k][0] == v[0];
      Regrouped(BE(v[0].id, 16) + LE(v[0].count, 8), EncodeEntries(v[1..][..k - 1]), BE(v[k].id, 16) + LE(v[k].count, 8), EncodeEntries(v[k + 1..]));
    }
  }

  lemma EntriesFirst(v: Vec)
    requires v != []
    ensures EncodeEntries(v) == BE(v[0].id, 16) + LE(v[0].count, 8) + EncodeEntries(v[1..])
  {
  }

  lemma Regrouped<T>(e: seq<T>, x: seq<T>, m: seq<T>, y: seq<T>)
    ensures e + (x + m + y) == (e + x) + m + y
  {
  }

  /** Once both totals saturate it does not: here the dominated vector wins. */
  lemma SaturatedDominatorLoses()
    ensures
      var a, b := [Entry(1, U64_MAX), Entry(2, 1)], [Entry(1, U64_MAX)];
      Canonical(a) && Canonical(b) && Leq(b, a) && a != b && !Beats(a, b) && Beats(b, a)
  {
    var a, b := [Entry(1, U64_MAX), Entry(2, 1)], [Entry(1, U64_MAX)];
    assert b[1..] == [] && a[1..] == [Entry(2, 1)] && a[1..][1..] == [];
    assert Sum(b) == U64_MAX && Sum(a) == U64_MAX + 1;
    NonZeroOfCanonical(a);
    NonZeroOfCanonical(b);
    var x, y := Ids(a), Ids(b);
    assert x == [1, 2] && y == [1] && x[1..] == [2] && y[1..] == [];
    assert LexLess(y[1..], x[1..]) && !LexLess(x[1..], y[1..]);
  }

  /** A fork converges: both devices pick the same winner and reach the same vector, for which both
      sides of the fork are stale. */
  lemma ForkConverges(x: Vec, y: Vec)
    requires Canonical(x) && Canonical(y) && |x| <= U32_MAX && |y| <= U32_MAX
    requires Reconcile(x, y).Fork?
    ensures Reconcile(y, x) == Fork(!Reconcile(x, y).winnerIsIncoming)
    ensures Merge(x, y) == Merge(y, x)
    ensures Reconcile(Merge(x, y), x) == Reconcile(Merge(x, y), y) == Stale
  {
    RelationIsTheOrder(x, y);
    RelationIsTheOrder(y, x);
    WinnerIsTotalOrder(x, y, x);
    MergeIsJoin(x, y, x);
    RelationIsTheOrder(x, Merge(x, y));
    RelationIsTheOrder(y, Merge(x, y));
  }

  // ---------------------------------------------------------------- the mutable vector

  lemma {:induction false} SumFits(v: Vec)
    ensures Sum(v) >= 0 && (v != [] ==> Sum(v) == v[0].count + Sum(v[1..]))
  {
  }

  /** `VersionVector`: an ordered map of counters that its methods update in place. */
  class Vector {
    var counts: Vec

    ghost predicate Valid()
      reads this
    {
      Sorted(counts) && forall e <- counts :: e.count <= U64_MAX
    }

    constructor ()
      ensures counts == [] && Valid()
    {
      counts := [];
    }

    method Increment(id: DeviceId)
      requires Valid()
      modifies this
      ensures Valid() && counts == Incremented(old(counts), id)
    {
      GetBounded(counts, id);
      PutSorted(counts, id, Min(Get(counts, id) + 1, U64_MAX));
      var c := Get(counts, id);
      counts := Put(counts, id, if c == U64_MAX then U64_MAX else c + 1);
    }

    method MergeMax(other: Vector)
      requires Valid() && other.Valid() && other != this
      modifies this
      ensures Valid() && counts == Merge(old(counts), other.counts)
    {
      var i := 0;
      while i < |other.counts|
        invariant 0 <= i <= |other.counts|
        invariant Valid()
        invariant Merge(counts, other.counts[i..]) == Merge(old(counts), other.counts)
      {
        var id, c := other.counts[i].id, other.counts[i].count;
        var e := Get(counts, id);
        GetBounded(counts, id);
        PutSorted(counts, id, Max(e, c));
        assert other.counts[i] in other.counts && other.counts[i..][1..] == other.counts[i + 1..];
        counts := Put(counts, id, if c > e then c else e);
        i := i + 1;
      }
    }

    /** One pass over both key lists. */
    method RelationTo(other: Vector) returns (r: Relation)
      ensures r == Relate(counts, other.counts)
    {
      var keys := counts + other.counts;
      var selfGreater, otherGreater := false, false;
      var i := 0;
      while i < |keys|
        invariant 0 <= i <= |keys|
        invariant selfGreater == Exceeds(keys[..i], counts, other.counts)
        invariant otherGreater == Exceeds(keys[..i], other.counts, counts)
      {
        var a, b := Get(counts, keys[i].id), Get(other.counts, keys[i].id);
        if a > b {
          selfGreater := true;
        } else if b > a {
          otherGreater := true;
        }
        assert keys[..i + 1] == keys[..i] + [keys[i]];
        i := i + 1;
      }
      assert keys[..i] == keys;
      r := match (selfGreater, otherGreater)
        case (false, false) => Equal
        case (true, false) => Dominates
        case (false, true) => DominatedBy
        case (true, true) => Concurrent;
    }

    method TotalCount() returns (total: nat)
      ensures total == Total(counts)
    {
      total := 0;
      var i := 0;
      while i < |counts|
        invariant 0 <= i <= |counts|
        invariant Min(total + Sum(counts[i..]), U64_MAX) == Total(counts)
        invariant total <= U64_MAX
      {
        SumFits(counts[i..]);
        assert counts[i..][1..] == counts[i + 1..];
        total := Min(total + counts[i].count, U64_MAX);
        i := i + 1;
      }
    }

    method EncodeBytes() returns (out: seq<byte>)
      ensures out == Encode(counts)
    {
      var entries: Vec := [];
      var i := 0;
      while i < |counts|
        invariant 0 <= i <= |counts|
        invariant entries + NonZero(counts[i..]) == NonZero(counts)
      {
        assert counts[i..][1..] == counts[i + 1..];
        if counts[i].count > 0 { entries := entries + [counts[i]]; }
        i := i + 1;
      }
      assert entries == NonZero(counts);
      out := LE(|entries|, 4);
      i := 0;
      assert entries[0..] == entries;
      while i < |entries|
        invariant 0 <= i <= |entries|
        invariant out + EncodeEntries(entries[i..]) == Encode(counts)
      {
        assert entries[i..][1..] == entries[i + 1..];
        out := out + EncodeEntry(entries[i]);
        i := i + 1;
      }
    }
  }

  ghost function Prepend(v: Vec, rest: Option<Vec>): Option<Vec> {
    match rest
    case None => None
    case Some(w) => Some(v + w)
  }

  /** One turn of the decoding loop, with `v` decoded so far and `b` still to read. */
  lemma DecodeAdvances(v: Vec, b: seq<byte>, prev: Option<DeviceId>)
    requires |b| % 24 == 0 && b != []
    ensures
      var (id, count) := (IdIn(b[..16]), FromLE(b[16..24]));
      Prepend(v, DecodeEntries(b, prev)) ==
      if (prev.Some? && id <= prev.value) || count == 0 then None
      else Prepend(v + [Entry(id, count)], DecodeEntries(b[24..], Some(id)))
  {
    var id := IdIn(b[..16]);
    var rest := DecodeEntries(b[24..], Some(id));
    if rest.Some? {
      var e := Entry(id, FromLE(b[16..24]));
      assert (v + [e]) + rest.value == v + ([e] + rest.value);
    }
  }

  function IdAt(bytes: seq<byte>, at: nat): DeviceId
    requires at + 16 <= |bytes|
  {
    IdIn(bytes[at..at + 16])
  }

  function CountAt(bytes: seq<byte>, at: nat): nat
    requires at + 24 <= |bytes|
  {
    FromLE(bytes[at + 16..at + 24])
  }

  ghost function Remaining(v: Vec, bytes: seq<byte>, at: nat, end: nat, prev: Option<DeviceId>): Option<Vec>
    requires at <= end <= |bytes| && (end - at) % 24 == 0
  {
    Prepend(v, DecodeEntries(bytes[at..end], prev))
  }

  lemma RemainingAdvances(v: Vec, bytes: seq<byte>, at: nat, end: nat, prev: Option<DeviceId>)
    requires at < end <= |bytes| && (end - at) % 24 == 0
    ensures at + 24 <= end
    ensures
      var (id, count) := (IdAt(bytes, at), CountAt(bytes, at));
      Remaining(v, bytes, at, end, prev) ==
      if (prev.Some? && id <= prev.value) || count == 0 then None
      else Remaining(v + [Entry(id, count)], bytes, at + 24, end, Some(id))
  {
    hide DecodeEntries, FromBE, FromLE;
    var left := bytes[at..end];
    DecodeAdvances(v, left, prev);
    SliceOfSlice(bytes, at, end, 0, 16);
    SliceOfSlice(bytes, at, end, 16, 24);
    SliceOfSlice(bytes, at, end, 24, |left|);
    assert left[..16] == left[0..16] && left[24..] == left[24..|left|];
  }

  /** The decoding loop with its cursor; `None` is a refusal, whatever the bytes. */
  method DecodeBytes(bytes: seq<byte>, start: nat) returns (r: Option<(Vec, nat)>)
    ensures r == Decode(bytes, start)
  {
    if start + 4 > |bytes| { return None; }
    var n := FromLE(bytes[start..start + 4]);
    var end := start + 4 + 24 * n;
    if end > |bytes| { return None; }
    r := DecodeLoop(bytes, start + 4, end);
  }

  method DecodeLoop(bytes: seq<byte>, start: nat, end: nat) returns (r: Option<(Vec, nat)>)
    requires start <= end <= |bytes| && (end - start) % 24 == 0
    ensures r == match DecodeEntries(bytes[start..end], None) case None => None case Some(v) => Some((v, end))
  {
    hide IdAt, CountAt, FromLE, FromBE;
    var at, counts: Vec, prev := start, [], None;
    ghost var whole := DecodeEntries(bytes[start..end], None);
    if whole.Some? { assert [] + whole.value == whole.value; }
    while at < end
      invariant start <= at <= end && (end - at) % 24 == 0
      invariant whole == Remaining(counts, bytes, at, end, prev)
    {
      hide Remaining, DecodeEntries, Prepend;
      RemainingAdvances(counts, bytes, at, end, prev);
      var id := IdAt(bytes, at);
      if prev.Some? && id <= prev.value { return None; }
      var count := CountAt(bytes, at);
      if count == 0 { return None; }
      prev, counts, at := Some(id), counts + [Entry(id, count)], at + 24;
    }
    assert bytes[at..end] == [] && counts + [] == counts;
    r := Some((counts, end));
  }
}
