/** The key envelope as a state machine over byte blobs (envelope.rs).

    The ciphers enter as the functions of a `Suite`. They are ideal for the keys of one run: unwrapping
    succeeds exactly under the key and the slot descriptor that were used to wrap. Random salts and
    nonces are parameters, and a recovery code comes already normalised. */
module Envelope {
  import opened Bytes

  const MAGIC: seq<byte> := [0x46, 0x52, 0x45, 0x45, 0x48, 0x45, 0x4e, 0x56]
  const VERSION: byte := 3
  const SALT_OFF := 12
  const GEN_OFF := 28
  const HEADER_LEN := 36
  const SLOT_LEN := 74
  const MAC_LEN := 32

  const KIND_PASSKEY: byte := 0
  const KIND_RECOVERY: byte := 1
  const KIND_DEVICE: byte := 2

  datatype EnvelopeError = Format | Unlock | Tamper | Rollback

  datatype Outcome<T> = Done(value: T) | Failed(error: EnvelopeError)

  type Bytes32 = b: seq<byte> | |b| == 32 witness seq(32, _ => 0)
  type Nonce = b: seq<byte> | |b| == 24 witness seq(24, _ => 0)
  type Salt = b: seq<byte> | |b| == 16 witness seq(16, _ => 0)

  /** A key-encryption key: derived from a PRF secret, or from a recovery code and the salt. */
  datatype Kek = FromPrf(secret: seq<byte>) | FromCode(code: string, salt: seq<byte>)

  /** The cipher under a KEK, bound to the slot's id and kind, and the MAC under a DEK. */
  datatype Suite = Suite(wrap: (Kek, Nonce, byte, byte, Bytes32) -> seq<byte>,
                         unwrap: (Kek, Nonce, byte, byte, seq<byte>) -> Option<Bytes32>,
                         mac: (Bytes32, seq<byte>) -> Bytes32)

  /** Ideal for the keys of a run. */
  ghost predicate Ideal(s: Suite, keks: set<Kek>) {
    && (forall k, n, id, kind, dek :: |s.wrap(k, n, id, kind, dek)| == 48)
    && (forall k, n, id, kind, dek :: k in keks ==> s.unwrap(k, n, id, kind, s.wrap(k, n, id, kind, dek)) == Some(dek))
    && (forall k, k', n, id, kind, dek :: k in keks && k' in keks && k != k' ==>
          s.unwrap(k', n, id, kind, s.wrap(k, n, id, kind, dek)) == None)
  }

  /** Where a key stands among the keys of a run. */
  function Position(keks: seq<Kek>, k: Kek): (i: nat)
    ensures i <= |keks| && (i < |keks| <==> k in keks) && (i < |keks| ==> keks[i] == k)
  {
    if keks == [] then 0 else if keks[0] == k then 0 else 1 + Position(keks[1..], k)
  }

  function Padding(): (p: seq<byte>)
    ensures |p| == 15
  {
    seq(15, _ => 0)
  }

  function Tag(keks: seq<Kek>, k: Kek, dek: Bytes32): (ct: seq<byte>)
    ensures |ct| == 48
  {
    dek + [Position(keks, k) % 256] + Padding()
  }

  function Untag(keks: seq<Kek>, k: Kek, ct: seq<byte>): Option<Bytes32> {
    if |ct| == 48 && ct[32] == Position(keks, k) % 256 then Some(ct[..32]) else None
  }

  lemma UntagsIffSame(keks: seq<Kek>, k: Kek, k': Kek, dek: Bytes32)
    requires |keks| <= 256 && k in keks && k' in keks
    ensures Untag(keks, k', Tag(keks, k, dek)) == if k == k' then Some(dek) else None
  {
    var ct := Tag(keks, k, dek);
    assert ct[..32] == dek && ct[32] == Position(keks, k);
  }

  /** The MAC under this DEK tells these bodies apart. */
  ghost predicate TellsApart(s: Suite, dek: Bytes32, bodies: set<seq<byte>>) {
    forall a, b :: a in bodies && b in bodies && a != b ==> s.mac(dek, a) != s.mac(dek, b)
  }

  /** Where a body stands among the bodies of a run. */
  function BodyPosition(bodies: seq<seq<byte>>, body: seq<byte>): (i: nat)
    ensures i <= |bodies| && (i < |bodies| <==> body in bodies) && (i < |bodies| ==> bodies[i] == body)
  {
    if bodies == [] then 0 else if bodies[0] == body then 0 else 1 + BodyPosition(bodies[1..], body)
  }

  /** A suite that is ideal for up to 256 keys, by a tag that names the key, and whose MAC tells finitely
      many bodies apart, by numbering them: both assumptions can be met together. */
  function TaggingSuite(keks: seq<Kek>, bodies: seq<seq<byte>>): Suite {
    Suite((k, _, _, _, dek) => Tag(keks, k, dek), (k, _, _, _, ct) => Untag(keks, k, ct), (_, body) => LE(BodyPosition(bodies, body), 32))
  }

  lemma TaggingIsIdeal(keks: seq<Kek>, bodies: seq<seq<byte>>)
    requires |keks| <= 256
    ensures Ideal(TaggingSuite(keks, bodies), set k | k in keks)
  {
    forall k, k', dek: Bytes32 | k in keks && k' in keks
      ensures Untag(keks, k', Tag(keks, k, dek)) == if k == k' then Some(dek) else None
    {
      UntagsIffSame(keks, k, k', dek);
    }
    hide Tag, Untag, Position, LE, BodyPosition;
  }

  lemma NumbersDiffer(bodies: seq<seq<byte>>, a: seq<byte>, b: seq<byte>)
    requires |bodies| <= Values(32) && a in bodies && b in bodies && a != b
    ensures LE(BodyPosition(bodies, a), 32) != LE(BodyPosition(bodies, b), 32)
  {
    hide LE, FromLE, Values;
    LERoundTrip(BodyPosition(bodies, a), 32);
    LERoundTrip(BodyPosition(bodies, b), 32);
  }

  lemma IdealSuitesExist(keks: seq<Kek>, dek: Bytes32, bodies: seq<seq<byte>>)
    requires |keks| <= 256 && |bodies| <= Values(32)
    ensures Ideal(TaggingSuite(keks, bodies), set k | k in keks)
    ensures TellsApart(TaggingSuite(keks, bodies), dek, set b | b in bodies)
  {
    TaggingIsIdeal(keks, bodies);
    hide Ideal, Tag, Untag, LE, BodyPosition, Values;
    forall a, b | a in bodies && b in bodies && a != b
      ensures LE(BodyPosition(bodies, a), 32) != LE(BodyPosition(bodies, b), 32)
    {
      NumbersDiffer(bodies, a, b);
    }
  }

  // ---------------------------------------------------------------- framing

  function BodyLen(n: nat): nat {
    HEADER_LEN + n * SLOT_LEN
  }

  /** `parse`: magic, version and exact length; the slot count. */
  function Parse(blob: seq<byte>): Outcome<nat> {
    if |blob| < HEADER_LEN + MAC_LEN || blob[..8] != MAGIC || blob[8] != VERSION then Failed(Format)
    else if |blob| != BodyLen(blob[9]) + MAC_LEN then Failed(Format)
    else Done(blob[9])
  }

  /** Byte for byte, the blobs that parse: "FREEHENV", version 3, and the header of 36 bytes, the slots of 74
      that byte 9 counts and a MAC of 32. */
  lemma ParsesIff(blob: seq<byte>)
    ensures Parse(blob).Done? <==>
      && |blob| >= 68 && (forall i :: 0 <= i < 8 ==> blob[i] == "FREEHENV"[i] as int) && blob[8] == 3
      && |blob| == 36 + 74 * (blob[9] as int) + 32
    ensures Parse(blob) == if Parse(blob).Done? then Done(blob[9]) else Failed(Format)
  {
    var t := "FREEHENV";
    assert |t| == 8 && forall i :: 0 <= i < 8 ==> MAGIC[i] == t[i] as int;
    if |blob| >= 68 {
      assert forall i :: 0 <= i < 8 ==> blob[..8][i] == blob[i];
      if forall i :: 0 <= i < 8 ==> blob[i] == t[i] as int { assert blob[..8] == MAGIC; }
    }
  }

  function Chunks(b: seq<byte>): (slots: seq<seq<byte>>)
    requires |b| % SLOT_LEN == 0
    ensures forall c <- slots :: |c| == SLOT_LEN
  {
    if b == [] then [] else [b[..SLOT_LEN]] + Chunks(b[SLOT_LEN..])
  }

  function Flatten(slots: seq<seq<byte>>): seq<byte> {
    if slots == [] then [] else slots[0] + Flatten(slots[1..])
  }

  /** The slots of a blob that parses. */
  function Slots(blob: seq<byte>): (slots: seq<seq<byte>>)
    requires Parse(blob).Done?
    ensures forall c <- slots :: |c| == SLOT_LEN
  {
    Chunks(blob[HEADER_LEN..|blob| - MAC_LEN])
  }

  lemma {:induction false} FlattenLength(slots: seq<seq<byte>>)
    requires forall c <- slots :: |c| == SLOT_LEN
    ensures |Flatten(slots)| == |slots| * SLOT_LEN
  {
    if slots != [] {
      assert slots[0] in slots && forall c <- slots[1..] :: c in slots;
      FlattenLength(slots[1..]);
    }
  }

  lemma {:induction false} ChunksOfFlatten(slots: seq<seq<byte>>)
    requires forall c <- slots :: |c| == SLOT_LEN
    ensures |Flatten(slots)| % SLOT_LEN == 0 && Chunks(Flatten(slots)) == slots
  {
    FlattenLength(slots);
    if slots != [] {
      assert slots[0] in slots && forall c <- slots[1..] :: c in slots;
      ChunksOfFlatten(slots[1..]);
      assert Flatten(slots)[..SLOT_LEN] == slots[0] && Flatten(slots)[SLOT_LEN..] == Flatten(slots[1..]);
    }
  }

  lemma {:induction false} FlattenConcat(a: seq<seq<byte>>, b: seq<seq<byte>>)
    ensures Flatten(a + b) == Flatten(a) + Flatten(b)
  {
    if a == [] {
      assert a + b == b;
    } else {
      assert (a + b)[1..] == a[1..] + b;
      FlattenConcat(a[1..], b);
    }
  }

  lemma FlattenOne(slot: seq<byte>)
    ensures Flatten([slot]) == slot
  {
    assert [slot][1..] == [] && Flatten([slot][1..]) == [];
  }

  lemma ChunksUnfold(b: seq<byte>)
    requires |b| % SLOT_LEN == 0 && b != []
    ensures |b| >= SLOT_LEN && |b[SLOT_LEN..]| % SLOT_LEN == 0
    ensures Chunks(b) == [b[..SLOT_LEN]] + Chunks(b[SLOT_LEN..])
  {
  }

  lemma {:induction false} ChunkAt(b: seq<byte>, i: nat)
    requires |b| % SLOT_LEN == 0 && i * SLOT_LEN < |b|
    ensures i < |Chunks(b)| && i * SLOT_LEN + SLOT_LEN <= |b|
    ensures Chunks(b)[i] == b[i * SLOT_LEN..i * SLOT_LEN + SLOT_LEN]
    decreases i
  {
    hide Chunks;
    ChunksUnfold(b);
    if i > 0 {
      var rest := b[SLOT_LEN..];
      ChunkAt(rest, i - 1);
      SliceOfSlice(b, SLOT_LEN, |b|, (i - 1) * SLOT_LEN, (i - 1) * SLOT_LEN + SLOT_LEN);
      assert rest == b[SLOT_LEN..|b|];
    }
  }

  lemma {:induction false} ChunkCount(b: seq<byte>)
    requires |b| % SLOT_LEN == 0
    ensures |Chunks(b)| * SLOT_LEN == |b|
  {
    if b != [] { ChunkCount(b[SLOT_LEN..]); }
  }

  /** The i-th slot, where the code's index arithmetic looks for it. */
  lemma SlotAt(blob: seq<byte>, i: nat)
    requires Parse(blob).Done? && i < Parse(blob).value
    ensures |Slots(blob)| == Parse(blob).value && BodyLen(i) + SLOT_LEN <= |blob| - MAC_LEN
    ensures Slots(blob)[i] == blob[BodyLen(i)..BodyLen(i) + SLOT_LEN]
  {
    var b := blob[HEADER_LEN..|blob| - MAC_LEN];
    ChunkCount(b);
    ChunkAt(b, i);
    SliceOfSlice(blob, HEADER_LEN, |blob| - MAC_LEN, i * SLOT_LEN, i * SLOT_LEN + SLOT_LEN);
  }

  lemma SlotCount(blob: seq<byte>)
    requires Parse(blob).Done?
    ensures |Slots(blob)| == Parse(blob).value
  {
    ChunkCount(blob[HEADER_LEN..|blob| - MAC_LEN]);
  }

  function Generation(blob: seq<byte>): nat
    requires |blob| >= HEADER_LEN
  {
    FromLE(blob[GEN_OFF..HEADER_LEN])
  }

  /** `envelope_generation`. */
  function EnvelopeGeneration(blob: seq<byte>): nat {
    if Parse(blob).Failed? then 0 else Generation(blob)
  }

  /** `check_fresh`. */
  function CheckFresh(blob: seq<byte>, floor: nat): Outcome<()> {
    if Parse(blob).Failed? then Failed(Format)
    else if Generation(blob) < floor then Failed(Rollback)
    else Done(())
  }

  // ---------------------------------------------------------------- building blobs

  function Finalize(s: Suite, body: seq<byte>, dek: Bytes32): seq<byte> {
    body + s.mac(dek, body)
  }

  /** `rebuild_gen`: the count is truncated to a byte, as `count as u8` does. */
  function RebuildGen(s: Suite, blob: seq<byte>, dek: Bytes32, keep: seq<byte>, count: nat, gen: nat): seq<byte>
    requires |blob| >= HEADER_LEN
  {
    Finalize(s, blob[..9] + [count % 256] + blob[10..GEN_OFF] + LE(gen, 8) + keep, dek)
  }

  /** `rebuild`: the generation wraps at 64 bits. */
  function Rebuild(s: Suite, blob: seq<byte>, dek: Bytes32, keep: seq<byte>, count: nat): seq<byte>
    requires |blob| >= HEADER_LEN
  {
    RebuildGen(s, blob, dek, keep, count, (Generation(blob) + 1) % (U64_MAX + 1))
  }

  function WrapSlot(s: Suite, dek: Bytes32, kek: Kek, id: byte, kind: byte, nonce: Nonce): seq<byte> {
    [id, kind] + nonce + s.wrap(kek, nonce, id, kind, dek)
  }

  function MaxId(slots: seq<seq<byte>>): Option<byte>
    requires forall c <- slots :: |c| == SLOT_LEN
  {
    if slots == [] then None
    else
      var n := |slots| - 1;
      assert slots[n] in slots && forall c <- slots[..n] :: c in slots;
      match MaxId(slots[..n])
      case None => Some(slots[n][0])
      case Some(m) => Some(if m >= slots[n][0] then m else slots[n][0])
  }

  /** `next_kek_id`: one past the largest, wrapping. */
  function NextKekId(slots: seq<seq<byte>>): byte
    requires forall c <- slots :: |c| == SLOT_LEN
  {
    match MaxId(slots)
    case None => 0
    case Some(m) => (m + 1) % 256
  }

  /** The slots whose byte at `field` is not `value`. */
  function Without(slots: seq<seq<byte>>, field: nat, value: byte): (kept: seq<seq<byte>>)
    requires field < 2 && forall c <- slots :: |c| == SLOT_LEN
    ensures forall c <- kept :: c in slots && c[field] != value
    ensures |kept| <= |slots|
  {
    if slots == [] then []
    else
      var n := |slots| - 1;
      assert slots[n] in slots && forall c <- slots[..n] :: c in slots;
      Without(slots[..n], field, value) + if slots[n][field] != value then [slots[n]] else []
  }

  function Header(count: byte, salt: Salt, gen: nat): (h: seq<byte>)
    ensures |h| == HEADER_LEN
  {
    MAGIC + [VERSION, count, 0, 0] + salt + LE(gen, 8)
  }

  /** `create_envelope_kind`. */
  function Create(s: Suite, dek: Bytes32, secret: seq<byte>, kind: byte, salt: Salt, nonce: Nonce): seq<byte> {
    Finalize(s, Header(1, salt, 1) + WrapSlot(s, dek, FromPrf(secret), 0, kind, nonce), dek)
  }

  function SaltOf(blob: seq<byte>): Salt
    requires |blob| >= HEADER_LEN
  {
    blob[SALT_OFF..GEN_OFF]
  }

  function Add(s: Suite, blob: seq<byte>, dek: Bytes32, kek: Kek, kind: byte, nonce: Nonce): Outcome<seq<byte>> {
    if Parse(blob).Failed? then Failed(Format)
    else
      var n := Parse(blob).value;
      var slot := WrapSlot(s, dek, kek, NextKekId(Slots(blob)), kind, nonce);
      Done(Rebuild(s, blob, dek, blob[HEADER_LEN..|blob| - MAC_LEN] + slot, n + 1))
  }

  /** `add_passkey_slot`. */
  function AddPasskey(s: Suite, blob: seq<byte>, dek: Bytes32, secret: seq<byte>, nonce: Nonce): Outcome<seq<byte>> {
    Add(s, blob, dek, FromPrf(secret), KIND_PASSKEY, nonce)
  }

  /** `add_recovery_slot`. */
  function AddRecovery(s: Suite, blob: seq<byte>, dek: Bytes32, code: string, nonce: Nonce): Outcome<seq<byte>> {
    if Parse(blob).Failed? then Failed(Format) else Add(s, blob, dek, FromCode(code, SaltOf(blob)), KIND_RECOVERY, nonce)
  }

  /** `remove_slot`: refuses the last slot and an unknown id. */
  function Remove(s: Suite, blob: seq<byte>, dek: Bytes32, id: byte): Outcome<seq<byte>> {
    if Parse(blob).Failed? || Parse(blob).value <= 1 then Failed(Format)
    else
      var keep := Without(Slots(blob), 0, id);
      if |keep| == |Slots(blob)| then Failed(Format) else Done(Rebuild(s, blob, dek, Flatten(keep), |keep|))
  }

  /** `strip_kind`: keeps the generation, and refuses to strip every slot. */
  function Strip(s: Suite, blob: seq<byte>, dek: Bytes32, kind: byte): Outcome<seq<byte>> {
    if Parse(blob).Failed? then Failed(Format)
    else
      var keep := Without(Slots(blob), 1, kind);
      if keep == [] then Failed(Format)
      else if |keep| == |Slots(blob)| then Done(blob)
      else Done(RebuildGen(s, blob, dek, Flatten(keep), |keep|, Generation(blob)))
  }

  /** `set_generation`. */
  function SetGeneration(s: Suite, blob: seq<byte>, gen: nat, dek: Bytes32): Outcome<seq<byte>> {
    if Parse(blob).Failed? then Failed(Format)
    else Done(Finalize(s, blob[..GEN_OFF] + LE(gen, 8) + blob[HEADER_LEN..|blob| - MAC_LEN], dek))
  }

  /** `rotate_envelope`, with the random draws as parameters. The code reads the generation before it
      validates the framing, so the old blob must at least hold a header. */
  function Rotate(s: Suite, was: seq<byte>, newDek: Bytes32, secret: seq<byte>, code: string, salt: Salt, n0: Nonce, n1: Nonce)
    : Outcome<seq<byte>>
    requires |was| >= HEADER_LEN
  {
    var gen := Generation(was);
    if Parse(was).Failed? then Failed(Format)
    else
      match AddRecovery(s, Create(s, newDek, secret, KIND_PASSKEY, salt, n0), newDek, code, n1)
      case Failed(e) => Failed(e)
      case Done(env) => SetGeneration(s, env, (gen + 1) % (U64_MAX + 1), newDek)
  }

  // ---------------------------------------------------------------- opening

  function OpenSlot(s: Suite, kek: Kek, slot: seq<byte>): Option<Bytes32>
    requires |slot| == SLOT_LEN
  {
    s.unwrap(kek, slot[2..26], slot[0], slot[1], slot[26..])
  }

  predicate MacOk(s: Suite, blob: seq<byte>, dek: Bytes32)
    requires |blob| >= MAC_LEN
  {
    blob[|blob| - MAC_LEN..] == s.mac(dek, blob[..|blob| - MAC_LEN])
  }

  /** What the first slot that opens gives. */
  function FirstOpen(s: Suite, kek: Kek, slots: seq<seq<byte>>): Option<Bytes32>
    requires forall c <- slots :: |c| == SLOT_LEN
  {
    if slots == [] then None
    else
      assert slots[0] in slots && forall c <- slots[1..] :: c in slots;
      var dek := OpenSlot(s, kek, slots[0]);
      if dek.Some? then dek else FirstOpen(s, kek, slots[1..])
  }

  /** `open_with_kek`. */
  function OpenWithKek(s: Suite, blob: seq<byte>, kek: Kek): Outcome<Bytes32> {
    if Parse(blob).Failed? then Failed(Format)
    else
      match FirstOpen(s, kek, Slots(blob))
      case None => Failed(Unlock)
      case Some(dek) => if MacOk(s, blob, dek) then Done(dek) else Failed(Tamper)
  }

  // ---------------------------------------------------------------- what a blob stands for

  /** One unlock method: the key it was wrapped under and the slot's descriptor. */
  datatype Method = Method(kek: Kek, id: byte, kind: byte, nonce: Nonce)

  /** The envelope that a run has built. */
  datatype Vault = Vault(dek: Bytes32, salt: Salt, gen: nat, methods: seq<Method>)

  function SlotsFor(s: Suite, dek: Bytes32, methods: seq<Method>): (slots: seq<seq<byte>>)
    ensures |slots| == |methods|
    ensures forall i :: 0 <= i < |methods| ==>
      slots[i] == WrapSlot(s, dek, methods[i].kek, methods[i].id, methods[i].kind, methods[i].nonce)
  {
    seq(|methods|, i requires 0 <= i < |methods| =>
      WrapSlot(s, dek, methods[i].kek, methods[i].id, methods[i].kind, methods[i].nonce))
  }

  /** The bytes of a vault. */
  function Render(s: Suite, v: Vault): seq<byte> {
    Finalize(s, Header(|v.methods| % 256, v.salt, v.gen) + Flatten(SlotsFor(s, v.dek, v.methods)), v.dek)
  }

  ghost predicate FullSlots(s: Suite) {
    forall k, n, id, kind, dek :: |s.wrap(k, n, id, kind, dek)| == 48
  }

  lemma SlotsAreSlots(s: Suite, dek: Bytes32, methods: seq<Method>)
    requires FullSlots(s)
    ensures forall c <- SlotsFor(s, dek, methods) :: |c| == SLOT_LEN
  {
  }

  lemma UnfoldRender(s: Suite, v: Vault)
    ensures Render(s, v) == Finalize(s, Header(|v.methods| % 256, v.salt, v.gen) + Flatten(SlotsFor(s, v.dek, v.methods)), v.dek)
  {
  }

  lemma HeaderParts(count: byte, salt: Salt, gen: nat)
    ensures
      var head := Header(count, salt, gen);
      && |head| == HEADER_LEN && head[..8] == MAGIC && head[8] == VERSION && head[9] == count && head[..9] == MAGIC + [VERSION]
      && head[10..GEN_OFF] == [0, 0] + salt && head[SALT_OFF..GEN_OFF] == salt && head[GEN_OFF..] == LE(gen, 8)
  {
    hide LE;
  }

  lemma RenderParts(s: Suite, v: Vault)
    requires FullSlots(s)
    ensures
      var blob := Render(s, v);
      && |blob| == BodyLen(|v.methods|) + MAC_LEN && blob[..8] == MAGIC && blob[8] == VERSION && blob[9] == |v.methods| % 256
      && blob[..9] == MAGIC + [VERSION] && blob[10..GEN_OFF] == [0, 0] + v.salt && SaltOf(blob) == v.salt
      && blob[GEN_OFF..HEADER_LEN] == LE(v.gen, 8)
      && blob[HEADER_LEN..|blob| - MAC_LEN] == Flatten(SlotsFor(s, v.dek, v.methods))
      && MacOk(s, blob, v.dek)
  {
    var head, slots := Header(|v.methods| % 256, v.salt, v.gen), SlotsFor(s, v.dek, v.methods);
    SlotsAreSlots(s, v.dek, v.methods);
    FlattenLength(slots);
    HeaderParts(|v.methods| % 256, v.salt, v.gen);
    UnfoldRender(s, v);
    hide Header, Flatten, SlotsFor, LE, Render;
    var flat, blob := Flatten(slots), Render(s, v);
    var body := head + flat;
    var mac := s.mac(v.dek, body);
    assert blob == body + mac && |body| == BodyLen(|v.methods|);
    assert blob[..|blob| - MAC_LEN] == body && blob[|blob| - MAC_LEN..] == mac;
    assert blob[HEADER_LEN..|blob| - MAC_LEN] == flat;
    assert blob[..HEADER_LEN] == head;
    assert blob[..8] == head[..8] && blob[..9] == head[..9];
    assert blob[10..GEN_OFF] == head[10..GEN_OFF] && blob[SALT_OFF..GEN_OFF] == head[SALT_OFF..GEN_OFF];
    assert blob[GEN_OFF..HEADER_LEN] == head[GEN_OFF..];
  }

  lemma FramedBlob(blob: seq<byte>, n: nat, slots: seq<seq<byte>>)
    requires n <= 255 && |blob| == BodyLen(n) + MAC_LEN && blob[..8] == MAGIC && blob[8] == VERSION && blob[9] == n
    requires blob[HEADER_LEN..|blob| - MAC_LEN] == Flatten(slots) && forall c <- slots :: |c| == SLOT_LEN
    ensures Parse(blob) == Done(n) && Slots(blob) == slots
  {
    hide Flatten, Chunks;
    ChunksOfFlatten(slots);
  }

  lemma RenderSlots(s: Suite, v: Vault)
    requires FullSlots(s) && |v.methods| <= 255
    ensures Parse(Render(s, v)) == Done(|v.methods|) && Slots(Render(s, v)) == SlotsFor(s, v.dek, v.methods)
  {
    hide Render, Flatten, LE, WrapSlot, MacOk, SaltOf, Parse, Slots;
    RenderParts(s, v);
    SlotsAreSlots(s, v.dek, v.methods);
    FramedBlob(Render(s, v), |v.methods|, SlotsFor(s, v.dek, v.methods));
  }

  lemma RenderGeneration(s: Suite, v: Vault)
    requires FullSlots(s) && v.gen <= U64_MAX
    ensures |Render(s, v)| >= HEADER_LEN && Generation(Render(s, v)) == v.gen
  {
    RenderParts(s, v);
    hide Render, FullSlots, MacOk, SaltOf;
    Widths();
    LERoundTrip(v.gen, 8);
  }

  lemma OverfullBlob(blob: seq<byte>, n: nat)
    requires n > 255 && |blob| == BodyLen(n) + MAC_LEN && blob[9] == n % 256
    ensures Parse(blob).Failed?
  {
  }

  /** A rendered vault parses exactly when its slot count fits the count byte. */
  lemma RenderParsesIff(s: Suite, v: Vault)
    requires FullSlots(s) && v.gen <= U64_MAX
    ensures Parse(Render(s, v)).Done? <==> |v.methods| <= 255
    ensures |v.methods| <= 255 ==>
      && Parse(Render(s, v)) == Done(|v.methods|) && Slots(Render(s, v)) == SlotsFor(s, v.dek, v.methods)
      && Generation(Render(s, v)) == v.gen
  {
    if |v.methods| <= 255 {
      RenderSlots(s, v);
      RenderGeneration(s, v);
    } else {
      RenderParts(s, v);
      hide Render, FullSlots, MacOk, SaltOf, Parse, Slots;
      OverfullBlob(Render(s, v), |v.methods|);
    }
  }

  lemma RebuildRenders(s: Suite, v: Vault, methods: seq<Method>, gen: nat)
    requires FullSlots(s)
    ensures RebuildGen(s, Render(s, v), v.dek, Flatten(SlotsFor(s, v.dek, methods)), |methods|, gen)
         == Render(s, v.(methods := methods, gen := gen))
  {
    RenderParts(s, v);
    var v' := v.(methods := methods, gen := gen);
    var blob := Render(s, v);
    assert blob[..9] + [|methods| % 256] + blob[10..GEN_OFF] + LE(gen, 8) == Header(|methods| % 256, v.salt, gen);
  }

  // ---------------------------------------------------------------- the operations on vaults

  function MaxOf(methods: seq<Method>): Option<byte> {
    if methods == [] then None
    else
      match MaxOf(methods[..|methods| - 1])
      case None => Some(methods[|methods| - 1].id)
      case Some(m) => Some(if m >= methods[|methods| - 1].id then m else methods[|methods| - 1].id)
  }

  function NextId(methods: seq<Method>): byte {
    match MaxOf(methods)
    case None => 0
    case Some(m) => (m + 1) % 256
  }

  function Field(m: Method, field: nat): byte {
    if field == 0 then m.id else m.kind
  }

  /** The methods whose id (field 0) or kind (field 1) is not `value`. */
  function Keep(methods: seq<Method>, field: nat, value: byte): (kept: seq<Method>)
    ensures forall m <- kept :: m in methods && Field(m, field) != value
    ensures forall m <- methods :: Field(m, field) != value ==> m in kept
    ensures |kept| <= |methods|
  {
    if methods == [] then []
    else
      var n := |methods| - 1;
      assert methods == methods[..n] + [methods[n]];
      Keep(methods[..n], field, value) + if Field(methods[n], field) != value then [methods[n]] else []
  }

  /** The mutations, with the draws they make. */
  datatype Op = AddPasskeyOp(secret: seq<byte>, nonce: Nonce) | AddRecoveryOp(code: string, nonce: Nonce)
    | RemoveOp(id: byte) | StripOp(kind: byte)
    | RotateOp(newDek: Bytes32, secret: seq<byte>, code: string, salt: Salt, n0: Nonce, n1: Nonce)

  function KekOf(v: Vault, op: Op): Kek
    requires op.AddPasskeyOp? || op.AddRecoveryOp?
  {
    if op.AddPasskeyOp? then FromPrf(op.secret) else FromCode(op.code, v.salt)
  }

  function Succ(gen: nat): nat {
    (gen + 1) % (U64_MAX + 1)
  }

  /** What each mutation means. */
  function Do(v: Vault, op: Op): Outcome<Vault> {
    match op
    case AddPasskeyOp(_, n) =>
      Done(v.(gen := Succ(v.gen), methods := v.methods + [Method(KekOf(v, op), NextId(v.methods), KIND_PASSKEY, n)]))
    case AddRecoveryOp(_, n) =>
      Done(v.(gen := Succ(v.gen), methods := v.methods + [Method(KekOf(v, op), NextId(v.methods), KIND_RECOVERY, n)]))
    case RemoveOp(id) =>
      var kept := Keep(v.methods, 0, id);
      if |v.methods| <= 1 || |kept| == |v.methods| then Failed(Format)
      else Done(v.(gen := Succ(v.gen), methods := kept))
    case StripOp(kind) =>
      var kept := Keep(v.methods, 1, kind);
      if kept == [] then Failed(Format) else Done(v.(methods := kept))
    case RotateOp(dek, secret, code, salt, n0, n1) =>
      Done(Vault(dek, salt, Succ(v.gen), [Method(FromPrf(secret), 0, KIND_PASSKEY, n0), Method(FromCode(code, salt), 1, KIND_RECOVERY, n1)]))
  }

  function DoBytes(s: Suite, blob: seq<byte>, dek: Bytes32, op: Op): Outcome<seq<byte>>
    requires |blob| >= HEADER_LEN
  {
    match op
    case AddPasskeyOp(secret, n) => AddPasskey(s, blob, dek, secret, n)
    case AddRecoveryOp(code, n) => AddRecovery(s, blob, dek, code, n)
    case RemoveOp(id) => Remove(s, blob, dek, id)
    case StripOp(kind) => Strip(s, blob, dek, kind)
    case RotateOp(newDek, secret, code, salt, n0, n1) => Rotate(s, blob, newDek, secret, code, salt, n0, n1)
  }

  predicate DistinctIds(methods: seq<Method>) {
    forall i, j :: 0 <= i < j < |methods| ==> methods[i].id != methods[j].id
  }

  /** What every envelope of a run satisfies. */
  ghost predicate Valid(v: Vault, keks: set<Kek>) {
    && 1 <= |v.methods| <= 255 && v.gen <= U64_MAX && DistinctIds(v.methods)
    && forall m <- v.methods :: m.kek in keks
  }

  lemma {:induction false} NextIdOfSlots(s: Suite, dek: Bytes32, methods: seq<Method>)
    requires FullSlots(s)
    ensures forall c <- SlotsFor(s, dek, methods) :: |c| == SLOT_LEN
    ensures MaxId(SlotsFor(s, dek, methods)) == MaxOf(methods)
  {
    var slots, n := SlotsFor(s, dek, methods), |methods| - 1;
    if methods != [] {
      NextIdOfSlots(s, dek, methods[..n]);
      assert slots[..n] == SlotsFor(s, dek, methods[..n]);
      assert slots[n][0] == methods[n].id;
    }
  }

  lemma WithoutLast(slots: seq<seq<byte>>, field: nat, value: byte)
    requires field < 2 && slots != [] && forall c <- slots :: |c| == SLOT_LEN
    ensures
      var n := |slots| - 1;
      && (forall c <- slots[..n] :: |c| == SLOT_LEN)
      && Without(slots, field, value) == Without(slots[..n], field, value) + if slots[n][field] != value then [slots[n]] else []
  {
    assert forall c <- slots[..|slots| - 1] :: c in slots;
  }

  lemma KeepLast(methods: seq<Method>, field: nat, value: byte)
    requires methods != []
    ensures
      var n := |methods| - 1;
      Keep(methods, field, value) == Keep(methods[..n], field, value) + if Field(methods[n], field) != value then [methods[n]] else []
  {
  }

  lemma {:induction false} WithoutOfSlots(s: Suite, dek: Bytes32, methods: seq<Method>, field: nat, value: byte)
    requires FullSlots(s) && field < 2
    ensures forall c <- SlotsFor(s, dek, methods) :: |c| == SLOT_LEN
    ensures Without(SlotsFor(s, dek, methods), field, value) == SlotsFor(s, dek, Keep(methods, field, value))
  {
    SlotsAreSlots(s, dek, methods);
    if methods != [] {
      var slots, n := SlotsFor(s, dek, methods), |methods| - 1;
      assert slots[..n] == SlotsFor(s, dek, methods[..n]);
      WithoutOfSlots(s, dek, methods[..n], field, value);
      WithoutOfLast(s, dek, methods, field, value);
    }
  }

  lemma WithoutOfLast(s: Suite, dek: Bytes32, methods: seq<Method>, field: nat, value: byte)
    requires FullSlots(s) && field < 2 && methods != []
    requires forall c <- SlotsFor(s, dek, methods) :: |c| == SLOT_LEN
    requires
      var n := |methods| - 1;
      && (forall c <- SlotsFor(s, dek, methods)[..n] :: |c| == SLOT_LEN)
      && Without(SlotsFor(s, dek, methods)[..n], field, value) == SlotsFor(s, dek, Keep(methods[..n], field, value))
    ensures Without(SlotsFor(s, dek, methods), field, value) == SlotsFor(s, dek, Keep(methods, field, value))
  {
    var slots, n := SlotsFor(s, dek, methods), |methods| - 1;
    var kept, last := Keep(methods[..n], field, value), methods[n];
    FieldOfSlot(s, dek, methods, n, field);
    var slot := slots[n];
    assert slot == WrapSlot(s, dek, last.kek, last.id, last.kind, last.nonce);
    WithoutLast(slots, field, value);
    KeepLast(methods, field, value);
    SlotsForSnoc(s, dek, kept, last);
    hide *;
    if Field(last, field) != value {
      assert Keep(methods, field, value) == kept + [last];
      assert Without(slots, field, value) == Without(slots[..n], field, value) + [slot];
    } else {
      assert Keep(methods, field, value) == kept + [];
      assert kept + [] == kept;
      assert Without(slots, field, value) == Without(slots[..n], field, value) + [];
      assert Without(slots[..n], field, value) + [] == Without(slots[..n], field, value);
    }
  }

  lemma FieldOfSlot(s: Suite, dek: Bytes32, methods: seq<Method>, i: nat, field: nat)
    requires FullSlots(s) && i < |methods| && field < 2
    ensures SlotsFor(s, dek, methods)[i][field] == Field(methods[i], field)
  {
  }

  lemma SlotsForSnoc(s: Suite, dek: Bytes32, methods: seq<Method>, m: Method)
    ensures SlotsFor(s, dek, methods + [m]) == SlotsFor(s, dek, methods) + [WrapSlot(s, dek, m.kek, m.id, m.kind, m.nonce)]
  {
  }

  lemma {:induction false} KeepAllIff(methods: seq<Method>, field: nat, value: byte)
    ensures |Keep(methods, field, value)| == |methods| <==> Keep(methods, field, value) == methods
    ensures Keep(methods, field, value) == methods <==> forall m <- methods :: Field(m, field) != value
  {
    if methods != [] {
      var n := |methods| - 1;
      var kept, last := Keep(methods[..n], field, value), methods[n];
      KeepAllIff(methods[..n], field, value);
      assert methods == methods[..n] + [last];
      assert Keep(methods, field, value) == kept + if Field(last, field) != value then [last] else [];
      hide Keep, Field;
    }
  }

  lemma {:induction false} KeepDistinct(methods: seq<Method>, field: nat, value: byte)
    requires DistinctIds(methods)
    ensures DistinctIds(Keep(methods, field, value))
  {
    if methods != [] {
      var n := |methods| - 1;
      KeepDistinct(methods[..n], field, value);
      var kept := Keep(methods[..n], field, value);
      forall m | m in kept ensures m.id != methods[n].id {
        var i :| 0 <= i < n && methods[..n][i] == m;
        assert methods[i] == m;
      }
    }
  }

  // ---------------------------------------------------------------- the byte operations mean that

  lemma AddRefines(s: Suite, v: Vault, kek: Kek, kind: byte, nonce: Nonce)
    requires FullSlots(s) && |v.methods| <= 255 && v.gen <= U64_MAX
    ensures Add(s, Render(s, v), v.dek, kek, kind, nonce)
         == Done(Render(s, v.(gen := Succ(v.gen), methods := v.methods + [Method(kek, NextId(v.methods), kind, nonce)])))
  {
    hide Render, RebuildGen, Flatten, Chunks, MaxId, MaxOf, WrapSlot, LE, FromLE, SlotsFor, Slots, Parse, Generation;
    var m := Method(kek, NextId(v.methods), kind, nonce);
    RenderParsesIff(s, v);
    RenderParts(s, v);
    NextIdOfSlots(s, v.dek, v.methods);
    SlotsForSnoc(s, v.dek, v.methods, m);
    var slot := WrapSlot(s, v.dek, kek, m.id, kind, nonce);
    FlattenConcat(SlotsFor(s, v.dek, v.methods), [slot]);
    assert Flatten([slot]) == slot by { FlattenOne(slot); }
    RebuildRenders(s, v, v.methods + [m], Succ(v.gen));
  }

  lemma DropRefines(s: Suite, v: Vault, field: nat, value: byte, gen: nat)
    requires FullSlots(s) && |v.methods| <= 255 && v.gen <= U64_MAX && field < 2
    ensures
      var (blob, kept) := (Render(s, v), Keep(v.methods, field, value));
      && Parse(blob) == Done(|v.methods|)
      && |Without(Slots(blob), field, value)| == |kept| && |Slots(blob)| == |v.methods|
      && (Without(Slots(blob), field, value) == [] <==> kept == [])
      && RebuildGen(s, blob, v.dek, Flatten(Without(Slots(blob), field, value)), |Without(Slots(blob), field, value)|, gen)
         == Render(s, v.(methods := kept, gen := gen))
  {
    hide Render, RebuildGen, Without, Keep, Flatten, WrapSlot, Slots, Parse, Generation;
    RenderParsesIff(s, v);
    RenderSalt(s, v);
    WithoutOfSlots(s, v.dek, v.methods, field, value);
    RebuildRenders(s, v, Keep(v.methods, field, value), gen);
  }

  lemma CreateRenders(s: Suite, dek: Bytes32, secret: seq<byte>, kind: byte, salt: Salt, nonce: Nonce)
    ensures Create(s, dek, secret, kind, salt, nonce)
         == Render(s, Vault(dek, salt, 1, [Method(FromPrf(secret), 0, kind, nonce)]))
  {
    var slot := WrapSlot(s, dek, FromPrf(secret), 0, kind, nonce);
    assert SlotsFor(s, dek, [Method(FromPrf(secret), 0, kind, nonce)]) == [slot];
    assert Flatten([slot]) == slot by { FlattenOne(slot); }
  }

  lemma SetGenerationRenders(s: Suite, v: Vault, gen: nat)
    requires FullSlots(s) && |v.methods| <= 255 && v.gen <= U64_MAX
    ensures SetGeneration(s, Render(s, v), gen, v.dek) == Done(Render(s, v.(gen := gen)))
  {
    hide Render, Flatten, SlotsFor, LE, Parse, Slots, MacOk, SaltOf, FullSlots;
    RenderParsesIff(s, v);
    RenderParts(s, v);
    var blob, c := Render(s, v), |v.methods| % 256;
    assert blob[..GEN_OFF] == blob[..9] + [blob[9]] + blob[10..GEN_OFF];
    assert blob[..GEN_OFF] + LE(gen, 8) == Header(c, v.salt, gen);
    UnfoldRender(s, v.(gen := gen));
  }

  lemma RenderSalt(s: Suite, v: Vault)
    requires FullSlots(s)
    ensures |Render(s, v)| >= HEADER_LEN && SaltOf(Render(s, v)) == v.salt
  {
    RenderParts(s, v);
  }

  /** The envelope a rotation creates and then adds a recovery slot to. */
  lemma RotatedEnvelope(s: Suite, op: Op)
    requires FullSlots(s) && op.RotateOp?
    ensures
      var v2 := Vault(op.newDek, op.salt, 2,
                      [Method(FromPrf(op.secret), 0, KIND_PASSKEY, op.n0), Method(FromCode(op.code, op.salt), 1, KIND_RECOVERY, op.n1)]);
      AddRecovery(s, Create(s, op.newDek, op.secret, KIND_PASSKEY, op.salt, op.n0), op.newDek, op.code, op.n1) == Done(Render(s, v2))
  {
    hide *;
    var first, second :=
      Method(FromPrf(op.secret), 0, KIND_PASSKEY, op.n0), Method(FromCode(op.code, op.salt), 1, KIND_RECOVERY, op.n1);
    var v1 := Vault(op.newDek, op.salt, 1, [first]);
    CreateRenders(s, op.newDek, op.secret, KIND_PASSKEY, op.salt, op.n0);
    NextOfFirst(first);
    RenderParsesIff(s, v1);
    AddedRecovery(s, v1, op.code, op.n1);
    assert v1.methods + [second] == [first, second];
  }

  /** A recovery slot added to the envelope of a vault with room. */
  lemma AddedRecovery(s: Suite, v: Vault, code: string, nonce: Nonce)
    requires FullSlots(s) && |v.methods| <= 255 && v.gen <= U64_MAX && Parse(Render(s, v)).Done?
    ensures
      var m := Method(FromCode(code, v.salt), NextId(v.methods), KIND_RECOVERY, nonce);
      AddRecovery(s, Render(s, v), v.dek, code, nonce) == Done(Render(s, v.(methods := v.methods + [m], gen := Succ(v.gen))))
  {
    hide *;
    RenderSalt(s, v);
    AddRefines(s, v, FromCode(code, v.salt), KIND_RECOVERY, nonce);
    UnfoldAddRecovery(s, Render(s, v), v.dek, code, nonce);
  }

  lemma NextOfFirst(m: Method)
    requires m.id == 0
    ensures NextId([m]) == 1 && Succ(1) == 2 && 1 <= U64_MAX
  {
    assert [m][..0] == [] && MaxOf([m][..0]) == None;
  }

  lemma UnfoldAddRecovery(s: Suite, blob: seq<byte>, dek: Bytes32, code: string, nonce: Nonce)
    requires Parse(blob).Done?
    ensures |blob| >= HEADER_LEN
    ensures AddRecovery(s, blob, dek, code, nonce) == Add(s, blob, dek, FromCode(code, SaltOf(blob)), KIND_RECOVERY, nonce)
  {
  }

  lemma RotateRefines(s: Suite, v: Vault, op: Op)
    requires FullSlots(s) && |v.methods| <= 255 && v.gen <= U64_MAX && op.RotateOp? && |Render(s, v)| >= HEADER_LEN
    ensures DoBytes(s, Render(s, v), v.dek, op) == Done(Render(s, Do(v, op).value))
  {
    hide Render, Create, AddRecovery, SetGeneration, Slots, Parse, Generation, FullSlots;
    RenderParsesIff(s, v);
    RotatedEnvelope(s, op);
    var v2 := Vault(op.newDek, op.salt, 2,
                    [Method(FromPrf(op.secret), 0, KIND_PASSKEY, op.n0), Method(FromCode(op.code, op.salt), 1, KIND_RECOVERY, op.n1)]);
    SetGenerationRenders(s, v2, Succ(v.gen));
  }

  /** Every byte operation does what the mutation means, errors included. */
  lemma BytesRefine(s: Suite, v: Vault, op: Op)
    requires FullSlots(s) && 1 <= |v.methods| <= 255 && v.gen <= U64_MAX
    ensures |Render(s, v)| >= HEADER_LEN
    ensures DoBytes(s, Render(s, v), v.dek, op)
         == match Do(v, op) case Failed(e) => Failed(e) case Done(v') => Done(Render(s, v'))
  {
    hide Render, RebuildGen, Flatten, Chunks, WrapSlot, LE, FromLE, SlotsFor, Slots, Without, Parse, Generation, Add, Rotate, Finalize;
    RenderParts(s, v);
    RenderParsesIff(s, v);
    match op
    case AddPasskeyOp(secret, n) => AddRefines(s, v, FromPrf(secret), KIND_PASSKEY, n);
    case AddRecoveryOp(code, n) => AddRefines(s, v, FromCode(code, v.salt), KIND_RECOVERY, n);
    case RemoveOp(id) => DropRefines(s, v, 0, id, Succ(v.gen));
    case StripOp(kind) =>
      DropRefines(s, v, 1, kind, v.gen);
      KeepAllIff(v.methods, 1, kind);
    case RotateOp(_, _, _, _, _, _) => RotateRefines(s, v, op);
  }

  // ---------------------------------------------------------------- every run

  /** A new id is free exactly while the largest is below 255 or 0 is unused. */
  predicate IdFree(methods: seq<Method>) {
    MaxOf(methods) != Some(255) || forall m <- methods :: m.id != 0
  }

  lemma {:induction false} MaxIsLargest(methods: seq<Method>)
    ensures MaxOf(methods).None? <==> methods == []
    ensures MaxOf(methods).Some? ==>
      && (forall m <- methods :: m.id <= MaxOf(methods).value) && (exists m <- methods :: m.id == MaxOf(methods).value)
  {
    if methods != [] {
      var n := |methods| - 1;
      MaxIsLargest(methods[..n]);
      assert methods == methods[..n] + [methods[n]];
    }
  }

  /** An added slot's id differs from all others exactly when a new id is free: the counter wraps. */
  lemma NextIdIsNewIff(methods: seq<Method>)
    ensures (forall m <- methods :: m.id != NextId(methods)) <==> IdFree(methods)
  {
    MaxIsLargest(methods);
  }

  /** Adding to a rendered vault gives a blob that parses exactly when it had fewer than 255 slots. */
  lemma AddParsesIff(s: Suite, v: Vault, op: Op)
    requires FullSlots(s) && 1 <= |v.methods| <= 255 && v.gen <= U64_MAX && (op.AddPasskeyOp? || op.AddRecoveryOp?)
    ensures
      var r := DoBytes(s, Render(s, v), v.dek, op);
      r.Done? && (Parse(r.value).Done? <==> |v.methods| <= 254)
  {
    hide *;
    BytesRefine(s, v, op);
    DoAdds(v, op);
    RenderParsesIff(s, Do(v, op).value);
  }

  lemma DoAdds(v: Vault, op: Op)
    requires op.AddPasskeyOp? || op.AddRecoveryOp?
    ensures Do(v, op).Done? && |Do(v, op).value.methods| == |v.methods| + 1 && Do(v, op).value.gen == Succ(v.gen)
    ensures Succ(v.gen) <= U64_MAX
  {
  }

  /** An operation the run allows: its key is one of the run's, and an add finds room and a free id. */
  ghost predicate Allowed(v: Vault, op: Op, keks: set<Kek>) {
    match op
    case AddPasskeyOp(_, _) => KekOf(v, op) in keks && |v.methods| <= 254 && IdFree(v.methods)
    case AddRecoveryOp(_, _) => KekOf(v, op) in keks && |v.methods| <= 254 && IdFree(v.methods)
    case RotateOp(_, secret, code, salt, _, _) => FromPrf(secret) in keks && FromCode(code, salt) in keks
    case _ => true
  }

  /** What a mutation does to the generation. */
  function GenerationAfter(v: Vault, op: Op): nat {
    if op.StripOp? then v.gen else Succ(v.gen)
  }

  lemma DoKeeps(v: Vault, op: Op, keks: set<Kek>)
    requires Valid(v, keks) && Allowed(v, op, keks) && Do(v, op).Done?
    ensures Valid(Do(v, op).value, keks) && Do(v, op).value.gen == GenerationAfter(v, op)
  {
    match op
    case AddPasskeyOp(_, _) => NextIdIsNewIff(v.methods);
    case AddRecoveryOp(_, _) => NextIdIsNewIff(v.methods);
    case RemoveOp(id) => KeepDistinct(v.methods, 0, id); RemoveLeavesOne(v.methods, id);
    case StripOp(kind) => KeepDistinct(v.methods, 1, kind);
    case RotateOp(_, _, _, _, _, _) =>
  }

  /** With distinct ids a removal takes away at most one slot, so of several one remains. */
  lemma {:induction false} RemoveLeavesOne(methods: seq<Method>, id: byte)
    requires DistinctIds(methods)
    ensures |Keep(methods, 0, id)| >= |methods| - 1
  {
    if methods != [] {
      var n := |methods| - 1;
      KeepLast(methods, 0, id);
      if methods[n].id == id {
        OthersDiffer(methods, n);
        KeepAllIff(methods[..n], 0, id);
      } else {
        hide Keep;
        RemoveLeavesOne(methods[..n], id);
      }
    }
  }

  lemma OthersDiffer(methods: seq<Method>, n: nat)
    requires DistinctIds(methods) && n == |methods| - 1
    ensures forall m <- methods[..n] :: Field(m, 0) != methods[n].id
  {
    forall m | m in methods[..n] ensures Field(m, 0) != methods[n].id {
      var i :| 0 <= i < n && methods[..n][i] == m;
      assert methods[i].id != methods[n].id;
    }
  }

  /** A run: each mutation either happens or fails and changes nothing. */
  function Run(v: Vault, ops: seq<Op>): Vault {
    if ops == [] then v
    else
      var w := Run(v, ops[..|ops| - 1]);
      match Do(w, ops[|ops| - 1]) case Done(w') => w' case Failed(_) => w
  }

  /** The same run on the bytes, with the DEK of the moment. */
  function RunBytes(s: Suite, blob: seq<byte>, v: Vault, ops: seq<Op>): seq<byte> {
    if ops == [] then blob
    else
      var n := |ops| - 1;
      var b := RunBytes(s, blob, v, ops[..n]);
      if |b| < HEADER_LEN then b
      else match DoBytes(s, b, Run(v, ops[..n]).dek, ops[n]) case Done(b') => b' case Failed(_) => b
  }

  ghost predicate AllAllowed(v: Vault, ops: seq<Op>, keks: set<Kek>) {
    ops == [] || (AllAllowed(v, ops[..|ops| - 1], keks) && Allowed(Run(v, ops[..|ops| - 1]), ops[|ops| - 1], keks))
  }

  lemma {:induction false} RunKeeps(s: Suite, v: Vault, ops: seq<Op>, keks: set<Kek>)
    requires FullSlots(s) && Valid(v, keks) && AllAllowed(v, ops, keks)
    ensures Valid(Run(v, ops), keks) && RunBytes(s, Render(s, v), v, ops) == Render(s, Run(v, ops))
  {
    if ops != [] {
      var n := |ops| - 1;
      RunKeeps(s, v, ops[..n], keks);
      var w := Run(v, ops[..n]);
      var before := RunBytes(s, Render(s, v), v, ops[..n]);
      if Do(w, ops[n]).Done? { DoKeeps(w, ops[n], keks); }
      ValidBounds(w, keks);
      hide Do, DoBytes, Render, Valid, FullSlots, Allowed;
      BytesRefine(s, w, ops[n]);
    }
  }

  lemma ValidBounds(v: Vault, keks: set<Kek>)
    requires Valid(v, keks)
    ensures 1 <= |v.methods| <= 255 && v.gen <= U64_MAX
  {
  }

  predicate HasKek(methods: seq<Method>, kek: Kek) {
    exists m <- methods :: m.kek == kek
  }

  lemma HasKekFrom(methods: seq<Method>, kek: Kek)
    requires methods != []
    ensures HasKek(methods, kek) <==> methods[0].kek == kek || HasKek(methods[1..], kek)
  {
    assert methods == [methods[0]] + methods[1..];
    assert methods[0] in methods && forall m <- methods[1..] :: m in methods;
  }

  predicate InRange(methods: seq<Method>, keks: set<Kek>) {
    forall i :: 0 <= i < |methods| ==> methods[i].kek in keks
  }

  lemma {:induction false} FirstOpenFinds(s: Suite, dek: Bytes32, kek: Kek, methods: seq<Method>, keks: set<Kek>)
    requires Ideal(s, keks) && kek in keks && InRange(methods, keks)
    ensures forall c <- SlotsFor(s, dek, methods) :: |c| == SLOT_LEN
    ensures FirstOpen(s, kek, SlotsFor(s, dek, methods)) == if HasKek(methods, kek) then Some(dek) else None
  {
    SlotsAreSlots(s, dek, methods);
    if methods != [] {
      var m, slots, rest := methods[0], SlotsFor(s, dek, methods), methods[1..];
      assert slots[1..] == SlotsFor(s, dek, rest);
      OpenOwnSlot(s, dek, kek, m, keks);
      HasKekFrom(methods, kek);
      hide OpenSlot, WrapSlot, Ideal, SlotsFor, HasKek;
      FirstOpenFinds(s, dek, kek, rest, keks);
    }
  }

  lemma OpenOwnSlot(s: Suite, dek: Bytes32, kek: Kek, m: Method, keks: set<Kek>)
    requires Ideal(s, keks) && kek in keks && m.kek in keks
    ensures |WrapSlot(s, dek, m.kek, m.id, m.kind, m.nonce)| == SLOT_LEN
    ensures OpenSlot(s, kek, WrapSlot(s, dek, m.kek, m.id, m.kind, m.nonce)) == if m.kek == kek then Some(dek) else None
  {
    var slot := WrapSlot(s, dek, m.kek, m.id, m.kind, m.nonce);
    assert slot[2..26] == m.nonce && slot[26..] == s.wrap(m.kek, m.nonce, m.id, m.kind, dek);
  }

  /** A key opens a valid envelope exactly when some slot was wrapped under it, and then to its DEK. */
  lemma OpensIffHeld(s: Suite, v: Vault, kek: Kek, keks: set<Kek>)
    requires Ideal(s, keks) && Valid(v, keks) && kek in keks
    ensures OpenWithKek(s, Render(s, v), kek)
         == if exists m <- v.methods :: m.kek == kek then Done(v.dek) else Failed(Unlock)
  {
    assert FullSlots(s);
    FirstOpenFinds(s, v.dek, kek, v.methods, keks);
    ValidBounds(v, keks);
    hide *;
    RenderParsesIff(s, v);
    RenderMac(s, v);
    UnfoldOpen(s, Render(s, v), kek);
  }

  lemma RenderMac(s: Suite, v: Vault)
    requires FullSlots(s)
    ensures |Render(s, v)| >= MAC_LEN && MacOk(s, Render(s, v), v.dek)
  {
    RenderParts(s, v);
  }

  lemma UnfoldOpen(s: Suite, blob: seq<byte>, kek: Kek)
    requires Parse(blob).Done?
    ensures |blob| >= MAC_LEN
    ensures OpenWithKek(s, blob, kek) == match FirstOpen(s, kek, Slots(blob))
      case None => Failed(Unlock)
      case Some(dek) => if MacOk(s, blob, dek) then Done(dek) else Failed(Tamper)
  {
  }

  /** Over every run from a new envelope: the blob parses, its MAC verifies under the one DEK, ids stay
      distinct, a slot remains, and a key of the run opens it exactly when a remaining slot holds it. */
  lemma EnvelopeRuns(s: Suite, dek: Bytes32, secret: seq<byte>, kind: byte, salt: Salt, nonce: Nonce,
                     ops: seq<Op>, keks: set<Kek>, kek: Kek)
    requires Ideal(s, keks) && FromPrf(secret) in keks && kek in keks
    requires AllAllowed(Vault(dek, salt, 1, [Method(FromPrf(secret), 0, kind, nonce)]), ops, keks)
    ensures
      var start := Vault(dek, salt, 1, [Method(FromPrf(secret), 0, kind, nonce)]);
      var (blob, v) := (RunBytes(s, Create(s, dek, secret, kind, salt, nonce), start, ops), Run(start, ops));
      && Parse(blob) == Done(|v.methods|) && |v.methods| >= 1 && DistinctIds(v.methods)
      && Generation(blob) == v.gen && MacOk(s, blob, v.dek)
      && OpenWithKek(s, blob, kek) == if exists m <- v.methods :: m.kek == kek then Done(v.dek) else Failed(Unlock)
  {
    var start := Vault(dek, salt, 1, [Method(FromPrf(secret), 0, kind, nonce)]);
    var v := Run(start, ops);
    assert FullSlots(s) && Valid(start, keks);
    CreateRenders(s, dek, secret, kind, salt, nonce);
    RunKeeps(s, start, ops, keks);
    ValidBounds(v, keks);
    assert DistinctIds(v.methods);
    hide *;
    RenderParsesIff(s, v);
    RenderMac(s, v);
    OpensIffHeld(s, v, kek, keks);
    RenderSalt(s, v);
  }

  /** Whatever a blob is, it opens exactly when it parses, some slot gives the DEK and its last 32 bytes are
      the MAC of all the others under that DEK; with another MAC there it is tampered with. */
  lemma OpensIffTagged(s: Suite, blob: seq<byte>, kek: Kek, dek: Bytes32)
    requires Parse(blob).Done? && FirstOpen(s, kek, Slots(blob)) == Some(dek)
    ensures |blob| >= 32
    ensures OpenWithKek(s, blob, kek)
         == if blob[|blob| - 32..] == s.mac(dek, blob[..|blob| - 32]) then Done(dek) else Failed(Tamper)
  {
    UnfoldOpen(s, blob, kek);
    hide OpenWithKek, FirstOpen, Slots;
  }

  lemma OpenedIsTagged(s: Suite, blob: seq<byte>, kek: Kek)
    requires OpenWithKek(s, blob, kek).Done?
    ensures |blob| >= 32 && blob[|blob| - 32..] == s.mac(OpenWithKek(s, blob, kek).value, blob[..|blob| - 32])
  {
    UnfoldOpen(s, blob, kek);
    hide FirstOpen, Slots;
  }

  /** A built envelope with its MAC or the bytes before it changed, so long as it still parses and a slot
      still gives the DEK, is refused as tampered with. */
  lemma TamperIsCaught(s: Suite, v: Vault, blob: seq<byte>, kek: Kek, bodies: set<seq<byte>>)
    requires FullSlots(s) && TellsApart(s, v.dek, bodies)
    requires Parse(blob).Done? && FirstOpen(s, kek, Slots(blob)) == Some(v.dek)
    requires |blob| >= 32 && |Render(s, v)| >= 32
    requires
      var (was, n, m) := (Render(s, v), |Render(s, v)| - 32, |blob| - 32);
      && was[..n] in bodies && blob[..m] in bodies
      && (blob[..m] == was[..n] <==> blob[m..] != was[n..])
    ensures OpenWithKek(s, blob, kek) == Failed(Tamper)
  {
    OpensIffTagged(s, blob, kek, v.dek);
    RenderMac(s, v);
    hide OpenWithKek, Render, Parse, Slots, FirstOpen;
  }

  /** Its generation overwritten, to get past a freshness floor, is the case in point: no key opens it. */
  lemma GenerationIsBound(s: Suite, v: Vault, gen: nat, kek: Kek, keks: set<Kek>)
    requires Ideal(s, keks) && Valid(v, keks) && kek in keks && gen <= U64_MAX && gen != v.gen && |Render(s, v)| >= 68
    requires
      var (was, forged) := (Render(s, v), Render(s, v)[..28] + LE(gen, 8) + Render(s, v)[36..]);
      TellsApart(s, v.dek, {was[..|was| - 32], forged[..|was| - 32]})
    ensures
      var forged := Render(s, v)[..28] + LE(gen, 8) + Render(s, v)[36..];
      && EnvelopeGeneration(forged) == gen
      && OpenWithKek(s, forged, kek) == if exists m <- v.methods :: m.kek == kek then Failed(Tamper) else Failed(Unlock)
  {
    var forged := Render(s, v)[..28] + LE(gen, 8) + Render(s, v)[36..];
    ForgedSlots(s, v, gen, kek, keks, forged);
    ForgedMac(s, v, gen, forged);
    assert HasKek(v.methods, kek) <==> exists m <- v.methods :: m.kek == kek;
    hide *;
    FreshIffNotBelow(forged, gen);
    UnfoldOpen(s, forged, kek);
    if HasKek(v.methods, kek) { OpensIffTagged(s, forged, kek, v.dek); }
  }

  lemma ForgedSlots(s: Suite, v: Vault, gen: nat, kek: Kek, keks: set<Kek>, forged: seq<byte>)
    requires Ideal(s, keks) && Valid(v, keks) && kek in keks && gen <= U64_MAX && gen != v.gen && |Render(s, v)| >= 68
    requires forged == Render(s, v)[..28] + LE(gen, 8) + Render(s, v)[36..]
    ensures Parse(forged).Done? && Generation(forged) == gen
    ensures FirstOpen(s, kek, Slots(forged)) == if HasKek(v.methods, kek) then Some(v.dek) else None
  {
    assert FullSlots(s) && InRange(v.methods, keks) && |v.methods| <= 255 && v.gen <= U64_MAX;
    hide Render, Ideal, Valid, FullSlots, SlotsFor, Parse, Slots, LE, FirstOpen, HasKek, Generation, InRange;
    ForgedGeneration(s, v, gen, forged);
    FirstOpenFinds(s, v.dek, kek, v.methods, keks);
  }

  lemma ForgedGeneration(s: Suite, v: Vault, gen: nat, forged: seq<byte>)
    requires FullSlots(s) && |v.methods| <= 255 && v.gen <= U64_MAX && gen <= U64_MAX && gen != v.gen && |Render(s, v)| >= 68
    requires forged == Render(s, v)[..28] + LE(gen, 8) + Render(s, v)[36..]
    ensures Parse(forged) == Done(|v.methods|) && Slots(forged) == SlotsFor(s, v.dek, v.methods) && Generation(forged) == gen
    ensures
      var (was, n) := (Render(s, v), |Render(s, v)| - 32);
      |forged| == |was| && forged[n..] == was[n..] && forged[..n] != was[..n]
  {
    hide Render, Flatten, SlotsFor, WrapSlot, LE, FromLE, Values, Parse, Slots, MacOk, SaltOf, Generation, FullSlots;
    var was, n := Render(s, v), |Render(s, v)| - 32;
    RenderParts(s, v);
    SlotsAreSlots(s, v.dek, v.methods);
    Widths();
    LERoundTrip(gen, 8);
    LERoundTrip(v.gen, 8);
    assert forged[28..36] == LE(gen, 8) && was[28..36] == LE(v.gen, 8);
    assert forged[..8] == was[..8] && forged[36..n] == was[36..n];
    FramedBlob(forged, |v.methods|, SlotsFor(s, v.dek, v.methods));
    assert forged[..n][28..36] == forged[28..36] && was[..n][28..36] == was[28..36];
    GenerationBytes(forged);
  }

  lemma ForgedMac(s: Suite, v: Vault, gen: nat, forged: seq<byte>)
    requires FullSlots(s) && |v.methods| <= 255 && v.gen <= U64_MAX && gen <= U64_MAX && gen != v.gen && |Render(s, v)| >= 68
    requires forged == Render(s, v)[..28] + LE(gen, 8) + Render(s, v)[36..]
    requires TellsApart(s, v.dek, {Render(s, v)[..|Render(s, v)| - 32], forged[..|Render(s, v)| - 32]})
    ensures |forged| >= 68 && forged[|forged| - 32..] != s.mac(v.dek, forged[..|forged| - 32])
  {
    hide Render, LE, Parse, Slots, FullSlots, SlotsFor, Generation;
    ForgedGeneration(s, v, gen, forged);
    RenderMac(s, v);
  }

  lemma GenerationBytes(blob: seq<byte>)
    requires |blob| >= 36
    ensures Generation(blob) == FromLE(blob[28..36])
  {
  }

  /** On the bytes: a removal takes away the slots with that id and nothing else, and fails exactly when
      there is one slot or none has the id; a strip does the same by kind, and fails exactly when it would
      leave none. */
  lemma SlotsAfterDrop(s: Suite, v: Vault, op: Op, keks: set<Kek>)
    requires FullSlots(s) && Valid(v, keks) && (op.RemoveOp? || op.StripOp?)
    ensures |Render(s, v)| >= HEADER_LEN && Parse(Render(s, v)).Done?
    ensures
      var after := DoBytes(s, Render(s, v), v.dek, op);
      && (after.Failed? <==>
           if op.RemoveOp? then |v.methods| == 1 || forall m <- v.methods :: m.id != op.id else forall m <- v.methods :: m.kind == op.kind)
      && (after.Done? ==> Parse(after.value).Done? && forall c :: c in Slots(after.value) <==>
           c in Slots(Render(s, v)) && if op.RemoveOp? then c[0] != op.id else c[1] != op.kind)
  {
    var (field, value) := if op.RemoveOp? then (0, op.id) else (1, op.kind);
    ValidBounds(v, keks);
    DropVerdict(v, op);
    if Do(v, op).Done? { DropLeavesRoom(v, op); }
    hide *;
    BytesRefine(s, v, op);
    RenderParsesIff(s, v);
    if Do(v, op).Done? {
      RenderParsesIff(s, Do(v, op).value);
      KeptSlots(s, v.dek, v.methods, field, value);
    }
  }

  lemma DropLeavesRoom(v: Vault, op: Op)
    requires (op.RemoveOp? || op.StripOp?) && Do(v, op).Done? && 1 <= |v.methods| <= 255 && v.gen <= U64_MAX
    ensures
      var (field, value) := if op.RemoveOp? then (0, op.id) else (1, op.kind);
      Do(v, op).value.methods == Keep(v.methods, field, value) && |Do(v, op).value.methods| <= 255
      && Do(v, op).value.gen <= U64_MAX && Do(v, op).value.dek == v.dek
  {
  }

  lemma DropVerdict(v: Vault, op: Op)
    requires (op.RemoveOp? || op.StripOp?) && 1 <= |v.methods|
    ensures Do(v, op).Failed? <==>
      if op.RemoveOp? then |v.methods| == 1 || forall m <- v.methods :: m.id != op.id else forall m <- v.methods :: m.kind == op.kind
  {
    var (field, value) := if op.RemoveOp? then (0, op.id) else (1, op.kind);
    var kept := Keep(v.methods, field, value);
    KeepAllIff(v.methods, field, value);
    if op.RemoveOp? {
      assert (forall m <- v.methods :: m.id != op.id) <==> forall m <- v.methods :: Field(m, 0) != op.id;
    } else {
      assert kept == [] ==> forall m <- v.methods :: Field(m, 1) == op.kind;
      if kept != [] { assert kept[0] in v.methods && Field(kept[0], 1) != op.kind; }
    }
    hide Keep;
  }

  /** The slots of the kept methods are the slots with another value. */
  lemma KeptSlots(s: Suite, dek: Bytes32, methods: seq<Method>, field: nat, value: byte)
    requires FullSlots(s) && field < 2
    ensures forall c <- SlotsFor(s, dek, methods) :: |c| == SLOT_LEN
    ensures forall c :: c in SlotsFor(s, dek, Keep(methods, field, value)) <==> c in SlotsFor(s, dek, methods) && c[field] != value
  {
    var (slots, kept) := (SlotsFor(s, dek, methods), Keep(methods, field, value));
    SlotsAreSlots(s, dek, methods);
    forall c | c in SlotsFor(s, dek, kept) ensures c in slots && c[field] != value { KeptFrom(s, dek, methods, kept, field, value, c); }
    forall c | c in slots && c[field] != value ensures c in SlotsFor(s, dek, kept) { SlotIsKept(s, dek, methods, kept, field, value, c); }
    hide *;
  }

  lemma KeptFrom(s: Suite, dek: Bytes32, methods: seq<Method>, kept: seq<Method>, field: nat, value: byte, c: seq<byte>)
    requires FullSlots(s) && field < 2 && c in SlotsFor(s, dek, kept)
    requires forall m <- kept :: m in methods && Field(m, field) != value
    ensures c in SlotsFor(s, dek, methods) && |c| == SLOT_LEN && c[field] != value
  {
    var left := SlotsFor(s, dek, kept);
    var j :| 0 <= j < |kept| && left[j] == c;
    FieldOfSlot(s, dek, kept, j, field);
    SlotsAreSlots(s, dek, kept);
    hide Field, WrapSlot, FullSlots;
    assert kept[j] in kept && kept[j] in methods;
    var i :| 0 <= i < |methods| && methods[i] == kept[j];
    assert SlotsFor(s, dek, methods)[i] == c;
  }

  lemma SlotIsKept(s: Suite, dek: Bytes32, methods: seq<Method>, kept: seq<Method>, field: nat, value: byte, c: seq<byte>)
    requires FullSlots(s) && field < 2 && c in SlotsFor(s, dek, methods) && |c| == SLOT_LEN && c[field] != value
    requires forall m <- methods :: Field(m, field) != value ==> m in kept
    ensures c in SlotsFor(s, dek, kept)
  {
    var slots := SlotsFor(s, dek, methods);
    var i :| 0 <= i < |methods| && slots[i] == c;
    FieldOfSlot(s, dek, methods, i, field);
    hide Field, WrapSlot, FullSlots;
    assert methods[i] in methods && methods[i] in kept;
    var j :| 0 <= j < |kept| && kept[j] == methods[i];
    assert SlotsFor(s, dek, kept)[j] == c;
  }

  /** On the bytes: a successful add, remove or rotation moves the generation up by one (it wraps at 64
      bits), a strip keeps it; so the freshness floor refuses every envelope from before. */
  lemma GenerationMoves(s: Suite, v: Vault, op: Op, keks: set<Kek>)
    requires FullSlots(s) && Valid(v, keks) && Allowed(v, op, keks) && Do(v, op).Done?
    ensures |Render(s, v)| >= HEADER_LEN && DoBytes(s, Render(s, v), v.dek, op).Done?
    ensures
      var after := DoBytes(s, Render(s, v), v.dek, op).value;
      && EnvelopeGeneration(after) == (if op.StripOp? then v.gen else (v.gen + 1) % (U64_MAX + 1))
      && (!op.StripOp? && v.gen < U64_MAX ==>
            CheckFresh(Render(s, v), EnvelopeGeneration(after)) == Failed(Rollback)
            && CheckFresh(after, EnvelopeGeneration(after)) == Done(()))
  {
    hide *;
    var w, g := Do(v, op).value, GenerationAfter(v, op);
    DoKeeps(v, op, keks);
    ValidBounds(v, keks);
    ValidBounds(w, keks);
    GenerationSteps(v, op);
    RenderParsesIff(s, v);
    RenderParsesIff(s, w);
    BytesRefine(s, v, op);
    FreshIffNotBelow(Render(s, w), g);
    FreshIffNotBelow(Render(s, v), g);
  }

  lemma GenerationSteps(v: Vault, op: Op)
    ensures GenerationAfter(v, op) == if op.StripOp? then v.gen else (v.gen + 1) % (U64_MAX + 1)
  {
  }

  lemma FreshIffNotBelow(blob: seq<byte>, floor: nat)
    requires Parse(blob).Done?
    ensures |blob| >= HEADER_LEN && EnvelopeGeneration(blob) == Generation(blob)
    ensures CheckFresh(blob, floor) == if Generation(blob) < floor then Failed(Rollback) else Done(())
  {
  }

  // ---------------------------------------------------------------- the loops of the code

  /** `next_kek_id`. */
  method ScanNextId(blob: seq<byte>) returns (id: byte)
    requires Parse(blob).Done?
    ensures id == NextKekId(Slots(blob))
  {
    var n := Parse(blob).value;
    var slots := Slots(blob);
    SlotCount(blob);
    hide Slots, Parse;
    var max: Option<byte> := None;
    for i := 0 to n
      invariant forall c <- slots[..i] :: |c| == SLOT_LEN
      invariant max == MaxId(slots[..i])
    {
      SlotAt(blob, i);
      var at := BodyLen(i);
      var b := blob[at];
      assert slots[i][0] == b && slots[..i + 1][..i] == slots[..i];
      max := if max.None? then Some(b) else if max.value >= b then max else Some(b);
    }
    assert slots[..n] == slots;
    id := if max.None? then 0 else (max.value + 1) % 256;
  }

  lemma KeepOneMore(slots: seq<seq<byte>>, i: nat, field: nat, value: byte)
    requires i < |slots| && field < 2 && forall c <- slots :: |c| == SLOT_LEN
    ensures (forall c <- slots[..i] :: |c| == SLOT_LEN) && (forall c <- slots[..i + 1] :: |c| == SLOT_LEN)
    ensures
      var (before, after) := (Without(slots[..i], field, value), Without(slots[..i + 1], field, value));
      if slots[i][field] != value then Flatten(after) == Flatten(before) + slots[i] && |after| == |before| + 1
      else after == before
  {
    var upTo := slots[..i + 1];
    assert upTo[..i] == slots[..i] && upTo[i] == slots[i];
    assert (forall c <- slots[..i] :: c in slots) && forall c <- upTo :: c in slots;
    WithoutLast(upTo, field, value);
    hide Without, Flatten;
    var before := Without(slots[..i], field, value);
    assert before + [] == before;
    FlattenConcat(before, [slots[i]]);
    FlattenOne(slots[i]);
  }

  /** What the filter has kept of the first `i` slots. */
  function KeptOf(blob: seq<byte>, i: nat, field: nat, value: byte): seq<seq<byte>>
    requires Parse(blob).Done? && i <= |Slots(blob)| && field < 2
  {
    assert forall c <- Slots(blob)[..i] :: c in Slots(blob);
    Without(Slots(blob)[..i], field, value)
  }

  lemma KeptGrows(blob: seq<byte>, i: nat, field: nat, value: byte)
    requires Parse(blob).Done? && i < Parse(blob).value && field < 2
    ensures |Slots(blob)| == Parse(blob).value && BodyLen(i) + SLOT_LEN <= |blob|
    ensures
      var (before, after, at) := (KeptOf(blob, i, field, value), KeptOf(blob, i + 1, field, value), BodyLen(i));
      if blob[at + field] != value then Flatten(after) == Flatten(before) + blob[at..at + SLOT_LEN] && |after| == |before| + 1
      else after == before
  {
    hide Slots, Parse, Flatten, Without;
    SlotAt(blob, i);
    KeepOneMore(Slots(blob), i, field, value);
    assert Slots(blob)[i][field] == blob[BodyLen(i) + field];
  }

  lemma KeptEnds(blob: seq<byte>, field: nat, value: byte)
    requires Parse(blob).Done? && field < 2
    ensures |Slots(blob)| == Parse(blob).value && Flatten([]) == []
    ensures KeptOf(blob, 0, field, value) == [] && KeptOf(blob, Parse(blob).value, field, value) == Without(Slots(blob), field, value)
  {
    SlotCount(blob);
    assert Slots(blob)[..|Slots(blob)|] == Slots(blob);
  }

  /** The filter loop of `remove_slot` (field 0) and `strip_kind` (field 1). */
  method KeepSlots(blob: seq<byte>, field: nat, value: byte) returns (keep: seq<byte>, kept: nat)
    requires Parse(blob).Done? && field < 2
    ensures keep == Flatten(Without(Slots(blob), field, value)) && kept == |Without(Slots(blob), field, value)|
  {
    hide Slots, Parse, Flatten, Without, KeptOf, BodyLen;
    KeptEnds(blob, field, value);
    keep, kept := [], 0;
    for i := 0 to Parse(blob).value
      invariant keep == Flatten(KeptOf(blob, i, field, value)) && kept == |KeptOf(blob, i, field, value)|
    {
      KeptGrows(blob, i, field, value);
      var at := BodyLen(i);
      if blob[at + field] != value {
        keep, kept := keep + blob[at..at + SLOT_LEN], kept + 1;
      }
    }
  }

  method RemoveSlot(s: Suite, blob: seq<byte>, dek: Bytes32, id: byte) returns (r: Outcome<seq<byte>>)
    ensures r == Remove(s, blob, dek, id)
  {
    if Parse(blob).Failed? { return Failed(Format); }
    var n := Parse(blob).value;
    if n <= 1 { return Failed(Format); }
    SlotCount(blob);
    var keep, kept := KeepSlots(blob, 0, id);
    if kept == n { return Failed(Format); }
    r := Done(Rebuild(s, blob, dek, keep, kept));
  }

  method StripKind(s: Suite, blob: seq<byte>, dek: Bytes32, kind: byte) returns (r: Outcome<seq<byte>>)
    ensures r == Strip(s, blob, dek, kind)
  {
    if Parse(blob).Failed? { return Failed(Format); }
    var n := Parse(blob).value;
    SlotCount(blob);
    var keep, kept := KeepSlots(blob, 1, kind);
    if kept == 0 { return Failed(Format); }
    if kept == n { return Done(blob); }
    r := Done(RebuildGen(s, blob, dek, keep, kept, Generation(blob)));
  }

  /** `set_generation`, in place. */
  method SetGenerationInPlace(s: Suite, blob: array<byte>, gen: nat, dek: Bytes32) returns (ok: bool)
    modifies blob
    ensures SetGeneration(s, old(blob[..]), gen, dek) == if ok then Done(blob[..]) else Failed(Format)
    ensures !ok ==> blob[..] == old(blob[..])
  {
    ghost var was := blob[..];
    if Parse(blob[..]).Failed? { return false; }
    hide LE;
    var n := blob.Length - MAC_LEN;
    CopyInto(blob, GEN_OFF, LE(gen, 8));
    ghost var body := was[..GEN_OFF] + LE(gen, 8) + was[HEADER_LEN..n];
    ghost var mid := blob[..];
    assert mid == was[..GEN_OFF] + LE(gen, 8) + was[HEADER_LEN..];
    assert mid[..n] == body;
    var mac := s.mac(dek, blob[..n]);
    CopyInto(blob, n, mac);
    assert blob[..] == mid[..n] + mac + mid[n + MAC_LEN..];
    assert blob[..] == body + mac;
    ok := true;
  }

  lemma FirstOpenStep(s: Suite, kek: Kek, slots: seq<seq<byte>>, i: nat)
    requires i < |slots| && forall c <- slots :: |c| == SLOT_LEN
    ensures (forall c <- slots[i..] :: |c| == SLOT_LEN) && (forall c <- slots[i + 1..] :: |c| == SLOT_LEN)
    ensures
      var dek := OpenSlot(s, kek, slots[i]);
      FirstOpen(s, kek, slots[i..]) == if dek.Some? then dek else FirstOpen(s, kek, slots[i + 1..])
  {
    assert (forall c <- slots[i..] :: c in slots) && forall c <- slots[i + 1..] :: c in slots;
    assert slots[i..][0] == slots[i] && slots[i..][1..] == slots[i + 1..];
  }

  lemma OpensNone(s: Suite, kek: Kek)
    ensures FirstOpen(s, kek, []) == None
  {
  }

  /** The slot loop of `open_with_kek`. */
  method FirstSlotThatOpens(s: Suite, blob: seq<byte>, kek: Kek) returns (r: Option<Bytes32>)
    requires Parse(blob).Done?
    ensures r == FirstOpen(s, kek, Slots(blob))
  {
    var n := Parse(blob).value;
    ghost var slots := Slots(blob);
    SlotCount(blob);
    OpensNone(s, kek);
    hide Slots, Parse, FirstOpen, OpenSlot, BodyLen;
    assert slots[0..] == slots && slots[n..] == [];
    for i := 0 to n
      invariant forall c <- slots[i..] :: |c| == SLOT_LEN
      invariant FirstOpen(s, kek, slots) == FirstOpen(s, kek, slots[i..])
    {
      SlotAt(blob, i);
      FirstOpenStep(s, kek, slots, i);
      var at := BodyLen(i);
      var dek := OpenSlot(s, kek, blob[at..at + SLOT_LEN]);
      if dek.Some? { return dek; }
    }
    r := None;
  }

  /** `open_with_kek`: the first slot that opens decides. */
  method TryOpen(s: Suite, blob: seq<byte>, kek: Kek) returns (r: Outcome<Bytes32>)
    ensures r == OpenWithKek(s, blob, kek)
  {
    hide FirstOpen, MacOk, Slots;
    if Parse(blob).Failed? { return Failed(Format); }
    var dek := FirstSlotThatOpens(s, blob, kek);
    if dek.None? { return Failed(Unlock); }
    if !MacOk(s, blob, dek.value) { return Failed(Tamper); }
    r := Done(dek.value);
  }
}
