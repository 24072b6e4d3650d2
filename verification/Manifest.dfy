/** The per-database manifest: two slots, ping-ponged by generation (vfs.rs, manifest.rs). */
module Manifest {
  import opened Bytes
  import opened Crypto

  /** `ManifestPayload`. The codec of manifest.rs is the module `ManifestCodec`. */
  datatype Payload = Payload(generation: nat, uuid: Uuid, root: Root, prevRoot: Root, files: seq<(string, nat)>)

  /** A manifest file: the plaintext header, when its magic is there, and the two slots. */
  datatype ManifestFile = ManifestFile(header: Option<Uuid>, slots: Slots<Payload>)

  function ManifestName(db: string): string {
    db + "#manifest"
  }

  /** What slot `i` says, if it authenticates and corroborates the header's uuid. */
  function ReadSlot(dek: Dek, db: string, uuid: Uuid, slots: Slots<Payload>, i: nat): Option<Payload> {
    var p := slots.At(i).Open(DbKey(dek, uuid), ManifestName(db), uuid, i);
    if p.Some? && p.value.uuid == uuid then p else None
  }

  /** `read_manifest`: the authentic slot of the highest generation. */
  function ReadManifest(dek: Dek, db: string, m: ManifestFile): Option<Payload> {
    if m.header.None? then None
    else
      match (ReadSlot(dek, db, m.header.value, m.slots, 0), ReadSlot(dek, db, m.header.value, m.slots, 1))
      case (None, None) => None
      case (Some(p), None) => Some(p)
      case (None, Some(p)) => Some(p)
      case (Some(p0), Some(p1)) => Some(if p1.generation > p0.generation then p1 else p0)
  }

  /** Whatever the slots hold, what is read is of the header's database and stands in one of them. */
  lemma ReadCorroborates(dek: Dek, db: string, m: ManifestFile)
    ensures
      var p := ReadManifest(dek, db, m);
      p.Some? ==>
        && m.header == Some(p.value.uuid)
        && exists i :: 0 <= i < 2 && m.slots.At(i) == Sealed(DbKey(dek, p.value.uuid), ManifestName(db), p.value.uuid, i, p.value)
  {
    var p := ReadManifest(dek, db, m);
    if p.Some? {
      var i := if ReadSlot(dek, db, m.header.value, m.slots, 0) == p then 0 else 1;
      assert ReadSlot(dek, db, m.header.value, m.slots, i) == p;
      assert m.slots.At(i) == Sealed(DbKey(dek, p.value.uuid), ManifestName(db), p.value.uuid, i, p.value);
    }
  }

  /** The slot loop of `read_manifest`. */
  method ScanManifest(dek: Dek, db: string, m: ManifestFile) returns (r: Option<Payload>)
    ensures r == ReadManifest(dek, db, m)
  {
    if m.header.None? { return None; }
    var uuid := m.header.value;
    r := None;
    for slot := 0 to 2
      invariant slot == 0 ==> r == None
      invariant slot == 1 ==> r == ReadSlot(dek, db, uuid, m.slots, 0)
      invariant slot == 2 ==> r == ReadManifest(dek, db, m)
    {
      var p := m.slots.At(slot).Open(DbKey(dek, uuid), ManifestName(db), uuid, slot);
      if p.Some? && p.value.uuid == uuid && (r.None? || p.value.generation > r.value.generation) {
        r := p;
      }
    }
  }

  function SealSlot(dek: Dek, db: string, p: Payload): Cell<Payload> {
    Sealed(DbKey(dek, p.uuid), ManifestName(db), p.uuid, p.generation % 2, p)
  }

  /** `write_manifest_slot`: one durable write to the slot of the generation's parity. */
  function WriteSlot(dek: Dek, db: string, m: ManifestFile, p: Payload): ManifestFile {
    m.(slots := With(m.slots, p.generation % 2, SealSlot(dek, db, p)))
  }

  function TornSlot(m: ManifestFile, p: Payload): ManifestFile {
    m.(slots := With(m.slots, p.generation % 2, Torn))
  }

  /** Every authentic slot holds a generation of its own parity. */
  predicate Wf(dek: Dek, db: string, m: ManifestFile) {
    m.header.Some? ==>
      && (var p := ReadSlot(dek, db, m.header.value, m.slots, 0); p.Some? ==> p.value.generation % 2 == 0)
      && (var p := ReadSlot(dek, db, m.header.value, m.slots, 1); p.Some? ==> p.value.generation % 2 == 1)
  }

  /** `p` is the next seal after what `m` now says. */
  predicate Follows(dek: Dek, db: string, m: ManifestFile, p: Payload) {
    && Wf(dek, db, m)
    && ReadManifest(dek, db, m).Some?
    && p.uuid == m.header.value
    && p.generation == ReadManifest(dek, db, m).value.generation + 1
  }

  /** A seal either becomes what the manifest says or, torn, leaves what it said. */
  lemma SealIsAtomic(dek: Dek, db: string, m: ManifestFile, p: Payload)
    requires Follows(dek, db, m, p)
    ensures Wf(dek, db, WriteSlot(dek, db, m, p)) && ReadManifest(dek, db, WriteSlot(dek, db, m, p)) == Some(p)
    ensures Wf(dek, db, TornSlot(m, p)) && ReadManifest(dek, db, TornSlot(m, p)) == ReadManifest(dek, db, m)
  {
    var u, i := m.header.value, p.generation % 2;
    var now := ReadManifest(dek, db, m).value;
    assert now.generation % 2 == 0 <==> i == 1;
    var sealed, torn := WriteSlot(dek, db, m, p), TornSlot(m, p);
    assert ReadSlot(dek, db, u, sealed.slots, i) == Some(p);
    assert ReadSlot(dek, db, u, sealed.slots, 1 - i) == ReadSlot(dek, db, u, m.slots, 1 - i);
    assert ReadSlot(dek, db, u, torn.slots, i) == None;
    assert ReadSlot(dek, db, u, torn.slots, 1 - i) == ReadSlot(dek, db, u, m.slots, 1 - i);
  }

  /** A run of seals, each following the one before. */
  predicate Chain(first: Payload, ps: seq<Payload>)
    decreases |ps|
  {
    ps == [] || (ps[0].uuid == first.uuid && ps[0].generation == first.generation + 1 && Chain(ps[0], ps[1..]))
  }

  function SealAll(dek: Dek, db: string, m: ManifestFile, ps: seq<Payload>): ManifestFile
    decreases |ps|
  {
    if ps == [] then m else SealAll(dek, db, WriteSlot(dek, db, m, ps[0]), ps[1..])
  }

  /** After any run of seals the manifest says the last payload; if that seal is torn, it says the
      payload before it. */
  lemma {:induction false} SealRun(dek: Dek, db: string, m: ManifestFile, ps: seq<Payload>, last: Payload)
    requires Wf(dek, db, m) && ReadManifest(dek, db, m).Some? && m.header.value == ReadManifest(dek, db, m).value.uuid
    requires Chain(ReadManifest(dek, db, m).value, ps + [last])
    ensures
      var done := SealAll(dek, db, m, ps);
      && ReadManifest(dek, db, WriteSlot(dek, db, done, last)) == Some(last)
      && ReadManifest(dek, db, TornSlot(done, last))
         == if ps == [] then ReadManifest(dek, db, m) else Some(ps[|ps| - 1])
    decreases |ps|
  {
    if ps == [] {
      assert (ps + [last])[0] == last;
      SealIsAtomic(dek, db, m, last);
    } else {
      assert (ps + [last])[0] == ps[0] && (ps + [last])[1..] == ps[1..] + [last];
      SealIsAtomic(dek, db, m, ps[0]);
      SealRun(dek, db, WriteSlot(dek, db, m, ps[0]), ps[1..], last);
    }
  }
}
