/** Re-keying a closed database's ciphertext (`reseal_db_ciphertext` in vfs.rs). */
module Reseal {
  import opened Bytes
  import opened Crypto
  import opened Manifest
  import opened Journal
  import Commit

  /** A block under the new key: same file, domain, index and plaintext. `None` when the old key does
      not open it. */
  function ResealBlock(dek: Dek, dek': Dek, name: string, uuid: Uuid, k: nat, c: Cell<Page>): Option<Cell<Page>> {
    match c.Open(DbKey(dek, uuid), name, uuid, k)
    case None => None
    case Some(p) => Some(Sealed(DbKey(dek', uuid), name, uuid, k, p))
  }

  /** All blocks, or `None` at the first that does not authenticate. */
  function ResealMain(dek: Dek, dek': Dek, name: string, uuid: Uuid, cells: seq<Cell<Page>>): Option<seq<Cell<Page>>> {
    if cells == [] then Some([])
    else
      var k := |cells| - 1;
      match (ResealMain(dek, dek', name, uuid, cells[..k]), ResealBlock(dek, dek', name, uuid, k, cells[k]))
      case (Some(done), Some(c)) => Some(done + [c])
      case _ => None
  }

  /** A slot that the old key does not open is copied as it is. */
  function ResealSlot(dek: Dek, dek': Dek, db: string, uuid: Uuid, slot: nat, c: Cell<Payload>): Cell<Payload> {
    match c.Open(DbKey(dek, uuid), ManifestName(db), uuid, slot)
    case None => c
    case Some(p) => Sealed(DbKey(dek', uuid), ManifestName(db), uuid, slot, p)
  }

  function ResealManifest(dek: Dek, dek': Dek, db: string, m: ManifestFile): Option<ManifestFile> {
    match m.header
    case None => None
    case Some(uuid) =>
      Some(m.(slots := Slots(ResealSlot(dek, dek', db, uuid, 0, m.slots.slot0),
                             ResealSlot(dek, dek', db, uuid, 1, m.slots.slot1))))
  }

  /** The block loop. */
  method ResealMainFile(dek: Dek, dek': Dek, name: string, uuid: Uuid, cells: seq<Cell<Page>>)
    returns (r: Option<seq<Cell<Page>>>)
    ensures r == ResealMain(dek, dek', name, uuid, cells)
  {
    var resealed: seq<Cell<Page>> := [];
    for k := 0 to |cells|
      invariant ResealMain(dek, dek', name, uuid, cells[..k]) == Some(resealed)
    {
      assert cells[..k + 1][..k] == cells[..k];
      var p := cells[k].Open(DbKey(dek, uuid), name, uuid, k);
      if p.None? {
        MainRefuses(dek, dek', name, uuid, cells, k);
        return None;
      }
      resealed := resealed + [Sealed(DbKey(dek', uuid), name, uuid, k, p.value)];
    }
    assert cells[..|cells|] == cells;
    r := Some(resealed);
  }

  lemma {:induction false} MainRefuses(dek: Dek, dek': Dek, name: string, uuid: Uuid, cells: seq<Cell<Page>>, k: nat)
    requires k < |cells| && ResealBlock(dek, dek', name, uuid, k, cells[k]).None?
    ensures ResealMain(dek, dek', name, uuid, cells).None?
    decreases |cells|
  {
    var n := |cells| - 1;
    if k < n { MainRefuses(dek, dek', name, uuid, cells[..n], k); }
  }

  // ---------------------------------------------------------------- re-keying preserves meaning

  /** Re-keying succeeds exactly for a file all of whose blocks authenticate, and then block k opens
      under the new key to what it opened to under the old one. */
  lemma {:induction false} MainKeepsMeaning(dek: Dek, dek': Dek, name: string, uuid: Uuid, cells: seq<Cell<Page>>)
    ensures
      var (was, now) := (Commit.Db(dek, name), Commit.Db(dek', name));
      match ResealMain(dek, dek', name, uuid, cells)
      case None => !Commit.Authentic(was, uuid, name, cells)
      case Some(out) =>
        && |out| == |cells| && Commit.Authentic(was, uuid, name, cells)
        && forall k :: 0 <= k < |cells| ==> Commit.Block(now, uuid, name, out, k) == Commit.Block(was, uuid, name, cells, k)
    decreases |cells|
  {
    if cells != [] {
      var n := |cells| - 1;
      var was := Commit.Db(dek, name);
      MainKeepsMeaning(dek, dek', name, uuid, cells[..n]);
      assert Commit.Block(was, uuid, name, cells, n) == cells[n].Open(DbKey(dek, uuid), name, uuid, n);
      forall k | 0 <= k < n ensures Commit.Block(was, uuid, name, cells[..n], k) == Commit.Block(was, uuid, name, cells, k) {}
      assert Commit.Authentic(was, uuid, name, cells)
        <==> Commit.Authentic(was, uuid, name, cells[..n]) && Commit.Block(was, uuid, name, cells, n).Some?;
    }
  }

  /** So the decrypted image carries over. */
  lemma ImageCarriesOver(dek: Dek, dek': Dek, name: string, uuid: Uuid, cells: seq<Cell<Page>>)
    requires ResealMain(dek, dek', name, uuid, cells).Some?
    ensures Commit.Decrypt(Commit.Db(dek', name), uuid, name, ResealMain(dek, dek', name, uuid, cells).value)
         == Commit.Decrypt(Commit.Db(dek, name), uuid, name, cells)
  {
    var (was, now, out) := (Commit.Db(dek, name), Commit.Db(dek', name), ResealMain(dek, dek', name, uuid, cells).value);
    MainKeepsMeaning(dek, dek', name, uuid, cells);
    forall k | 0 <= k < |out| ensures Commit.Block(now, uuid, name, out, k).Some? {
      assert Commit.Block(was, uuid, name, cells, k).Some?;
    }
    assert Commit.Plain(now, uuid, name, out) == Commit.Plain(was, uuid, name, cells);
  }

  /** The new key opens nothing in the manifest yet. */
  predicate Unused(dek': Dek, db: string, m: ManifestFile) {
    m.header.Some? ==>
      forall i :: 0 <= i < 2 ==> m.slots.At(i).Open(DbKey(dek', m.header.value), ManifestName(db), m.header.value, i).None?
  }

  /** Every slot, torn and unwritten ones included, reads under the new key as it did under the old. */
  lemma ManifestKeepsMeaning(dek: Dek, dek': Dek, db: string, m: ManifestFile)
    requires m.header.Some? && Unused(dek', db, m)
    ensures
      var out := ResealManifest(dek, dek', db, m);
      && out.Some? && out.value.header == m.header
      && (forall i :: 0 <= i < 2 ==>
            ReadSlot(dek', db, m.header.value, out.value.slots, i) == ReadSlot(dek, db, m.header.value, m.slots, i))
      && ReadManifest(dek', db, out.value) == ReadManifest(dek, db, m)
  {
    var u, out := m.header.value, ResealManifest(dek, dek', db, m).value;
    forall i | 0 <= i < 2 ensures ReadSlot(dek', db, u, out.slots, i) == ReadSlot(dek, db, u, m.slots, i) {
      assert m.slots.At(i).Open(DbKey(dek', u), ManifestName(db), u, i).None?;
      assert out.slots.At(i) == ResealSlot(dek, dek', db, u, i, m.slots.At(i));
    }
  }

  /** A journal sealed under the old key is dead under the new one: rotation does not re-key it. */
  lemma JournalIsDead(db: Commit.Db, dek': Dek, uuid: Uuid, journal: Option<seq<Cell<Page>>>)
    requires dek' != db.dek && Commit.Hot(db, uuid, journal)
    ensures !Commit.Hot(db.(dek := dek'), uuid, journal)
  {
  }

  /** A re-keyed database opens to the same verdict and certifies the same image exactly as far as its
      journal is not needed: when the journal is dead the checks agree. */
  lemma VerdictCarriesOver(db: Commit.Db, dek': Dek, disk: Commit.Disk, disk': Commit.Disk, p: Payload)
    requires dek' != db.dek && !Commit.Hot(db, p.uuid, disk.journal)
    requires !Commit.Hot(db.(dek := dek'), p.uuid, disk'.journal)
    requires ResealMain(db.dek, dek', db.name, p.uuid, disk.main) == Some(disk'.main)
    ensures Commit.Check(db.(dek := dek'), disk', p) == Commit.Check(db, disk, p)
  {
    ImageCarriesOver(db.dek, dek', db.name, p.uuid, disk.main);
    MainKeepsMeaning(db.dek, dek', db.name, p.uuid, disk.main);
    hide Commit.GoodHeader, Commit.Decrypt, Commit.Accepted, Commit.Listed;
    if disk.main != [] {
      assert Commit.Block(db.(dek := dek'), p.uuid, db.name, disk'.main, 0) == Commit.Block(db, p.uuid, db.name, disk.main, 0);
    }
  }
}
