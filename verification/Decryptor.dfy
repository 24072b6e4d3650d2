/** The standalone `.freehold` decryptor: a second reader of the bundle, the envelope and the block
    grid (freehold-decrypt/src/lib.rs). It shares nothing with the other modules but the ciphers. */
module Decryptor {
  import opened Bytes
  import Utf8
  import E = Envelope
  import B = Bundle

  const BUNDLE_MAGIC: seq<byte> := [0x46, 0x52, 0x45, 0x45, 0x48, 0x4f, 0x4c, 0x44]
  const BUNDLE_VERSION: byte := 1
  const ENV_MAGIC: seq<byte> := [0x46, 0x52, 0x45, 0x45, 0x48, 0x45, 0x4e, 0x56]
  const ENV_VERSION: byte := 3
  const ENV_HEADER_LEN := 36
  const ENV_SLOT_LEN := 74
  const ENV_MAC_LEN := 32
  const KIND_RECOVERY: byte := 1
  const BLOCK_SIZE := 4096
  const PHYS_BLOCK := 4136
  /** `#manifest`. */
  const MANIFEST_SUFFIX: seq<byte> := [0x23, 0x6d, 0x61, 0x6e, 0x69, 0x66, 0x65, 0x73, 0x74]
  /** `.db`. */
  const DB_SUFFIX: seq<byte> := [0x2e, 0x64, 0x62]

  datatype Error = BundleError | EnvelopeError | Unlock | Tamper | BlockError

  datatype Outcome<T> = Done(value: T) | Failed(error: Error)

  // ---------------------------------------------------------------- the bundle

  /** A length of `width` bytes and then that many: the payload and the new cursor. */
  function TakeField(b: seq<byte>, at: nat, width: nat): Option<(seq<byte>, nat)> {
    if at + width > |b| then None
    else
      var start := at + width;
      var n := FromLE(b[at..start]);
      if start + n > |b| then None else Some((b[start..start + n], start + n))
  }

  /** `parse_bundle`'s loop from a cursor on. */
  function ParseFrom(bytes: seq<byte>, at: nat, envelope: seq<byte>, files: seq<B.File>): Option<(seq<byte>, seq<B.File>)>
    decreases |bytes| - at
  {
    if at >= |bytes| then if envelope == [] then None else Some((envelope, files))
    else
      match bytes[at]
      case 1 => (
        match TakeField(bytes, at + 1, 4)
        case None => None
        case Some((e, next)) => ParseFrom(bytes, next, e, files))
      case 2 => (
        match TakeField(bytes, at + 1, 4)
        case None => None
        case Some((_, next)) => ParseFrom(bytes, next, envelope, files))
      case 3 => (
        match TakeField(bytes, at + 1, 2)
        case None => None
        case Some((name, mid)) =>
          if !Utf8.Valid(name) then None
          else
            match TakeField(bytes, mid, 4)
            case None => None
            case Some((data, next)) => ParseFrom(bytes, next, envelope, files + [B.File(name, data)]))
      case 4 => (
        match TakeField(bytes, at + 1, 4)
        case None => None
        case Some((_, next)) => ParseFrom(bytes, next, envelope, files))
      case _ => None
  }

  function Parsed(bytes: seq<byte>): Option<(seq<byte>, seq<B.File>)> {
    if |bytes| < 9 || bytes[..8] != BUNDLE_MAGIC || bytes[8] != BUNDLE_VERSION then None
    else ParseFrom(bytes, 9, [], [])
  }

  /** `parse_bundle`. */
  method ParseBundle(bytes: seq<byte>) returns (r: Option<(seq<byte>, seq<B.File>)>)
    ensures r == Parsed(bytes)
  {
    if |bytes| < 9 || bytes[..8] != BUNDLE_MAGIC || bytes[8] != BUNDLE_VERSION { return None; }
    var envelope: seq<byte>, files: seq<B.File>, at := [], [], 9;
    while at < |bytes|
      invariant ParseFrom(bytes, at, envelope, files) == Parsed(bytes)
      decreases |bytes| - at
    {
      var tag := bytes[at];
      if tag == 1 || tag == 2 || tag == 4 {
        var field := TakeField(bytes, at + 1, 4);
        if field.None? { return None; }
        if tag == 1 { envelope := field.value.0; }
        at := field.value.1;
      } else if tag == 3 {
        var name := TakeField(bytes, at + 1, 2);
        if name.None? || !Utf8.Valid(name.value.0) { return None; }
        var data := TakeField(bytes, name.value.1, 4);
        if data.None? { return None; }
        files, at := files + [B.File(name.value.0, data.value.0)], data.value.1;
      } else {
        return None;
      }
    }
    r := if envelope == [] then None else Some((envelope, files));
  }

  lemma FieldsAgree(b: seq<byte>, at: nat, width: nat)
    ensures TakeField(b, at, width) == B.TakeSized(b, at, width)
  {
  }

  lemma {:induction false} LoopsAgree(bytes: seq<byte>, at: nat, b: B.Bundle, have: bool)
    requires !have ==> b.envelope == []
    ensures ParseFrom(bytes, at, b.envelope, b.files) ==
      match B.DecodeFrom(bytes, at, b, have)
      case None => None
      case Some(r) => if r.envelope == [] then None else Some((r.envelope, r.files))
    decreases |bytes| - at
  {
    hide FromLE, Utf8.Valid;
    if at < |bytes| {
      FieldsAgree(bytes, at + 1, 4);
      FieldsAgree(bytes, at + 1, 2);
      var sized := TakeField(bytes, at + 1, 4);
      hide TakeField, B.TakeSized;
      match bytes[at]
      case 1 => if sized.Some? { LoopsAgree(bytes, sized.value.1, b.(envelope := sized.value.0), true); }
      case 2 => if sized.Some? { LoopsAgree(bytes, sized.value.1, b.(credId := sized.value.0), have); }
      case 3 =>
        var name := TakeField(bytes, at + 1, 2);
        if name.Some? {
          FieldsAgree(bytes, name.value.1, 4);
          var data := TakeField(bytes, name.value.1, 4);
          if data.Some? {
            LoopsAgree(bytes, data.value.1, b.(files := b.files + [B.File(name.value.0, data.value.0)]), have);
          }
        }
      case 4 => if sized.Some? { LoopsAgree(bytes, sized.value.1, b.(epoch := sized.value.0), have); }
      case _ =>
    }
  }

  /** The two readers accept the same byte strings and read the same envelope and files, except that
      this one also rejects an empty envelope. */
  lemma ReadersAgree(bytes: seq<byte>)
    ensures Parsed(bytes) ==
      match B.Decoded(bytes)
      case None => None
      case Some(b) => if b.envelope == [] then None else Some((b.envelope, b.files))
  {
    if |bytes| >= 9 { LoopsAgree(bytes, 9, B.EMPTY, false); }
  }

  // ---------------------------------------------------------------- the envelope

  predicate WellFramed(envelope: seq<byte>) {
    && |envelope| >= ENV_HEADER_LEN + ENV_MAC_LEN && envelope[..8] == ENV_MAGIC && envelope[8] == ENV_VERSION
    && |envelope| == ENV_HEADER_LEN + envelope[9] * ENV_SLOT_LEN + ENV_MAC_LEN
  }

  function SlotOf(envelope: seq<byte>, i: nat): (slot: seq<byte>)
    requires WellFramed(envelope) && i < envelope[9]
    ensures |slot| == ENV_SLOT_LEN
  {
    envelope[ENV_HEADER_LEN + i * ENV_SLOT_LEN..ENV_HEADER_LEN + i * ENV_SLOT_LEN + ENV_SLOT_LEN]
  }

  /** The first recovery slot from `i` on that opens. */
  function FirstRecovery(s: E.Suite, envelope: seq<byte>, kek: E.Kek, i: nat): Option<E.Bytes32>
    requires WellFramed(envelope) && i <= envelope[9]
    decreases envelope[9] - i
  {
    if i == envelope[9] then None
    else
      var slot := SlotOf(envelope, i);
      var dek := if slot[1] == KIND_RECOVERY then s.unwrap(kek, slot[2..26], slot[0], slot[1], slot[26..]) else None;
      if dek.Some? then dek else FirstRecovery(s, envelope, kek, i + 1)
  }

  /** `open_envelope` with a normalised code. */
  function Opened(s: E.Suite, envelope: seq<byte>, code: string): Outcome<E.Bytes32> {
    if !WellFramed(envelope) then Failed(EnvelopeError)
    else
      match FirstRecovery(s, envelope, E.FromCode(code, envelope[12..28]), 0)
      case None => Failed(Unlock)
      case Some(dek) =>
        var body := |envelope| - ENV_MAC_LEN;
        if envelope[body..] == s.mac(dek, envelope[..body]) then Done(dek) else Failed(Tamper)
  }

  /** Whatever the envelope, once a recovery slot gives a DEK its last 32 bytes decide: the MAC of all the
      others, or tampering. */
  lemma OpensIffTagged(s: E.Suite, envelope: seq<byte>, code: string, dek: E.Bytes32)
    requires WellFramed(envelope) && FirstRecovery(s, envelope, E.FromCode(code, envelope[12..28]), 0) == Some(dek)
    ensures |envelope| >= 32
    ensures Opened(s, envelope, code)
         == if envelope[|envelope| - 32..] == s.mac(dek, envelope[..|envelope| - 32]) then Done(dek) else Failed(Tamper)
  {
    hide FirstRecovery;
  }

  lemma NoneOpens(s: E.Suite, envelope: seq<byte>, code: string)
    requires WellFramed(envelope) && FirstRecovery(s, envelope, E.FromCode(code, envelope[12..28]), 0).None?
    ensures Opened(s, envelope, code) == Failed(Unlock)
  {
    hide FirstRecovery;
  }

  /** What opens is well framed and carries the MAC of its body under the DEK that comes out. */
  lemma OpenedIsTagged(s: E.Suite, envelope: seq<byte>, code: string)
    requires Opened(s, envelope, code).Done?
    ensures |envelope| >= 32 && envelope[|envelope| - 32..] == s.mac(Opened(s, envelope, code).value, envelope[..|envelope| - 32])
  {
    hide FirstRecovery;
  }

  /** Its slot loop. */
  method OpenEnvelope(s: E.Suite, envelope: seq<byte>, code: string) returns (r: Outcome<E.Bytes32>)
    ensures r == Opened(s, envelope, code)
  {
    if !WellFramed(envelope) { return Failed(EnvelopeError); }
    var kek := E.FromCode(code, envelope[12..28]);
    var body := |envelope| - ENV_MAC_LEN;
    for i := 0 to envelope[9]
      invariant FirstRecovery(s, envelope, kek, i) == FirstRecovery(s, envelope, kek, 0)
    {
      var slot := SlotOf(envelope, i);
      if slot[1] != KIND_RECOVERY { continue; }
      var dek := s.unwrap(kek, slot[2..26], slot[0], slot[1], slot[26..]);
      if dek.Some? {
        if envelope[body..] != s.mac(dek.value, envelope[..body]) { return Failed(Tamper); }
        return Done(dek.value);
      }
    }
    r := Failed(Unlock);
  }

  // ---------------------------------------------------------------- the block grid

  type Uuid16 = b: seq<byte> | |b| == 16 witness seq(16, _ => 0)

  /** The block cipher: a page under a DEK, a database uuid, a file name, a block index and a nonce. */
  datatype BlockSuite = BlockSuite(
    seal: (E.Bytes32, Uuid16, seq<byte>, nat, E.Nonce, seq<byte>) -> (seq<byte>, seq<byte>),
    unseal: (E.Bytes32, Uuid16, seq<byte>, nat, E.Nonce, seq<byte>, seq<byte>) -> Option<seq<byte>>)

  /** One physical block: ciphertext, nonce, tag. */
  function Unsealed(bs: BlockSuite, name: seq<byte>, phys: seq<byte>, dek: E.Bytes32, uuid: Uuid16, k: nat): Option<seq<byte>>
    requires |phys| == PHYS_BLOCK
  {
    bs.unseal(dek, uuid, name, k, phys[4096..4120], phys[..4096], phys[4120..])
  }

  /** The plaintext of the first `n` blocks, or nothing if one of them does not authenticate. */
  function Plaintext(bs: BlockSuite, name: seq<byte>, data: seq<byte>, dek: E.Bytes32, uuid: Uuid16, n: nat): Option<seq<byte>>
    requires n * PHYS_BLOCK <= |data|
  {
    if n == 0 then Some([])
    else
      var phys := data[(n - 1) * PHYS_BLOCK..n * PHYS_BLOCK];
      match Plaintext(bs, name, data, dek, uuid, n - 1)
      case None => None
      case Some(done) =>
        match Unsealed(bs, name, phys, dek, uuid, n - 1)
        case None => None
        case Some(p) => Some(done + p)
  }

  /** `decrypt_db_file`. */
  function Decrypted(bs: BlockSuite, name: seq<byte>, data: seq<byte>, dek: E.Bytes32, uuid: Uuid16): Outcome<seq<byte>> {
    if |data| % PHYS_BLOCK != 0 then Failed(BlockError)
    else
      match Plaintext(bs, name, data, dek, uuid, |data| / PHYS_BLOCK)
      case None => Failed(BlockError)
      case Some(p) => Done(p)
  }

  lemma {:induction false} PlaintextRefuses(bs: BlockSuite, name: seq<byte>, data: seq<byte>, dek: E.Bytes32, uuid: Uuid16, n: nat, m: nat)
    requires n <= m && m * PHYS_BLOCK <= |data| && Plaintext(bs, name, data, dek, uuid, n).None?
    ensures Plaintext(bs, name, data, dek, uuid, m).None?
    decreases m - n
  {
    if n < m { PlaintextRefuses(bs, name, data, dek, uuid, n, m - 1); }
  }

  /** Its block loop. */
  method DecryptDbFile(bs: BlockSuite, name: seq<byte>, data: seq<byte>, dek: E.Bytes32, uuid: Uuid16)
    returns (r: Outcome<seq<byte>>)
    ensures r == Decrypted(bs, name, data, dek, uuid)
  {
    if |data| % PHYS_BLOCK != 0 { return Failed(BlockError); }
    var blocks := |data| / PHYS_BLOCK;
    var out: seq<byte> := [];
    for k := 0 to blocks
      invariant Plaintext(bs, name, data, dek, uuid, k) == Some(out)
    {
      assert (k + 1) * PHYS_BLOCK <= |data|;
      var phys: seq<byte> := data[k * PHYS_BLOCK..(k + 1) * PHYS_BLOCK];
      var p := Unsealed(bs, name, phys, dek, uuid, k);
      if p.None? {
        PlaintextRefuses(bs, name, data, dek, uuid, k + 1, blocks);
        return Failed(BlockError);
      }
      out := out + p.value;
    }
    r := Done(out);
  }

  // ---------------------------------------------------------------- recovery

  datatype RecoveredDb = RecoveredDb(name: seq<byte>, sqlite: seq<byte>)

  predicate IsDb(name: seq<byte>) {
    |name| >= 3 && name[|name| - 3..] == DB_SUFFIX
  }

  /** The first file of that name. */
  function Find(files: seq<B.File>, name: seq<byte>): Option<seq<byte>> {
    if files == [] then None else if files[0].name == name then Some(files[0].data) else Find(files[1..], name)
  }

  function RecoverOne(bs: BlockSuite, files: seq<B.File>, f: B.File, dek: E.Bytes32): Outcome<RecoveredDb> {
    match Find(files, f.name + MANIFEST_SUFFIX)
    case None => Failed(EnvelopeError)
    case Some(manifest) =>
      if |manifest| < 24 then Failed(EnvelopeError)
      else
        match Decrypted(bs, f.name, f.data, dek, manifest[8..24])
        case Failed(e) => Failed(e)
        case Done(p) => Done(RecoveredDb(f.name, p))
  }

  /** The files of `rest` that are databases, each recovered. */
  function RecoverAll(bs: BlockSuite, files: seq<B.File>, rest: seq<B.File>, dek: E.Bytes32): Outcome<seq<RecoveredDb>>
    decreases |rest|
  {
    if rest == [] then Done([])
    else if !IsDb(rest[0].name) then RecoverAll(bs, files, rest[1..], dek)
    else
      match RecoverOne(bs, files, rest[0], dek)
      case Failed(e) => Failed(e)
      case Done(db) =>
        match RecoverAll(bs, files, rest[1..], dek)
        case Failed(e) => Failed(e)
        case Done(dbs) => Done([db] + dbs)
  }

  /** `recover`. */
  function Recovered(s: E.Suite, bs: BlockSuite, bytes: seq<byte>, code: string): Outcome<seq<RecoveredDb>> {
    match Parsed(bytes)
    case None => Failed(BundleError)
    case Some((envelope, files)) =>
      match Opened(s, envelope, code)
      case Failed(e) => Failed(e)
      case Done(dek) =>
        match RecoverAll(bs, files, files, dek)
        case Failed(e) => Failed(e)
        case Done(dbs) => if dbs == [] then Failed(BundleError) else Done(dbs)
  }

  /** A bundle without a database is an error, whatever else it holds and even with the right code. */
  lemma NothingToRecover(s: E.Suite, bs: BlockSuite, bytes: seq<byte>, code: string)
    requires Parsed(bytes).Some? && forall f <- Parsed(bytes).value.1 :: !IsDb(f.name)
    ensures Recovered(s, bs, bytes, code).Failed?
    ensures Opened(s, Parsed(bytes).value.0, code).Done? ==> Recovered(s, bs, bytes, code) == Failed(BundleError)
  {
    var (envelope, files) := Parsed(bytes).value;
    hide Parsed, Opened;
    if Opened(s, envelope, code).Done? { NoDatabases(bs, files, files, Opened(s, envelope, code).value); }
  }

  lemma {:induction false} NoDatabases(bs: BlockSuite, files: seq<B.File>, rest: seq<B.File>, dek: E.Bytes32)
    requires forall f <- rest :: !IsDb(f.name)
    ensures RecoverAll(bs, files, rest, dek) == Done([])
    decreases |rest|
  {
    if rest != [] {
      assert rest[0] in rest && forall f <- rest[1..] :: f in rest;
      NoDatabases(bs, files, rest[1..], dek);
    }
  }

  /** What is still to come, behind what was recovered so far. */
  ghost function After(dbs: seq<RecoveredDb>, rest: Outcome<seq<RecoveredDb>>): Outcome<seq<RecoveredDb>> {
    match rest case Failed(e) => Failed(e) case Done(more) => Done(dbs + more)
  }

  lemma AfterOne(dbs: seq<RecoveredDb>, db: RecoveredDb, rest: Outcome<seq<RecoveredDb>>)
    ensures After(dbs, After([db], rest)) == After(dbs + [db], rest)
  {
    if rest.Done? { assert dbs + ([db] + rest.value) == dbs + [db] + rest.value; }
  }

  method Recover(s: E.Suite, bs: BlockSuite, bytes: seq<byte>, code: string) returns (r: Outcome<seq<RecoveredDb>>)
    ensures r == Recovered(s, bs, bytes, code)
  {
    var bundle := ParseBundle(bytes);
    if bundle.None? { return Failed(BundleError); }
    var dek := OpenEnvelope(s, bundle.value.0, code);
    if dek.Failed? { return Failed(dek.error); }
    var files := bundle.value.1;
    var out: seq<RecoveredDb> := [];
    ghost var whole := RecoverAll(bs, files, files, dek.value);
    if whole.Done? { assert [] + whole.value == whole.value; }
    assert files[0..] == files;
    for i := 0 to |files|
      invariant whole == After(out, RecoverAll(bs, files, files[i..], dek.value))
    {
      hide Find, Decrypted;
      var f := files[i];
      assert files[i..][0] == f && files[i..][1..] == files[i + 1..];
      if !IsDb(f.name) { continue; }
      var manifest := FindFile(files, f.name + MANIFEST_SUFFIX);
      if manifest.None? || |manifest.value| < 24 { return Failed(EnvelopeError); }
      var sqlite := DecryptDbFile(bs, f.name, f.data, dek.value, manifest.value[8..24]);
      if sqlite.Failed? { return Failed(sqlite.error); }
      var db := RecoveredDb(f.name, sqlite.value);
      AfterOne(out, db, RecoverAll(bs, files, files[i + 1..], dek.value));
      out := out + [db];
    }
    assert files[|files|..] == [] && out + [] == out;
    r := if out == [] then Failed(BundleError) else Done(out);
  }

  method FindFile(files: seq<B.File>, name: seq<byte>) returns (r: Option<seq<byte>>)
    ensures r == Find(files, name)
  {
    assert files[0..] == files;
    for i := 0 to |files|
      invariant Find(files[i..], name) == Find(files, name)
    {
      assert files[i..][0] == files[i] && files[i..][1..] == files[i + 1..];
      if files[i].name == name { return Some(files[i].data); }
    }
    r := None;
  }
}
