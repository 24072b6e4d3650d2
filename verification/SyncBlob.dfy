/** The sealed unit of sync: database id, version vector and image (sync.rs). */
module SyncBlob {
  import opened Bytes
  import VV = VersionVector

  datatype Blob = Blob(dbUuid: seq<byte>, vv: VV.Vec, image: seq<byte>)

  /** What the encoder's length fields can hold. */
  predicate Encodable(b: Blob) {
    |b.dbUuid| == 16 && VV.Canonical(b.vv) && |b.vv| <= U32_MAX && |b.image| <= U32_MAX
  }

  function EncodeInner(b: Blob): seq<byte> {
    b.dbUuid + VV.Encode(b.vv) + LE(|b.image|, 4) + b.image
  }

  /** `SyncBlob::open` after the AEAD: `None` on anything short, non-canonical or too long. */
  function OpenInner(inner: seq<byte>): Option<Blob> {
    if |inner| < 16 then None
    else
      match VV.Decode(inner, 16)
      case None => None
      case Some((vv, at)) =>
        if at + 4 > |inner| then None
        else if at + 4 + FromLE(inner[at..at + 4]) != |inner| then None
        else Some(Blob(inner[..16], vv, inner[at + 4..]))
  }

  lemma OpenOfEncode(b: Blob)
    requires Encodable(b)
    ensures OpenInner(EncodeInner(b)) == Some(b)
  {
    var inner, rest := EncodeInner(b), LE(|b.image|, 4) + b.image;
    assert inner == b.dbUuid + VV.Encode(b.vv) + rest;
    VV.DecodeOfEncode(b.dbUuid, b.vv, rest);
    var at := 16 + |VV.Encode(b.vv)|;
    assert inner[..16] == b.dbUuid && inner[at..at + 4] == LE(|b.image|, 4) && inner[at + 4..] == b.image;
    Widths();
    LERoundTrip(|b.image|, 4);
  }

  /** A blob opens exactly when it is the encoding of some encodable value, and then to that value. */
  lemma OpensExactlyEncodings(inner: seq<byte>)
    ensures OpenInner(inner).Some? ==> Encodable(OpenInner(inner).value) && EncodeInner(OpenInner(inner).value) == inner
    ensures forall b :: Encodable(b) && EncodeInner(b) == inner ==> OpenInner(inner) == Some(b)
  {
    if OpenInner(inner).Some? {
      VV.EncodeOfDecode(inner, 16);
      var (vv, at) := VV.Decode(inner, 16).value;
      Widths();
      LECanonical(inner[at..at + 4]);
      assert inner == inner[..16] + inner[16..at] + inner[at..at + 4] + inner[at + 4..];
    }
    forall b | Encodable(b) && EncodeInner(b) == inner ensures OpenInner(inner) == Some(b) {
      OpenOfEncode(b);
    }
  }
}
