/** The trusted crypto core as ideal interfaces (crypto.rs).

    A sealed block is a symbolic value that remembers the key and the associated data it was sealed
    with, so opening it succeeds exactly for that key and that associated data. A block that was
    torn, never written or forged is `Torn` and opens under nothing. Subkeys are free constructors,
    which makes HKDF injective and its domains disjoint. The full-state root is the list of hashed
    leaves, which makes SHA-256 injective and never all-zero. */
module Crypto {
  import opened Bytes

  const BLOCK_SIZE: nat := 4096
  const NONCE_LEN: nat := 24
  const TAG_LEN: nat := 16
  const PHYS_BLOCK: nat := BLOCK_SIZE + NONCE_LEN + TAG_LEN

  type Dek = nat
  type Uuid = nat

  /** The domain of files that no database owns. */
  const NO_DOMAIN: Uuid := 0

  /** A plaintext block, which is also an SQLite page. */
  type Page = p: seq<byte> | |p| == BLOCK_SIZE witness seq(BLOCK_SIZE, _ => 0 as byte)

  function ZeroPage(): Page {
    seq(BLOCK_SIZE, _ => 0 as byte)
  }

  datatype Key = PoolKey(dek: Dek) | DbKey(dek: Dek, uuid: Uuid) | AnchorKey(dek: Dek)
    | EpochKey(dek: Dek) | RotateIntentKey(dek: Dek)

  /** One physical block. `file` stands for `file_id_for(name)`, the truncated hash of the name. */
  datatype Cell<+T> = Torn
    | Sealed(key: Key, file: string, domain: Uuid, index: nat, plain: T)
  {
    /** `open_into`. */
    function Open(k: Key, f: string, d: Uuid, i: nat): (r: Option<T>)
      ensures r.Some? <==> Sealed? && key == k && file == f && domain == d && index == i
      ensures r.Some? ==> r.value == plain
    {
      if Sealed? && key == k && file == f && domain == d && index == i then Some(plain) else None
    }
  }

  /** A double-buffered file: two blocks, each sealed under its own index. */
  datatype Slots<+T> = Slots(slot0: Cell<T>, slot1: Cell<T>) {
    function At(i: nat): Cell<T> {
      if i == 0 then slot0 else slot1
    }
  }

  function With<T>(s: Slots<T>, i: nat, c: Cell<T>): Slots<T> {
    if i == 0 then s.(slot0 := c) else s.(slot1 := c)
  }

  /** A full-state root: the sentinel, or the hash of an image. */
  datatype Root = ZeroRoot | RootOf(leaves: seq<(nat, Page)>, count: nat)

  /** The leaves of an image in index order. */
  function Leaves(image: seq<Page>): (l: seq<(nat, Page)>)
    ensures |l| == |image|
  {
    seq(|image|, k requires 0 <= k < |image| => (k, image[k]))
  }

  function ImageRoot(image: seq<Page>): Root {
    RootOf(Leaves(image), |image|)
  }

  /** Equal roots mean equal images, and no image has the sentinel root. */
  lemma RootsAreInjective(a: seq<Page>, b: seq<Page>)
    ensures ImageRoot(a) == ImageRoot(b) <==> a == b
    ensures ImageRoot(a) != ZeroRoot
  {
    if ImageRoot(a) == ImageRoot(b) {
      forall k | 0 <= k < |a| ensures a[k] == b[k] {
        assert Leaves(a)[k] == (k, a[k]) && Leaves(b)[k] == (k, b[k]);
      }
    }
  }

  /** The running hasher. */
  class FullStateRoot {
    var absorbed: seq<(nat, Page)>
    var count: nat

    constructor ()
      ensures absorbed == [] && count == 0
    {
      absorbed, count := [], 0;
    }

    method UpdateBlock(blockIndex: nat, plaintext: Page)
      modifies this
      ensures absorbed == old(absorbed) + [(blockIndex, plaintext)] && count == old(count) + 1
    {
      absorbed, count := absorbed + [(blockIndex, plaintext)], count + 1;
    }

    method Finish() returns (root: Root)
      ensures root == RootOf(absorbed, count)
    {
      root := RootOf(absorbed, count);
    }
  }

  /** Feeding an image to the hasher block by block gives its root. */
  method HashImage(image: seq<Page>) returns (root: Root)
    ensures root == ImageRoot(image)
  {
    var h := new FullStateRoot();
    for k := 0 to |image|
      invariant fresh(h)
      invariant h.absorbed == Leaves(image)[..k] && h.count == k
    {
      h.UpdateBlock(k, image[k]);
    }
    root := h.Finish();
    assert Leaves(image)[..|image|] == Leaves(image);
  }
}
