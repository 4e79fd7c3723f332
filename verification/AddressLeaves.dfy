/** Whitelist leaves: the hash over the two 128-bit halves of a 32-byte key. */
module AddressLeaves {
  import opened Bytes
  import opened Poseidon

  type Key = k: seq<Byte> | |k| == 32
    witness seq(32, _ => 0)

  function Halves(key: Key): Pair {
    (BigEndian(key[..16]), BigEndian(key[16..]))
  }

  function KeyLeaf(h: Hasher, key: Key): int {
    HashPair(h, Halves(key))
  }

  /** The two halves of a key determine it. */
  lemma HalvesInjective(x: Key, y: Key)
    requires Halves(x) == Halves(y)
    ensures x == y
  {
    BigEndianInjective(x[..16], y[..16]);
    BigEndianInjective(x[16..], y[16..]);
    assert x == x[..16] + x[16..] && y == y[..16] + y[16..];
  }

  lemma KeyLeafInjective(h: Hasher, x: Key, y: Key, known: set<Pair>)
    requires NoPairCollision(h, known) && Halves(x) in known && Halves(y) in known
    ensures KeyLeaf(h, x) == KeyLeaf(h, y) <==> x == y
  {
    if KeyLeaf(h, x) == KeyLeaf(h, y) {
      HalvesInjective(x, y);
    }
  }

  /** computeAddressLeaf: both halves grow in one loop over sixteen bytes. */
  method ComputeAddressLeaf(h: Hasher, keyBytes: Key) returns (leaf: int)
    ensures leaf == KeyLeaf(h, keyBytes)
    ensures forall known, other: Key ::
      (NoPairCollision(h, known) && Halves(keyBytes) in known && Halves(other) in known
       && KeyLeaf(h, other) == leaf) ==> other == keyBytes
  {
    var highHalf: int, lowHalf: int := 0, 0;
    for byteIndex := 0 to 16
      invariant highHalf == BigEndian(keyBytes[..byteIndex])
      invariant lowHalf == BigEndian(keyBytes[16..16 + byteIndex])
    {
      assert keyBytes[..byteIndex + 1][..byteIndex] == keyBytes[..byteIndex];
      assert keyBytes[16..16 + byteIndex + 1][..byteIndex] == keyBytes[16..16 + byteIndex];
      highHalf := highHalf * 256 + keyBytes[byteIndex];
      lowHalf := lowHalf * 256 + keyBytes[byteIndex + 16];
    }
    assert keyBytes[16..] == keyBytes[16..16 + 16];
    leaf := h.two(highHalf, lowHalf);
    forall known, other: Key |
      NoPairCollision(h, known) && Halves(keyBytes) in known && Halves(other) in known
        && KeyLeaf(h, other) == leaf
      ensures other == keyBytes
    {
      KeyLeafInjective(h, other, keyBytes, known);
    }
  }

  function KeyLeaves(h: Hasher, keys: seq<Key>): (leaves: seq<int>)
    ensures |leaves| == |keys|
    ensures forall i :: 0 <= i < |keys| ==> leaves[i] == KeyLeaf(h, keys[i])
  {
    if keys == [] then []
    else KeyLeaves(h, keys[..|keys| - 1]) + [KeyLeaf(h, keys[|keys| - 1])]
  }

  ghost function KeyPairs(keys: seq<Key>): set<Pair> {
    set i | 0 <= i < |keys| :: Halves(keys[i])
  }
}
