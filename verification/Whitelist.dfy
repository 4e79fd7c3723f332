/** The whitelist root an auction is created with, and what it binds. */
module Whitelist {
  import opened Options
  import opened Powers
  import opened Poseidon
  import opened AddressLeaves
  import MerkleTree

  const MERKLE_DEPTH := 10
  const MAX_WHITELIST_MEMBERS := 1024

  /** StrKey decoding of an account id, None when it is malformed. */
  type Decoder = string -> Option<Key>

  datatype RootError = NoMembers | TooManyMembers | Malformed(member: string)

  /** The keys of the members, or the first member that does not decode. */
  function Keys(decode: Decoder, members: seq<string>): (r: Result<seq<Key>, string>)
    ensures r.Ok? ==> |r.value| == |members|
  {
    if members == [] then Ok([])
    else
      match Keys(decode, members[..|members| - 1])
      case Err(e) => Err(e)
      case Ok(keys) =>
        match decode(members[|members| - 1])
        case None => Err(members[|members| - 1])
        case Some(key) => Ok(keys + [key])
  }

  lemma CapacityIs()
    ensures Pow2(MERKLE_DEPTH) == MAX_WHITELIST_MEMBERS
  {
    assert Pow2(5) == 32;
    assert Pow2(10) == 2 * (2 * (2 * (2 * (2 * Pow2(5)))));
  }

  function RootOf(h: Hasher, keys: seq<Key>): int
    requires |keys| <= Pow2(MERKLE_DEPTH)
  {
    MerkleTree.Root(h, MerkleTree.Pad(KeyLeaves(h, keys), Pow2(MERKLE_DEPTH)), MERKLE_DEPTH)
  }

  /** computeWhitelistRoot. */
  method ComputeWhitelistRoot(h: Hasher, decode: Decoder, members: seq<string>)
    returns (r: Result<int, RootError>)
    ensures members == [] ==> r == Err(NoMembers)
    ensures |members| > Pow2(MERKLE_DEPTH) ==> r == Err(TooManyMembers)
    ensures 0 < |members| <= Pow2(MERKLE_DEPTH) ==>
      match Keys(decode, members)
      case Err(member) => r == Err(Malformed(member))
      case Ok(keys) => r == Ok(RootOf(h, keys))
  {
    CapacityIs();
    if |members| == 0 {
      return Err(NoMembers);
    }
    if |members| > MAX_WHITELIST_MEMBERS {
      return Err(TooManyMembers);
    }
    var leaves: seq<int> := [];
    ghost var keys: seq<Key> := [];
    for i := 0 to |members|
      invariant Keys(decode, members[..i]) == Ok(keys) && leaves == KeyLeaves(h, keys)
    {
      var decoded := decode(members[i]);
      assert members[..i + 1][..i] == members[..i];
      if decoded == None {
        FirstMalformed(decode, members, i + 1);
        return Err(Malformed(members[i]));
      }
      var leaf := ComputeAddressLeaf(h, decoded.value);
      leaves := leaves + [leaf];
      assert (keys + [decoded.value])[..|keys|] == keys;
      keys := keys + [decoded.value];
    }
    assert members[..|members|] == members;
    var tree := new MerkleTree.PoseidonMerkleTree(h, MERKLE_DEPTH, leaves);
    var root := tree.GetRoot();
    r := Ok(root);
  }

  lemma {:induction false} FirstMalformed(decode: Decoder, members: seq<string>, n: nat)
    requires n <= |members| && Keys(decode, members[..n]).Err?
    ensures Keys(decode, members) == Keys(decode, members[..n])
    decreases |members|
  {
    if n < |members| {
      assert members[..|members| - 1][..n] == members[..n];
      FirstMalformed(decode, members[..|members| - 1], n);
    } else {
      assert members[..n] == members;
    }
  }

  /** Root binding: two member lists have the same root exactly when they are
      the same keys in the same order, unless two of the inputs hashed while
      building the trees collide or a key hashes to the padding leaf. */
  lemma RootBindsMembers(h: Hasher, keys: seq<Key>, keys': seq<Key>, known: set<Pair>)
    requires |keys| <= Pow2(MERKLE_DEPTH) && |keys'| <= Pow2(MERKLE_DEPTH)
    requires NoPairCollision(h, known) && KeyPairs(keys) <= known && KeyPairs(keys') <= known
    requires MerkleTree.TreePairs(h, MerkleTree.Pad(KeyLeaves(h, keys), Pow2(MERKLE_DEPTH)), MERKLE_DEPTH) <= known
    requires MerkleTree.TreePairs(h, MerkleTree.Pad(KeyLeaves(h, keys'), Pow2(MERKLE_DEPTH)), MERKLE_DEPTH) <= known
    requires MerkleTree.EMPTY_LEAF !in KeyLeaves(h, keys) + KeyLeaves(h, keys')
    ensures RootOf(h, keys) == RootOf(h, keys') <==> keys == keys'
  {
    if RootOf(h, keys) == RootOf(h, keys') {
      MerkleTree.RootBindsLeaves(h, MerkleTree.Pad(KeyLeaves(h, keys), Pow2(MERKLE_DEPTH)),
                                 MerkleTree.Pad(KeyLeaves(h, keys'), Pow2(MERKLE_DEPTH)), MERKLE_DEPTH, known);
      PaddingBinds(KeyLeaves(h, keys), KeyLeaves(h, keys'), Pow2(MERKLE_DEPTH));
      LeavesBind(h, keys, keys', known);
    }
  }

  lemma PadAt(leaves: seq<int>, capacity: nat, k: nat)
    requires |leaves| <= capacity && k < capacity && MerkleTree.EMPTY_LEAF !in leaves
    ensures MerkleTree.Pad(leaves, capacity)[k] == MerkleTree.EMPTY_LEAF <==> k >= |leaves|
  {
    assert k < |leaves| ==> MerkleTree.Pad(leaves, capacity)[k] in leaves;
  }

  /** Padding loses nothing as long as no leaf looks like it. */
  lemma PaddingBinds(leaves: seq<int>, leaves': seq<int>, capacity: nat)
    requires |leaves| <= capacity && |leaves'| <= capacity
    requires MerkleTree.EMPTY_LEAF !in leaves && MerkleTree.EMPTY_LEAF !in leaves'
    requires MerkleTree.Pad(leaves, capacity) == MerkleTree.Pad(leaves', capacity)
    ensures leaves == leaves'
  {
    if |leaves| < capacity {
      PadAt(leaves, capacity, |leaves|);
      PadAt(leaves', capacity, |leaves|);
    }
    if |leaves'| < capacity {
      PadAt(leaves, capacity, |leaves'|);
      PadAt(leaves', capacity, |leaves'|);
    }
    assert MerkleTree.Pad(leaves, capacity)[..|leaves|] == leaves;
    assert MerkleTree.Pad(leaves', capacity)[..|leaves|] == leaves';
  }

  lemma LeavesBind(h: Hasher, keys: seq<Key>, keys': seq<Key>, known: set<Pair>)
    requires NoPairCollision(h, known) && KeyPairs(keys) <= known && KeyPairs(keys') <= known
    requires KeyLeaves(h, keys) == KeyLeaves(h, keys')
    ensures keys == keys'
  {
    assert |keys| == |KeyLeaves(h, keys)| == |keys'|;
    forall i | 0 <= i < |keys| ensures keys[i] == keys'[i] {
      assert KeyLeaf(h, keys[i]) == KeyLeaves(h, keys)[i] == KeyLeaf(h, keys'[i]);
      assert Halves(keys[i]) in KeyPairs(keys) && Halves(keys'[i]) in KeyPairs(keys');
      KeyLeafInjective(h, keys[i], keys'[i], known);
    }
  }
}
