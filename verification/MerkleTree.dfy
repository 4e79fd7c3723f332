/** The Poseidon Merkle tree the whitelist is committed with: a class whose
    constructor pushes padded leaves and one level after another, and whose
    PathFor walks from a leaf to the root. */
module MerkleTree {
  import opened Powers
  import opened PrimeField
  import opened Poseidon
  import opened MerkleChecker
  import opened Options

  const EMPTY_LEAF := 0

  // ------------------------------------------------------- the tree as values

  function Pad(leaves: seq<int>, capacity: nat): (padded: seq<int>)
    requires |leaves| <= capacity
    ensures |padded| == capacity
  {
    leaves + seq(capacity - |leaves|, _ => EMPTY_LEAF)
  }

  /** One level up: hash neighbouring pairs. */
  function Parents(h: Hasher, nodes: seq<int>): (parents: seq<int>)
    ensures |parents| == |nodes| / 2
  {
    if |nodes| < 2 then []
    else [h.two(nodes[0], nodes[1])] + Parents(h, nodes[2..])
  }

  lemma {:induction false} ParentAt(h: Hasher, nodes: seq<int>, i: nat)
    requires 2 * i + 1 < |nodes|
    ensures Parents(h, nodes)[i] == h.two(nodes[2 * i], nodes[2 * i + 1])
  {
    if i == 0 {
    } else {
      ParentAt(h, nodes[2..], i - 1);
    }
  }

  lemma {:induction false} ParentsAppend(h: Hasher, nodes: seq<int>, a: int, b: int)
    requires |nodes| % 2 == 0
    ensures Parents(h, nodes + [a, b]) == Parents(h, nodes) + [h.two(a, b)]
  {
    if nodes == [] {
      assert nodes + [a, b] == [a, b];
    } else {
      ParentsAppend(h, nodes[2..], a, b);
      assert (nodes + [a, b])[2..] == nodes[2..] + [a, b];
    }
  }

  function Level(h: Hasher, leaves: seq<int>, n: nat): seq<int> {
    if n == 0 then leaves else Parents(h, Level(h, leaves, n - 1))
  }

  /** All levels up to n, as the constructor stores them. */
  function Levels(h: Hasher, leaves: seq<int>, n: nat): (levels: seq<seq<int>>)
    ensures |levels| == n + 1
    ensures levels[n] == Level(h, leaves, n)
  {
    if n == 0 then [leaves]
    else
      var below := Levels(h, leaves, n - 1);
      below + [Parents(h, below[n - 1])]
  }

  lemma {:induction false} LevelsAt(h: Hasher, leaves: seq<int>, depth: nat, n: nat)
    requires n <= depth
    ensures Levels(h, leaves, depth)[n] == Level(h, leaves, n)
  {
    if n == depth {
    } else {
      LevelsAt(h, leaves, depth - 1, n);
    }
  }

  /** A size after n halvings, rounding down. */
  function Halved(size: nat, n: nat): nat {
    if n == 0 then size else Halved(size, n - 1) / 2
  }

  /** Every level below the top pairs up without a node left over. */
  predicate PairsUp(size: nat, depth: nat) {
    depth == 0 || (PairsUp(size, depth - 1) && Halved(size, depth - 1) % 2 == 0)
  }

  /** A list the constructor can hash: short enough to be padded, or longer but
      without a node left over. */
  predicate Hashable(size: nat, depth: nat) {
    size <= Pow2(depth) || PairsUp(size, depth)
  }

  /** The leaves the constructor starts from: short lists are padded. */
  function Padded(leaves: seq<int>, depth: nat): (padded: seq<int>)
    ensures |leaves| <= Pow2(depth) ==> |padded| == Pow2(depth)
    ensures |padded| >= |leaves| && |padded| >= Pow2(depth)
  {
    if |leaves| <= Pow2(depth) then Pad(leaves, Pow2(depth)) else leaves
  }

  lemma {:induction false} PowerHalves(depth: nat, n: nat)
    requires n <= depth
    ensures Halved(Pow2(depth), n) == Pow2(depth - n) && PairsUp(Pow2(depth), n)
  {
    if n == 0 {
    } else {
      PowerHalves(depth, n - 1);
      assert Pow2(depth - (n - 1)) == 2 * Pow2(depth - n);
    }
  }

  lemma PaddedPairsUp(leaves: seq<int>, depth: nat)
    requires Hashable(|leaves|, depth)
    ensures PairsUp(|Padded(leaves, depth)|, depth)
  {
    PowerHalves(depth, depth);
  }

  lemma {:induction false} PairsUpBelow(size: nat, depth: nat, n: nat)
    requires PairsUp(size, depth) && n < depth
    ensures PairsUp(size, n) && Halved(size, n) % 2 == 0
  {
    if n == depth - 1 {
    } else {
      PairsUpBelow(size, depth - 1, n);
    }
  }

  lemma {:induction false} HalvedPositive(size: nat, depth: nat, n: nat)
    requires size >= Pow2(depth) && n <= depth
    ensures Halved(size, n) >= Pow2(depth - n)
  {
    if n == 0 {
    } else {
      HalvedPositive(size, depth, n - 1);
      assert Pow2(depth - (n - 1)) == 2 * Pow2(depth - n);
    }
  }

  lemma {:induction false} LevelHalves(h: Hasher, leaves: seq<int>, n: nat)
    ensures |Level(h, leaves, n)| == Halved(|leaves|, n)
  {
    if n == 0 {
    } else {
      LevelHalves(h, leaves, n - 1);
    }
  }

  lemma LevelSize(h: Hasher, leaves: seq<int>, depth: nat, n: nat)
    requires |leaves| == Pow2(depth) && n <= depth
    ensures |Level(h, leaves, n)| == Pow2(depth - n)
  {
    LevelHalves(h, leaves, n);
    PowerHalves(depth, n);
  }

  /** The node the constructor ends with: the first of the top level. */
  function Top(h: Hasher, leaves: seq<int>, depth: nat): int
    requires |leaves| >= Pow2(depth)
  {
    LevelHalves(h, leaves, depth);
    HalvedPositive(|leaves|, depth, depth);
    Level(h, leaves, depth)[0]
  }

  function Root(h: Hasher, leaves: seq<int>, depth: nat): int
    requires |leaves| == Pow2(depth)
  {
    Top(h, leaves, depth)
  }

  lemma PaddedTop(h: Hasher, leaves: seq<int>, depth: nat)
    requires |leaves| <= Pow2(depth)
    ensures Hashable(|leaves|, depth) && Padded(leaves, depth) == Pad(leaves, Pow2(depth))
    ensures Top(h, Padded(leaves, depth), depth) == Root(h, Pad(leaves, Pow2(depth)), depth)
  {
  }

  /** Where the path from leaf `index` stands at level n. */
  function IndexAt(index: nat, n: nat): nat {
    if n == 0 then index else IndexAt(index, n - 1) / 2
  }

  lemma {:induction false} IndexAtBound(index: nat, depth: nat, n: nat)
    requires index < Pow2(depth) && n <= depth
    ensures IndexAt(index, n) < Pow2(depth - n)
  {
    if n == 0 {
    } else {
      IndexAtBound(index, depth, n - 1);
    }
  }

  function Sibling(index: nat): nat {
    if index % 2 == 0 then index + 1 else index - 1
  }

  lemma {:induction false} IndexInLevel(h: Hasher, leaves: seq<int>, depth: nat, index: nat, n: nat)
    requires PairsUp(|leaves|, depth) && index < |leaves| && n <= depth
    ensures IndexAt(index, n) < |Level(h, leaves, n)|
    ensures n < depth ==> |Level(h, leaves, n)| % 2 == 0
  {
    LevelHalves(h, leaves, n);
    if n < depth {
      PairsUpBelow(|leaves|, depth, n);
    }
    if n == 0 {
    } else {
      IndexInLevel(h, leaves, depth, index, n - 1);
    }
  }

  lemma SiblingInRange(h: Hasher, leaves: seq<int>, depth: nat, index: nat, n: nat)
    requires PairsUp(|leaves|, depth) && index < |leaves| && n < depth
    ensures Sibling(IndexAt(index, n)) < |Level(h, leaves, n)|
    ensures IndexAt(index, n) < |Level(h, leaves, n)|
  {
    IndexInLevel(h, leaves, depth, index, n);
  }

  /** The siblings on the way up from leaf `index`, below level n. */
  function PathElements(h: Hasher, leaves: seq<int>, depth: nat, index: nat, n: nat): (elements: seq<int>)
    requires PairsUp(|leaves|, depth) && index < |leaves| && n <= depth
    ensures |elements| == n
  {
    if n == 0 then []
    else
      SiblingInRange(h, leaves, depth, index, n - 1);
      PathElements(h, leaves, depth, index, n - 1) + [Level(h, leaves, n - 1)[Sibling(IndexAt(index, n - 1))]]
  }

  lemma {:induction false} PathElementAt(h: Hasher, leaves: seq<int>, depth: nat, index: nat, n: nat, k: nat)
    requires PairsUp(|leaves|, depth) && index < |leaves| && k < n <= depth
    ensures Sibling(IndexAt(index, k)) < |Level(h, leaves, k)|
    ensures PathElements(h, leaves, depth, index, n)[k] == Level(h, leaves, k)[Sibling(IndexAt(index, k))]
  {
    SiblingInRange(h, leaves, depth, index, k);
    if k == n - 1 {
    } else {
      PathElementAt(h, leaves, depth, index, n - 1, k);
    }
  }

  /** The side the path arrives from at each level below n. */
  function PathBits(index: nat, n: nat): (bits: seq<int>)
    ensures |bits| == n
    ensures forall k :: 0 <= k < n ==> bits[k] == IndexAt(index, k) % 2
  {
    if n == 0 then [] else PathBits(index, n - 1) + [IndexAt(index, n - 1) % 2]
  }

  /** The leaf index that path bits spell, read from level n upwards. */
  function Spelled(bits: seq<int>, n: nat): int
    requires n <= |bits|
    decreases |bits| - n
  {
    if n == |bits| then 0 else bits[n] + 2 * Spelled(bits, n + 1)
  }

  lemma {:induction false} SpelledBound(bits: seq<int>, n: nat)
    requires Bits(bits) && n <= |bits|
    ensures 0 <= Spelled(bits, n) < Pow2(|bits| - n)
    decreases |bits| - n
  {
    if n == |bits| {
    } else {
      SpelledBound(bits, n + 1);
      assert bits[n] == 0 || bits[n] == 1;
    }
  }

  lemma {:induction false} PathBitsSpell(depth: nat, index: nat, n: nat)
    requires index < Pow2(depth) && n <= depth
    ensures Spelled(PathBits(index, depth), n) == IndexAt(index, n)
    decreases depth - n
  {
    if n == depth {
      IndexAtBound(index, depth, depth);
    } else {
      PathBitsSpell(depth, index, n + 1);
      assert IndexAt(index, n + 1) == IndexAt(index, n) / 2;
    }
  }

  // ----------------------------------------------------------- completeness

  /** One level up: the node and its sibling hash to the parent. */
  lemma FoldUp(h: Hasher, nodes: seq<int>, i: nat)
    requires i < |nodes| && |nodes| % 2 == 0
    ensures i / 2 < |Parents(h, nodes)| && Sibling(i) < |nodes|
    ensures HashPair(h, Ordered(nodes[i], nodes[Sibling(i)], i % 2)) == Parents(h, nodes)[i / 2]
  {
    ParentAt(h, nodes, i / 2);
    assert i == 2 * (i / 2) + i % 2;
  }

  /** The path built for any leaf leads up through the tree's own nodes. */
  lemma {:induction false} PathFoldsTo(h: Hasher, leaves: seq<int>, depth: nat, index: nat, n: nat)
    requires PairsUp(|leaves|, depth) && index < |leaves| && n <= depth
    ensures IndexAt(index, n) < |Level(h, leaves, n)|
    ensures Fold(h, leaves[index], PathElements(h, leaves, depth, index, depth), PathBits(index, depth), n)
         == Level(h, leaves, n)[IndexAt(index, n)]
  {
    IndexInLevel(h, leaves, depth, index, n);
    if n == 0 {
    } else {
      PathFoldsTo(h, leaves, depth, index, n - 1);
      IndexInLevel(h, leaves, depth, index, n - 1);
      PathElementAt(h, leaves, depth, index, depth, n - 1);
      FoldUp(h, Level(h, leaves, n - 1), IndexAt(index, n - 1));
    }
  }

  /** The path built for any leaf, padding included, folds to the root. */
  lemma MerkleComplete(h: Hasher, leaves: seq<int>, depth: nat, index: nat)
    requires |leaves| == Pow2(depth) && index < Pow2(depth)
    ensures PairsUp(|leaves|, depth)
    ensures Fold(h, leaves[index], PathElements(h, leaves, depth, index, depth), PathBits(index, depth), depth)
         == Root(h, leaves, depth)
    ensures Spelled(PathBits(index, depth), 0) == index
  {
    PowerHalves(depth, depth);
    PathFoldsTo(h, leaves, depth, index, depth);
    IndexAtBound(index, depth, depth);
    PathBitsSpell(depth, index, 0);
  }

  // -------------------------------------------------------------- soundness

  function LevelPairs(nodes: seq<int>): set<Pair> {
    if |nodes| < 2 then {} else {(nodes[0], nodes[1])} + LevelPairs(nodes[2..])
  }

  /** The pairs hashed while building the first n levels. */
  function TreePairs(h: Hasher, leaves: seq<int>, n: nat): set<Pair> {
    if n == 0 then {} else TreePairs(h, leaves, n - 1) + LevelPairs(Level(h, leaves, n - 1))
  }

  /** The pairs hashed while folding n levels of a path. */
  function FoldPairs(h: Hasher, leaf: int, elements: seq<int>, bits: seq<int>, n: nat): set<Pair>
    requires n <= |elements| && n <= |bits|
  {
    if n == 0 then {}
    else
      var hashed := Ordered(Fold(h, leaf, elements, bits, n - 1), elements[n - 1], bits[n - 1]);
      FoldPairs(h, leaf, elements, bits, n - 1) + {hashed}
  }

  lemma {:induction false} LevelPairKnown(nodes: seq<int>, i: nat)
    requires 2 * i + 1 < |nodes|
    ensures (nodes[2 * i], nodes[2 * i + 1]) in LevelPairs(nodes)
  {
    if i == 0 {
    } else {
      LevelPairKnown(nodes[2..], i - 1);
    }
  }

  lemma {:induction false} TreePairKnown(h: Hasher, leaves: seq<int>, depth: nat, n: nat, i: nat)
    requires n < depth && 2 * i + 1 < |Level(h, leaves, n)|
    ensures (Level(h, leaves, n)[2 * i], Level(h, leaves, n)[2 * i + 1]) in TreePairs(h, leaves, depth)
  {
    if n == depth - 1 {
      LevelPairKnown(Level(h, leaves, n), i);
    } else {
      TreePairKnown(h, leaves, depth - 1, n, i);
    }
  }

  lemma {:induction false} FoldPairKnown(h: Hasher, leaf: int, elements: seq<int>, bits: seq<int>, depth: nat, n: nat)
    requires n < depth <= |elements| && depth <= |bits|
    ensures Ordered(Fold(h, leaf, elements, bits, n), elements[n], bits[n])
              in FoldPairs(h, leaf, elements, bits, depth)
  {
    if n == depth - 1 {
    } else {
      FoldPairKnown(h, leaf, elements, bits, depth - 1, n);
    }
  }

  lemma StepDown(h: Hasher, known: set<Pair>, node: int, element: int, bit: int, left: int, right: int)
    requires NoPairCollision(h, known) && (bit == 0 || bit == 1)
    requires Ordered(node, element, bit) in known && (left, right) in known
    requires HashPair(h, Ordered(node, element, bit)) == HashPair(h, (left, right))
    ensures node == if bit == 0 then left else right
  {
    assert Ordered(node, element, bit) == (left, right);
  }

  lemma FoldStepsDown(h: Hasher, leaves: seq<int>, leaf: int, elements: seq<int>,
                      bits: seq<int>, known: set<Pair>, n: nat, up: nat)
    requires |elements| == |bits| && n < |bits| && Bits(bits)
    requires TreePairs(h, leaves, |bits|) <= known && FoldPairs(h, leaf, elements, bits, |bits|) <= known
    requires NoPairCollision(h, known)
    requires 2 * up + 1 < |Level(h, leaves, n)|
    requires Fold(h, leaf, elements, bits, n + 1) == Parents(h, Level(h, leaves, n))[up]
    ensures Fold(h, leaf, elements, bits, n) == Level(h, leaves, n)[bits[n] + 2 * up]
  {
    var nodes := Level(h, leaves, n);
    ParentAt(h, nodes, up);
    TreePairKnown(h, leaves, |bits|, n, up);
    FoldPairKnown(h, leaf, elements, bits, |bits|, n);
    StepDown(h, known, Fold(h, leaf, elements, bits, n), elements[n], bits[n], nodes[2 * up], nodes[2 * up + 1]);
  }

  /** Where nothing collides, the fold runs through the tree's own nodes. */
  lemma {:induction false} FoldFollowsTree(h: Hasher, leaves: seq<int>, leaf: int, elements: seq<int>,
                                           bits: seq<int>, known: set<Pair>, n: nat)
    requires |elements| == |bits| && |leaves| == Pow2(|bits|) && n <= |bits| && Bits(bits)
    requires Fold(h, leaf, elements, bits, |bits|) == Root(h, leaves, |bits|)
    requires TreePairs(h, leaves, |bits|) <= known && FoldPairs(h, leaf, elements, bits, |bits|) <= known
    requires NoPairCollision(h, known)
    ensures 0 <= Spelled(bits, n) < |Level(h, leaves, n)|
    ensures Fold(h, leaf, elements, bits, n) == Level(h, leaves, n)[Spelled(bits, n)]
    decreases |bits| - n
  {
    LevelSize(h, leaves, |bits|, n);
    SpelledBound(bits, n);
    if n == |bits| {
    } else {
      FoldFollowsTree(h, leaves, leaf, elements, bits, known, n + 1);
      var up := Spelled(bits, n + 1);
      FoldStepsDown(h, leaves, leaf, elements, bits, known, n, up);
    }
  }

  /** A path that folds to the root proves the leaf at the index its bits spell,
      and no other, unless two of the inputs actually hashed collide. */
  lemma MerkleSound(h: Hasher, leaves: seq<int>, leaf: int, elements: seq<int>, bits: seq<int>,
                    known: set<Pair>)
    requires |elements| == |bits| && |leaves| == Pow2(|bits|) && Bits(bits)
    requires Fold(h, leaf, elements, bits, |bits|) == Root(h, leaves, |bits|)
    requires TreePairs(h, leaves, |bits|) <= known && FoldPairs(h, leaf, elements, bits, |bits|) <= known
    requires NoPairCollision(h, known)
    ensures 0 <= Spelled(bits, 0) < |leaves| && leaves[Spelled(bits, 0)] == leaf
  {
    FoldFollowsTree(h, leaves, leaf, elements, bits, known, 0);
  }

  lemma ParentsBind(h: Hasher, nodes: seq<int>, nodes': seq<int>, known: set<Pair>)
    requires |nodes| == |nodes'| && |nodes| % 2 == 0
    requires LevelPairs(nodes) <= known && LevelPairs(nodes') <= known && NoPairCollision(h, known)
    requires Parents(h, nodes) == Parents(h, nodes')
    ensures nodes == nodes'
  {
    forall k | 0 <= k < |nodes| ensures nodes[k] == nodes'[k] {
      var up := k / 2;
      ParentAt(h, nodes, up);
      ParentAt(h, nodes', up);
      LevelPairKnown(nodes, up);
      LevelPairKnown(nodes', up);
      var pair, pair' := (nodes[2 * up], nodes[2 * up + 1]), (nodes'[2 * up], nodes'[2 * up + 1]);
      assert HashPair(h, pair) == HashPair(h, pair');
      assert k == 2 * up || k == 2 * up + 1;
    }
  }

  lemma {:induction false} LevelInTree(h: Hasher, leaves: seq<int>, depth: nat, n: nat)
    requires n < depth
    ensures LevelPairs(Level(h, leaves, n)) <= TreePairs(h, leaves, depth)
  {
    if n == depth - 1 {
    } else {
      LevelInTree(h, leaves, depth - 1, n);
    }
  }

  lemma OneLevelDown(h: Hasher, leaves: seq<int>, leaves': seq<int>, depth: nat, known: set<Pair>, n: nat)
    requires |leaves| == |leaves'| == Pow2(depth) && n < depth
    requires TreePairs(h, leaves, depth) <= known && TreePairs(h, leaves', depth) <= known
    requires NoPairCollision(h, known)
    requires Level(h, leaves, n + 1) == Level(h, leaves', n + 1)
    ensures Level(h, leaves, n) == Level(h, leaves', n)
  {
    LevelSize(h, leaves, depth, n);
    LevelSize(h, leaves', depth, n);
    LevelInTree(h, leaves, depth, n);
    LevelInTree(h, leaves', depth, n);
    assert Pow2(depth - n) == 2 * Pow2(depth - n - 1);
    ParentsBind(h, Level(h, leaves, n), Level(h, leaves', n), known);
  }

  lemma TopsBind(h: Hasher, leaves: seq<int>, leaves': seq<int>, depth: nat)
    requires |leaves| == |leaves'| == Pow2(depth) && Root(h, leaves, depth) == Root(h, leaves', depth)
    ensures Level(h, leaves, depth) == Level(h, leaves', depth)
  {
    LevelSize(h, leaves, depth, depth);
    LevelSize(h, leaves', depth, depth);
  }

  lemma {:induction false} LevelsBind(h: Hasher, leaves: seq<int>, leaves': seq<int>, depth: nat,
                                      known: set<Pair>, n: nat)
    requires |leaves| == |leaves'| == Pow2(depth) && n <= depth
    requires Root(h, leaves, depth) == Root(h, leaves', depth)
    requires TreePairs(h, leaves, depth) <= known && TreePairs(h, leaves', depth) <= known
    requires NoPairCollision(h, known)
    ensures Level(h, leaves, n) == Level(h, leaves', n)
    decreases depth - n
  {
    if n == depth {
      TopsBind(h, leaves, leaves', depth);
    } else {
      LevelsBind(h, leaves, leaves', depth, known, n + 1);
      OneLevelDown(h, leaves, leaves', depth, known, n);
    }
  }

  /** The root binds every leaf, unless two of the inputs hashed while building
      the trees collide. */
  lemma RootBindsLeaves(h: Hasher, leaves: seq<int>, leaves': seq<int>, depth: nat, known: set<Pair>)
    requires |leaves| == |leaves'| == Pow2(depth)
    requires TreePairs(h, leaves, depth) <= known && TreePairs(h, leaves', depth) <= known
    requires NoPairCollision(h, known)
    ensures Root(h, leaves, depth) == Root(h, leaves', depth) <==> leaves == leaves'
  {
    if Root(h, leaves, depth) == Root(h, leaves', depth) {
      LevelsBind(h, leaves, leaves', depth, known, 0);
    }
  }

  lemma {:induction false} LevelFelts(p: int, h: Hasher, leaves: seq<int>, n: nat)
    requires IntoField(p, h) && Felts(p, leaves)
    ensures Felts(p, Level(h, leaves, n))
  {
    if n == 0 {
    } else {
      var nodes := Level(h, leaves, n - 1);
      forall i | 0 <= i < |Parents(h, nodes)| ensures Felt(p, Parents(h, nodes)[i]) {
        ParentAt(h, nodes, i);
        var left, right := nodes[2 * i], nodes[2 * i + 1];
        assert Felt(p, h.two(left, right));
      }
    }
  }

  lemma RootFelt(p: int, h: Hasher, leaves: seq<int>, depth: nat)
    requires IntoField(p, h) && |leaves| == Pow2(depth) && depth > 0
    ensures Felt(p, Root(h, leaves, depth))
  {
    LevelSize(h, leaves, depth, depth);
    LevelSize(h, leaves, depth, depth - 1);
    var nodes := Level(h, leaves, depth - 1);
    ParentAt(h, nodes, 0);
    var left, right := nodes[0], nodes[1];
    assert Felt(p, h.two(left, right));
  }

  lemma PathElementsFelts(p: int, h: Hasher, leaves: seq<int>, depth: nat, index: nat)
    requires IntoField(p, h) && Felts(p, leaves)
    requires PairsUp(|leaves|, depth) && index < |leaves|
    ensures Felts(p, PathElements(h, leaves, depth, index, depth))
  {
    forall n | 0 <= n < depth ensures Felt(p, PathElements(h, leaves, depth, index, depth)[n]) {
      PathElementAt(h, leaves, depth, index, depth, n);
      LevelFelts(p, h, leaves, n);
    }
  }

  // ------------------------------------------------------------ the class

  /** The inner loop of the constructor: hash neighbours two by two. */
  method HashPairs(hash: Hasher, previousLevel: seq<int>) returns (nextLevel: seq<int>)
    requires |previousLevel| % 2 == 0
    ensures nextLevel == Parents(hash, previousLevel)
  {
    nextLevel := [];
    var pairIndex := 0;
    while pairIndex < |previousLevel|
      invariant 0 <= pairIndex <= |previousLevel| && pairIndex % 2 == 0
      invariant nextLevel == Parents(hash, previousLevel[..pairIndex])
    {
      var left, right := previousLevel[pairIndex], previousLevel[pairIndex + 1];
      assert previousLevel[..pairIndex + 2] == previousLevel[..pairIndex] + [left, right];
      ParentsAppend(hash, previousLevel[..pairIndex], left, right);
      nextLevel := nextLevel + [hash.two(left, right)];
      pairIndex := pairIndex + 2;
    }
    assert previousLevel[..pairIndex] == previousLevel;
  }

  datatype Path = Path(elements: seq<int>, indexBits: seq<int>)

  class PoseidonMerkleTree {
    const hash: Hasher
    const depth: nat
    ghost const leaves: seq<int>
    var levels: seq<seq<int>>

    ghost predicate Valid()
      reads this
    {
      |leaves| >= Pow2(depth) && PairsUp(|leaves|, depth) && levels == Levels(hash, leaves, depth)
    }

    /** The hash function fails on an absent node, so the leaves must pair up. */
    constructor (hash: Hasher, depth: nat, leaves: seq<int>)
      requires Hashable(|leaves|, depth)
      ensures Valid() && this.hash == hash && this.depth == depth
      ensures this.leaves == Padded(leaves, depth)
    {
      var capacity := Pow2(depth);
      var paddedLeaves := leaves;
      while |paddedLeaves| < capacity
        invariant if |leaves| <= capacity then |leaves| <= |paddedLeaves| <= capacity else paddedLeaves == leaves
        invariant |leaves| <= capacity ==> paddedLeaves == Pad(leaves, |paddedLeaves|)
      {
        paddedLeaves := paddedLeaves + [EMPTY_LEAF];
      }
      assert paddedLeaves == Padded(leaves, depth);
      PaddedPairsUp(leaves, depth);
      this.hash := hash;
      this.depth := depth;
      this.leaves := paddedLeaves;
      levels := [paddedLeaves];
      new;
      for levelIndex := 0 to depth
        invariant levels == Levels(hash, paddedLeaves, levelIndex)
      {
        LevelHalves(hash, paddedLeaves, levelIndex);
        PairsUpBelow(|paddedLeaves|, depth, levelIndex);
        var nextLevel := HashPairs(hash, levels[levelIndex]);
        levels := levels + [nextLevel];
      }
    }

    /** The capacity check of the command-line tree, then the constructor. */
    static method Create(hash: Hasher, depth: nat, leaves: seq<int>)
      returns (tree: Option<PoseidonMerkleTree>)
      ensures tree.Some? <==> |leaves| <= Pow2(depth)
      ensures tree.Some? ==> fresh(tree.value) && tree.value.Valid() && tree.value.hash == hash
      ensures tree.Some? ==> tree.value.depth == depth && tree.value.leaves == Pad(leaves, Pow2(depth))
    {
      var capacity := Pow2(depth);
      if |leaves| > capacity {
        return None;
      }
      var built := new PoseidonMerkleTree(hash, depth, leaves);
      tree := Some(built);
    }

    method GetRoot() returns (root: int)
      requires Valid()
      ensures root == Top(hash, leaves, depth)
      ensures |leaves| == Pow2(depth) ==> root == Root(hash, leaves, depth)
    {
      LevelHalves(hash, leaves, depth);
      HalvedPositive(|leaves|, depth, depth);
      root := levels[depth][0];
    }

    method PathFor(leafIndex: int) returns (path: Option<Path>)
      requires Valid()
      ensures path.None? <==> !(0 <= leafIndex < |leaves|)
      ensures path.Some? ==>
        && path.value.elements == PathElements(hash, leaves, depth, leafIndex, depth)
        && path.value.indexBits == PathBits(leafIndex, depth)
        && IndexAt(leafIndex, depth) < |Level(hash, leaves, depth)|
        && Fold(hash, leaves[leafIndex], path.value.elements, path.value.indexBits, depth)
             == Level(hash, leaves, depth)[IndexAt(leafIndex, depth)]
    {
      LevelsAt(hash, leaves, depth, 0);
      if leafIndex < 0 || leafIndex >= |levels[0]| {
        return None;
      }
      var elements, indexBits := Climb(leafIndex);
      PathFoldsTo(hash, leaves, depth, leafIndex, depth);
      path := Some(Path(elements, indexBits));
    }

    /** The loop of pathFor. */
    method Climb(leafIndex: nat) returns (elements: seq<int>, indexBits: seq<int>)
      requires Valid() && leafIndex < |leaves|
      ensures elements == PathElements(hash, leaves, depth, leafIndex, depth)
      ensures indexBits == PathBits(leafIndex, depth)
    {
      elements, indexBits := [], [];
      var runningIndex: nat := leafIndex;
      for levelIndex := 0 to depth
        invariant runningIndex == IndexAt(leafIndex, levelIndex)
        invariant elements == PathElements(hash, leaves, depth, leafIndex, levelIndex)
        invariant indexBits == PathBits(leafIndex, levelIndex)
      {
        SiblingInRange(hash, leaves, depth, leafIndex, levelIndex);
        LevelsAt(hash, leaves, depth, levelIndex);
        var siblingIndex := if runningIndex % 2 == 0 then runningIndex + 1 else runningIndex - 1;
        elements := elements + [levels[levelIndex][siblingIndex]];
        indexBits := indexBits + [runningIndex % 2];
        runningIndex := runningIndex / 2;
      }
    }
  }
}
