/** The membership part of the circuit: fold a leaf up a path, choosing left
    and right with a linear selector over the field. */
module MerkleChecker {
  import opened PrimeField
  import opened Poseidon

  /** Signals that the template defines level by level. */
  datatype CheckerSignals = CheckerSignals(nodes: seq<int>, lefts: seq<int>, rights: seq<int>)

  ghost predicate LevelConstraints(p: int, h: Hasher, element: int, bit: int,
                                   s: CheckerSignals, level: nat)
    requires p > 0 && level + 1 < |s.nodes| && level < |s.lefts| && level < |s.rights|
  {
    var node, left, right := s.nodes[level], s.lefts[level], s.rights[level];
    && Eq(p, bit * (1 - bit), 0)
    && Eq(p, left, node + bit * (element - node))
    && Eq(p, right, element + bit * (node - element))
    && s.nodes[level + 1] == h.two(left, right)
  }

  ghost predicate Checks(p: int, h: Hasher, depth: nat, leaf: int, root: int,
                         elements: seq<int>, bits: seq<int>, s: CheckerSignals)
    requires p > 0
  {
    && |elements| == |bits| == |s.lefts| == |s.rights| == depth && |s.nodes| == depth + 1
    && Felts(p, elements) && Felts(p, bits)
    && Felts(p, s.nodes) && Felts(p, s.lefts) && Felts(p, s.rights)
    && Eq(p, s.nodes[0], leaf)
    && (forall level :: 0 <= level < depth ==>
          LevelConstraints(p, h, elements[level], bits[level], s, level))
    && Eq(p, root, s.nodes[depth])
  }

  /** What is hashed at a level: the node goes on the side the bit names. */
  function Ordered(node: int, element: int, bit: int): Pair {
    if bit == 0 then (node, element) else (element, node)
  }

  /** The node n levels above the leaf. */
  function Fold(h: Hasher, leaf: int, elements: seq<int>, bits: seq<int>, n: nat): int
    requires n <= |elements| && n <= |bits|
  {
    if n == 0 then leaf
    else HashPair(h, Ordered(Fold(h, leaf, elements, bits, n - 1), elements[n - 1], bits[n - 1]))
  }

  ghost predicate Bits(bits: seq<int>) {
    forall i :: 0 <= i < |bits| ==> bits[i] == 0 || bits[i] == 1
  }

  /** With a boolean selector bit the linear combination is a conditional swap. */
  lemma SelectorSwaps(p: int, h: Hasher, element: int, bit: int, s: CheckerSignals, level: nat)
    requires Prime(p) && Felt(p, element) && Felt(p, bit)
    requires Felts(p, s.nodes) && Felts(p, s.lefts) && Felts(p, s.rights)
    requires level + 1 < |s.nodes| && level < |s.lefts| && level < |s.rights|
    requires LevelConstraints(p, h, element, bit, s, level)
    ensures bit == 0 || bit == 1
    ensures (s.lefts[level], s.rights[level]) == Ordered(s.nodes[level], element, bit)
  {
    BooleanConstraint(p, bit);
    var node := s.nodes[level];
    Choice(p, s.lefts[level], node, element, bit);
    Choice(p, s.rights[level], element, node, bit);
  }

  lemma {:induction false} NodesFold(p: int, h: Hasher, depth: nat, leaf: int, root: int,
                    elements: seq<int>, bits: seq<int>, s: CheckerSignals, n: nat)
    requires Prime(p) && Felt(p, leaf) && n <= depth
    requires Checks(p, h, depth, leaf, root, elements, bits, s)
    ensures s.nodes[n] == Fold(h, leaf, elements, bits, n)
    ensures forall i :: 0 <= i < n ==> bits[i] == 0 || bits[i] == 1
  {
    if n == 0 {
      FeltEq(p, s.nodes[0], leaf);
    } else {
      NodesFold(p, h, depth, leaf, root, elements, bits, s, n - 1);
      SelectorSwaps(p, h, elements[n - 1], bits[n - 1], s, n - 1);
    }
  }

  /** Whatever signals satisfy the template, the path bits are bits and the
      leaf folds to the root. */
  lemma CheckerSound(p: int, h: Hasher, depth: nat, leaf: int, root: int,
                     elements: seq<int>, bits: seq<int>, s: CheckerSignals)
    requires Prime(p) && Felt(p, leaf) && Felt(p, root)
    requires Checks(p, h, depth, leaf, root, elements, bits, s)
    ensures |elements| == |bits| == depth && Bits(bits)
    ensures root == Fold(h, leaf, elements, bits, depth)
  {
    NodesFold(p, h, depth, leaf, root, elements, bits, s, depth);
    FeltEq(p, root, s.nodes[depth]);
  }

  function CheckerWitness(h: Hasher, leaf: int, elements: seq<int>, bits: seq<int>): (s: CheckerSignals)
    requires |elements| == |bits|
  {
    var depth := |elements|;
    CheckerSignals(
      seq(depth + 1, n requires 0 <= n <= depth => Fold(h, leaf, elements, bits, n)),
      seq(depth, n requires 0 <= n < depth =>
        Ordered(Fold(h, leaf, elements, bits, n), elements[n], bits[n]).0),
      seq(depth, n requires 0 <= n < depth =>
        Ordered(Fold(h, leaf, elements, bits, n), elements[n], bits[n]).1))
  }

  lemma FoldFelt(p: int, h: Hasher, leaf: int, elements: seq<int>, bits: seq<int>, n: nat)
    requires IntoField(p, h) && Felt(p, leaf) && n <= |elements| && n <= |bits|
    ensures Felt(p, Fold(h, leaf, elements, bits, n))
  {
  }

  lemma LevelComplete(p: int, h: Hasher, leaf: int, elements: seq<int>, bits: seq<int>, n: nat)
    requires p > 1 && IntoField(p, h) && Felt(p, leaf)
    requires |elements| == |bits| && n < |bits|
    requires Felt(p, elements[n]) && (bits[n] == 0 || bits[n] == 1)
    ensures
      var s := CheckerWitness(h, leaf, elements, bits);
      && Felt(p, s.lefts[n]) && Felt(p, s.rights[n])
      && LevelConstraints(p, h, elements[n], bits[n], s, n)
  {
    FoldFelt(p, h, leaf, elements, bits, n);
    var node, element, bit := Fold(h, leaf, elements, bits, n), elements[n], bits[n];
    ChoiceHolds(p, node, element, bit);
    ChoiceHolds(p, element, node, bit);
    assert bit * (1 - bit) == 0;
  }

  /** Every leaf that folds to the root over boolean bits is accepted. */
  lemma CheckerComplete(p: int, h: Hasher, leaf: int, elements: seq<int>, bits: seq<int>)
    requires p > 1 && IntoField(p, h) && Felt(p, leaf) && Felts(p, elements)
    requires |elements| == |bits| && Bits(bits)
    ensures Checks(p, h, |elements|, leaf, Fold(h, leaf, elements, bits, |elements|), elements, bits,
                   CheckerWitness(h, leaf, elements, bits))
  {
    var s := CheckerWitness(h, leaf, elements, bits);
    forall n | 0 <= n < |s.nodes| ensures Felt(p, s.nodes[n]) {
      FoldFelt(p, h, leaf, elements, bits, n);
    }
    forall n | 0 <= n < |bits|
      ensures Felt(p, s.lefts[n]) && Felt(p, s.rights[n])
      ensures LevelConstraints(p, h, elements[n], bits[n], s, n)
    {
      LevelComplete(p, h, leaf, elements, bits, n);
    }
  }
}
