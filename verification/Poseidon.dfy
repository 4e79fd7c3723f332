/** The Poseidon hash as an uninterpreted function into the field.  A finite
    field admits no injective pair hash, so collision resistance is never
    assumed outright: it is a property of the finite set of inputs that were
    actually hashed. */
module Poseidon {
  import opened PrimeField

  datatype Hasher = Hasher(two: (int, int) -> int, three: (int, int, int) -> int)

  ghost predicate IntoField(p: int, h: Hasher) {
    && (forall a, b {:trigger h.two(a, b)} :: Felt(p, h.two(a, b)))
    && (forall a, b, c {:trigger h.three(a, b, c)} :: Felt(p, h.three(a, b, c)))
  }

  type Pair = (int, int)
  type Triple = (int, int, int)

  function HashPair(h: Hasher, x: Pair): int {
    h.two(x.0, x.1)
  }

  function HashTriple(h: Hasher, x: Triple): int {
    h.three(x.0, x.1, x.2)
  }

  ghost predicate NoPairCollision(h: Hasher, known: set<Pair>) {
    forall x, y :: x in known && y in known && HashPair(h, x) == HashPair(h, y) ==> x == y
  }

  ghost predicate NoTripleCollision(h: Hasher, known: set<Triple>) {
    forall x, y :: x in known && y in known && HashTriple(h, x) == HashTriple(h, y) ==> x == y
  }
}
