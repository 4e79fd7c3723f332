/** Arithmetic modulo a prime p: the only facts about the scalar field of the
    circuit that the rest of the project uses.  Primality is trial division;
    inverses and Euclid's lemma are derived from it. */
module PrimeField {

  ghost predicate Prime(p: int) {
    p > 1 && forall d {:trigger p % d} :: 1 < d < p ==> p % d != 0
  }

  /** A field element, in the canonical range. */
  predicate Felt(p: int, x: int) {
    0 <= x < p
  }

  ghost predicate Felts(p: int, xs: seq<int>) {
    forall i :: 0 <= i < |xs| ==> Felt(p, xs[i])
  }

  /** The constraint `a === b` of the circuit language. */
  ghost predicate Eq(p: int, a: int, b: int)
    requires p > 0
  {
    a % p == b % p
  }

  lemma ModUnique(x: int, q: int, r: int, p: int)
    requires p > 0 && 0 <= r < p && x == q * p + r
    ensures x % p == r
  {
    var d := x / p - q;
    assert d * p == r - x % p;
    assert d * p < p && -p < d * p;
    assert d == 0 by {
      assert d > 0 ==> d * p >= p;
      assert d < 0 ==> d * p <= -p;
    }
  }

  lemma EqOfMultiple(p: int, a: int, b: int, k: int)
    requires p > 0 && a == b + k * p
    ensures Eq(p, a, b)
  {
    assert a == (k + b / p) * p + b % p;
    ModUnique(a, k + b / p, b % p, p);
  }

  lemma MultipleOfEq(p: int, a: int, b: int) returns (k: int)
    requires p > 0 && Eq(p, a, b)
    ensures a == b + k * p
  {
    k := a / p - b / p;
    assert a == (a / p) * p + a % p && b == (b / p) * p + b % p;
  }

  lemma FeltMod(p: int, a: int)
    requires Felt(p, a)
    ensures a % p == a
  {
    ModUnique(a, 0, a, p);
  }

  /** Two field elements that are congruent are the same. */
  lemma FeltEq(p: int, a: int, b: int)
    requires Felt(p, a) && Felt(p, b) && Eq(p, a, b)
    ensures a == b
  {
    FeltMod(p, a);
    FeltMod(p, b);
  }

  lemma EqMul(p: int, a: int, b: int, c: int)
    requires p > 0 && Eq(p, a, b)
    ensures Eq(p, a * c, b * c)
  {
    var k := MultipleOfEq(p, a, b);
    assert a * c == b * c + (k * c) * p;
    EqOfMultiple(p, a * c, b * c, k * c);
  }

  lemma EqAdd(p: int, a: int, b: int, c: int, d: int)
    requires p > 0 && Eq(p, a, b) && Eq(p, c, d)
    ensures Eq(p, a + c, b + d) && Eq(p, a - c, b - d)
  {
    var k := MultipleOfEq(p, a, b);
    var j := MultipleOfEq(p, c, d);
    assert a + c == b + d + (k + j) * p;
    assert a - c == b - d + (k - j) * p;
    EqOfMultiple(p, a + c, b + d, k + j);
    EqOfMultiple(p, a - c, b - d, k - j);
  }

  lemma EqReduced(p: int, a: int)
    requires p > 0
    ensures Felt(p, a % p) && Eq(p, a % p, a)
  {
    FeltMod(p, a % p);
  }

  /** Every nonzero residue of a prime has an inverse: walk down p mod a. */
  lemma {:induction false} InverseBelow(p: int, a: int) returns (x: int)
    requires Prime(p) && 0 < a < p
    ensures Eq(p, a * x, 1)
    decreases a
  {
    if a == 1 {
      x := 1;
    } else {
      var r, q := p % a, p / a;
      var y := InverseBelow(p, r);
      var k := MultipleOfEq(p, r * y, 1);
      x := -q * y;
      // r == p - q a, so a (-q y) == r y - p y
      assert a * x == 1 + (k - y) * p by {
        assert q * a + r == p;
        assert a * x == (r - p) * y;
      }
      EqOfMultiple(p, a * x, 1, k - y);
    }
  }

  lemma Inverse(p: int, a: int) returns (x: int)
    requires Prime(p) && !Eq(p, a, 0)
    ensures Felt(p, x) && Eq(p, a * x, 1)
  {
    EqReduced(p, a);
    FeltMod(p, 0);
    var y := InverseBelow(p, a % p);
    x := y % p;
    EqReduced(p, y);
    EqMul(p, a % p, a, y);
    EqMul(p, x, y, a);
    assert y * a == a * y && x * a == a * x;
  }

  /** Euclid's lemma. */
  lemma Euclid(p: int, a: int, b: int)
    requires Prime(p) && Eq(p, a * b, 0)
    ensures Eq(p, a, 0) || Eq(p, b, 0)
  {
    if !Eq(p, a, 0) {
      var x := Inverse(p, a);
      EqMul(p, a * x, 1, b);
      EqMul(p, a * b, 0, x);
      assert (a * x) * b == (a * b) * x;
    }
  }

  /** A field element constrained by `b * (1 - b) === 0` is a bit. */
  lemma BooleanConstraint(p: int, b: int)
    requires Prime(p) && Felt(p, b) && Eq(p, b * (1 - b), 0)
    ensures b == 0 || b == 1
  {
    Euclid(p, b, 1 - b);
    if Eq(p, b, 0) {
      FeltEq(p, b, 0);
    } else {
      EqAdd(p, 1 - b, 0, b, b);
      FeltEq(p, 1, b);
    }
  }

  /** `out === a + bit * (b - a)` chooses between a and b. */
  lemma Choice(p: int, out: int, a: int, b: int, bit: int)
    requires p > 0 && Felt(p, out) && Felt(p, a) && Felt(p, b) && (bit == 0 || bit == 1)
    requires Eq(p, out, a + bit * (b - a))
    ensures out == if bit == 1 then b else a
  {
    assert a + bit * (b - a) == if bit == 1 then b else a;
    FeltEq(p, out, if bit == 1 then b else a);
  }

  lemma ChoiceHolds(p: int, a: int, b: int, bit: int)
    requires p > 0 && (bit == 0 || bit == 1)
    ensures Eq(p, if bit == 1 then b else a, a + bit * (b - a))
  {
    assert a + bit * (b - a) == if bit == 1 then b else a;
  }

  /** `out === bit * a` gates a. */
  lemma Gate(p: int, out: int, a: int, bit: int)
    requires p > 0 && Felt(p, out) && Felt(p, a) && (bit == 0 || bit == 1)
    requires Eq(p, out, bit * a)
    ensures out == if bit == 1 then a else 0
  {
    assert bit * a == if bit == 1 then a else 0;
    FeltEq(p, out, if bit == 1 then a else 0);
  }

  lemma GateHolds(p: int, a: int, bit: int)
    requires p > 0 && (bit == 0 || bit == 1)
    ensures Eq(p, if bit == 1 then a else 0, bit * a)
  {
    assert bit * a == if bit == 1 then a else 0;
  }

  // ---------------------------------------------------------- primes of any size

  function Factorial(n: nat): (f: nat)
    ensures f >= 1
  {
    if n == 0 then 1 else n * Factorial(n - 1)
  }

  lemma {:induction false} FactorialMultiple(n: nat, d: nat) returns (k: nat)
    requires 1 <= d <= n
    ensures Factorial(n) == k * d
  {
    if d == n {
      k := Factorial(n - 1);
    } else {
      var k' := FactorialMultiple(n - 1, d);
      k := n * k';
    }
  }

  lemma {:induction false} LeastDivisor(m: nat, d: nat) returns (p: nat)
    requires 1 < d <= m && forall e {:trigger m % e} :: 1 < e < d ==> m % e != 0
    ensures d <= p <= m && m % p == 0 && forall e {:trigger m % e} :: 1 < e < p ==> m % e != 0
    decreases m - d
  {
    if m % d == 0 {
      p := d;
    } else {
      ModUnique(m, 1, 0, m);
      p := LeastDivisor(m, d + 1);
    }
  }

  lemma DividesOn(m: nat, p: nat, e: nat)
    requires p > 0 && e > 0 && m % p == 0 && p % e == 0
    ensures m % e == 0
  {
    var k, j := m / p, p / e;
    assert m == k * p && p == j * e;
    ModUnique(m, k * j, 0, e);
  }

  /** There are primes beyond every bound: the least divisor of n! + 1. */
  lemma PrimeAbove(n: nat) returns (p: int)
    ensures Prime(p) && p > n
  {
    var m := Factorial(n) + 1;
    p := LeastDivisor(m, 2);
    forall e {:trigger p % e} | 1 < e < p ensures p % e != 0 {
      if p % e == 0 {
        DividesOn(m, p, e);
      }
    }
    if p <= n {
      var k := FactorialMultiple(n, p);
      ModUnique(m, k, 1, p);
    }
  }
}
