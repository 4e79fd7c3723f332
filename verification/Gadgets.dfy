/** The comparator gadgets the circuit instantiates, each as its constraints
    over field elements, with one lemma saying what they force and one saying
    they can be met.  A component input wired with `<==` is written as the
    expression it is wired to. */
module Gadgets {
  import opened Powers
  import opened PrimeField

  // ------------------------------------------------------------- Num2Bits

  /** The sum of bits[i] * 2^i. */
  function BitSum(bits: seq<int>): int {
    if bits == [] then 0
    else
      var n := |bits| - 1;
      BitSum(bits[..n]) + bits[n] * Pow2(n)
  }

  ghost predicate Num2Bits(p: int, n: nat, x: int, bits: seq<int>)
    requires p > 0
  {
    && |bits| == n
    && Felts(p, bits)
    && (forall i :: 0 <= i < n ==> Eq(p, bits[i] * (bits[i] - 1), 0))
    && Eq(p, BitSum(bits), x)
  }

  ghost predicate Booleans(bits: seq<int>) {
    forall i :: 0 <= i < |bits| ==> bits[i] == 0 || bits[i] == 1
  }

  lemma Num2BitsBooleans(p: int, n: nat, x: int, bits: seq<int>)
    requires Prime(p) && Num2Bits(p, n, x, bits)
    ensures Booleans(bits)
  {
    forall i | 0 <= i < n ensures bits[i] == 0 || bits[i] == 1 {
      var b := bits[i];
      assert Eq(p, b * (b - 1), 0);
      EqMul(p, b * (b - 1), 0, -1);
      assert b * (b - 1) * -1 == b * (1 - b);
      BooleanConstraint(p, b);
    }
  }

  lemma {:induction false} BitSumBound(bits: seq<int>)
    requires Booleans(bits)
    ensures 0 <= BitSum(bits) < Pow2(|bits|)
  {
    if bits == [] {
    } else {
      var n := |bits| - 1;
      BitSumBound(bits[..n]);
      assert bits[n] == 0 || bits[n] == 1;
    }
  }

  /** Num2Bits pins x, modulo p, to the integer its bits spell. */
  lemma Num2BitsSound(p: int, n: nat, x: int, bits: seq<int>)
    requires Prime(p) && Pow2(n) <= p && Num2Bits(p, n, x, bits)
    ensures Booleans(bits) && 0 <= BitSum(bits) < Pow2(n)
    ensures x % p == BitSum(bits)
  {
    Num2BitsBooleans(p, n, x, bits);
    BitSumBound(bits);
    FeltMod(p, BitSum(bits));
  }

  function BitsOf(x: int, n: nat): (bits: seq<int>)
    requires 0 <= x < Pow2(n)
    ensures |bits| == n
  {
    if n == 0 then []
    else if x >= Pow2(n - 1) then BitsOf(x - Pow2(n - 1), n - 1) + [1]
    else BitsOf(x, n - 1) + [0]
  }

  lemma BitSumAppend(bits: seq<int>, top: int)
    ensures BitSum(bits + [top]) == BitSum(bits) + top * Pow2(|bits|)
  {
    assert (bits + [top])[..|bits|] == bits;
  }

  lemma {:induction false} BitsOfBooleans(x: int, n: nat)
    requires 0 <= x < Pow2(n)
    ensures Booleans(BitsOf(x, n))
  {
    if n == 0 {
    } else {
      BitsOfBooleans(if x >= Pow2(n - 1) then x - Pow2(n - 1) else x, n - 1);
    }
  }

  lemma {:induction false} BitsOfSpell(x: int, n: nat)
    requires 0 <= x < Pow2(n)
    ensures BitSum(BitsOf(x, n)) == x
  {
    if n == 0 {
    } else {
      var rest, top := if x >= Pow2(n - 1) then x - Pow2(n - 1) else x, if x >= Pow2(n - 1) then 1 else 0;
      var bits := BitsOf(rest, n - 1);
      BitsOfSpell(rest, n - 1);
      BitSumAppend(bits, top);
      assert BitsOf(x, n) == bits + [top];
    }
  }

  lemma Num2BitsComplete(p: int, n: nat, x: int)
    requires p > 1 && 0 <= x < Pow2(n)
    ensures Num2Bits(p, n, x, BitsOf(x, n))
  {
    var bits := BitsOf(x, n);
    BitsOfSpell(x, n);
    BitsOfBooleans(x, n);
    forall i | 0 <= i < n ensures Felt(p, bits[i]) && bits[i] * (bits[i] - 1) == 0 {
      assert bits[i] == 0 || bits[i] == 1;
    }
  }

  // ------------------------------------------------------- IsZero, IsEqual

  /** out <== 1 - in * inv;  in * out === 0. */
  ghost predicate IsZero(p: int, x: int, inv: int, out: int)
    requires p > 0
  {
    && Felt(p, inv) && Felt(p, out)
    && Eq(p, out, 1 - x * inv)
    && Eq(p, x * out, 0)
  }

  lemma IsZeroSound(p: int, x: int, inv: int, out: int)
    requires Prime(p) && IsZero(p, x, inv, out)
    ensures out == ZeroFlag(p, x)
  {
    FeltMod(p, 0);
    if x % p == 0 {
      EqMul(p, x, 0, inv);
      EqAdd(p, 1, 1, x * inv, 0);
      FeltEq(p, out, 1);
    } else {
      Euclid(p, x, out);
      FeltEq(p, out, 0);
    }
  }

  function ZeroFlag(p: int, x: int): int
    requires p > 0
  {
    if x % p == 0 then 1 else 0
  }

  lemma IsZeroComplete(p: int, x: int)
    requires Prime(p)
    ensures exists inv :: IsZero(p, x, inv, ZeroFlag(p, x))
  {
    FeltMod(p, 0);
    if x % p == 0 {
      assert x * 0 == 0 && x * 1 == x;
      assert IsZero(p, x, 0, ZeroFlag(p, x));
    } else {
      var inv := Inverse(p, x);
      EqAdd(p, 1, 1, x * inv, 1);
      assert IsZero(p, x, inv, ZeroFlag(p, x));
    }
  }

  /** A witness for the inverse signal of IsZero. */
  ghost function ZeroInverse(p: int, x: int): (inv: int)
    requires Prime(p)
    ensures IsZero(p, x, inv, ZeroFlag(p, x))
  {
    IsZeroComplete(p, x);
    var inv :| IsZero(p, x, inv, ZeroFlag(p, x));
    inv
  }

  /** IsEqual feeds in[1] - in[0] to IsZero. */
  ghost predicate IsEqual(p: int, a: int, b: int, inv: int, out: int)
    requires p > 0
  {
    IsZero(p, b - a, inv, out)
  }

  lemma IsEqualSound(p: int, a: int, b: int, inv: int, out: int)
    requires Prime(p) && Felt(p, a) && Felt(p, b) && IsEqual(p, a, b, inv, out)
    ensures out == if a == b then 1 else 0
  {
    IsZeroSound(p, b - a, inv, out);
    DifferenceZero(p, a, b);
  }

  lemma DifferenceZero(p: int, a: int, b: int)
    requires p > 0 && Felt(p, a) && Felt(p, b)
    ensures (b - a) % p == 0 <==> a == b
  {
    if (b - a) % p == 0 {
      FeltMod(p, 0);
      EqAdd(p, b - a, 0, a, a);
      FeltEq(p, a, b);
    } else {
      FeltMod(p, 0);
    }
  }

  // ------------------------------------------------------------ comparators

  /** The internal signals of one comparator: the n + 1 bits and the output. */
  datatype Comparator = Comparator(bits: seq<int>, out: int)

  /** LessThan(n): Num2Bits(n + 1) of a + 2^n - b;  out <== 1 - top bit. */
  ghost predicate LessThan(p: int, n: nat, a: int, b: int, c: Comparator)
    requires p > 0
  {
    && Felt(p, c.out)
    && Num2Bits(p, n + 1, a + Pow2(n) - b, c.bits)
    && Eq(p, c.out, 1 - c.bits[n])
  }

  /** GreaterThan swaps the inputs of LessThan. */
  ghost predicate GreaterThan(p: int, n: nat, a: int, b: int, c: Comparator)
    requires p > 0
  {
    LessThan(p, n, b, a, c)
  }

  /** GreaterEqThan asks whether b < a + 1. */
  ghost predicate GreaterEqThan(p: int, n: nat, a: int, b: int, c: Comparator)
    requires p > 0
  {
    LessThan(p, n, b, a + 1, c)
  }

  /** As long as the shifted difference does not wrap, the comparator decides
      the order of the two integers. */
  lemma LessThanSound(p: int, n: nat, a: int, b: int, c: Comparator)
    requires Prime(p) && Pow2(n + 1) <= p && LessThan(p, n, a, b, c)
    requires 0 <= a + Pow2(n) - b < Pow2(n + 1)
    ensures c.out == if a < b then 1 else 0
  {
    var x := a + Pow2(n) - b;
    Num2BitsSound(p, n + 1, x, c.bits);
    FeltMod(p, x);
    BitSumBound(c.bits[..n]);
    assert x == BitSum(c.bits[..n]) + c.bits[n] * Pow2(n);
    assert c.bits[n] == 0 || c.bits[n] == 1;
    assert c.bits[n] == if a < b then 0 else 1;
    FeltEq(p, c.out, 1 - c.bits[n]);
  }

  /** The comparators on n-bit inputs. */
  lemma GreaterEqSound(p: int, n: nat, a: int, b: int, c: Comparator)
    requires Prime(p) && Pow2(n + 1) <= p && GreaterEqThan(p, n, a, b, c)
    requires 0 <= a < Pow2(n) && 0 <= b < Pow2(n)
    ensures c.out == if a >= b then 1 else 0
  {
    LessThanSound(p, n, b, a + 1, c);
  }

  lemma GreaterSound(p: int, n: nat, a: int, b: int, c: Comparator)
    requires Prime(p) && Pow2(n + 1) <= p && GreaterThan(p, n, a, b, c)
    requires 0 <= a < Pow2(n) && 0 <= b < Pow2(n)
    ensures c.out == if a > b then 1 else 0
  {
    LessThanSound(p, n, b, a, c);
  }

  function LessThanWitness(n: nat, a: int, b: int): Comparator
    requires 0 <= a + Pow2(n) - b < Pow2(n + 1)
  {
    Comparator(BitsOf(a + Pow2(n) - b, n + 1), if a < b then 1 else 0)
  }

  lemma LessThanComplete(p: int, n: nat, a: int, b: int)
    requires p > 1 && 0 <= a + Pow2(n) - b < Pow2(n + 1)
    ensures LessThan(p, n, a, b, LessThanWitness(n, a, b))
  {
    var x := a + Pow2(n) - b;
    Num2BitsComplete(p, n + 1, x);
  }
}
