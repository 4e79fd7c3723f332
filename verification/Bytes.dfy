/** Big-endian byte strings as integers. */
module Bytes {

  type Byte = b: int | 0 <= b < 256

  function Pow256(n: nat): (r: int)
    ensures r >= 1
  {
    if n == 0 then 1 else 256 * Pow256(n - 1)
  }

  lemma Pow256Below(m: nat, n: nat)
    requires m <= n
    ensures Pow256(m) <= Pow256(n)
    decreases n
  {
    if m < n {
      Pow256Below(m, n - 1);
    }
  }

  /** The integer a byte string spells, most significant byte first. */
  function BigEndian(bytes: seq<Byte>): int {
    if bytes == [] then 0 else BigEndian(bytes[..|bytes| - 1]) * 256 + bytes[|bytes| - 1]
  }

  lemma {:induction false} BigEndianBound(bytes: seq<Byte>)
    ensures 0 <= BigEndian(bytes) < Pow256(|bytes|)
  {
    if bytes == [] {
    } else {
      BigEndianBound(bytes[..|bytes| - 1]);
    }
  }

  lemma {:induction false} BigEndianInjective(a: seq<Byte>, b: seq<Byte>)
    requires |a| == |b| && BigEndian(a) == BigEndian(b)
    ensures a == b
  {
    if a == [] {
    } else {
      var n := |a| - 1;
      assert a[n] == b[n] && BigEndian(a[..n]) == BigEndian(b[..n]);
      BigEndianInjective(a[..n], b[..n]);
      assert a == a[..n] + [a[n]] && b == b[..n] + [b[n]];
    }
  }

  /** The low n bytes of x. */
  function ToBytes(x: int, n: nat): (bytes: seq<Byte>)
    requires x >= 0
    ensures |bytes| == n
  {
    if n == 0 then [] else ToBytes(x / 256, n - 1) + [x % 256]
  }

  lemma {:induction false} BigEndianToBytes(x: int, n: nat)
    requires 0 <= x < Pow256(n)
    ensures BigEndian(ToBytes(x, n)) == x
  {
    if n == 0 {
    } else {
      BigEndianToBytes(x / 256, n - 1);
      var front := ToBytes(x / 256, n - 1);
      assert (front + [x % 256])[..n - 1] == front;
    }
  }

  /** bytesToBigInt: shift by eight and add, byte after byte. */
  method BytesToBigInt(bytes: seq<Byte>) returns (accumulated: int)
    ensures accumulated == BigEndian(bytes)
    ensures accumulated < Pow256(|bytes|)
    ensures forall other: seq<Byte> :: |other| == |bytes| && BigEndian(other) == accumulated ==> other == bytes
  {
    accumulated := 0;
    for i := 0 to |bytes|
      invariant accumulated == BigEndian(bytes[..i])
    {
      assert bytes[..i + 1][..i] == bytes[..i];
      accumulated := accumulated * 256 + bytes[i];
    }
    assert bytes[..|bytes|] == bytes;
    BigEndianBound(bytes);
    forall other: seq<Byte> | |other| == |bytes| && BigEndian(other) == accumulated ensures other == bytes {
      BigEndianInjective(other, bytes);
    }
  }
}
