/** Field coordinates as 32-byte big-endian strings, by way of hexadecimal
    text, and the packing of proof points. */
module HexCodec {
  import opened Options
  import opened Bytes

  const DIGITS: string := "0123456789abcdef"

  function Digit(v: int): (c: char)
    requires 0 <= v < 16
    ensures DigitValue(c) == v
  {
    DIGITS[v]
  }

  function DigitValue(c: char): int {
    if '0' <= c <= '9' then c as int - '0' as int
    else if 'a' <= c <= 'f' then c as int - 'a' as int + 10
    else if 'A' <= c <= 'F' then c as int - 'A' as int + 10
    else -1
  }

  /** The characters that parseInt skips before a number. */
  predicate IsSpace(c: char) {
    var u := c as int;
    || 9 <= u <= 13 || u == 0x20 || u == 0xA0 || u == 0x1680 || 0x2000 <= u <= 0x200A
    || u == 0x2028 || u == 0x2029 || u == 0x202F || u == 0x205F || u == 0x3000 || u == 0xFEFF
  }

  function ParseOne(d: char): Option<int> {
    if DigitValue(d) < 0 then None else Some(DigitValue(d))
  }

  /** parseInt of a two-character text in base 16, None for NaN: spaces and a sign
      are skipped, "0x" is a prefix without digits, and what follows the last
      digit is ignored. */
  function ParsePair(c: char, d: char): Option<int> {
    if IsSpace(c) || c == '+' then ParseOne(d)
    else if c == '-' then if DigitValue(d) < 0 then None else Some(-DigitValue(d))
    else if DigitValue(c) < 0 || (c == '0' && (d == 'x' || d == 'X')) then None
    else if DigitValue(d) < 0 then Some(DigitValue(c))
    else Some(DigitValue(c) * 16 + DigitValue(d))
  }

  /** Storing into a byte array: NaN becomes 0, other numbers wrap. */
  function ToByte(v: Option<int>): Byte {
    match v
    case None => 0
    case Some(n) => n % 256
  }

  /** Two hexadecimal digits are read as the byte they spell. */
  lemma PairOfDigits(high: char, low: char)
    requires DigitValue(high) >= 0 && DigitValue(low) >= 0
    ensures ToByte(ParsePair(high, low)) == DigitValue(high) * 16 + DigitValue(low)
  {
    assert 0 <= DigitValue(high) < 16 && 0 <= DigitValue(low) < 16;
  }

  /** Every other pair: a space or a plus leaves the second digit, a minus its
      negative; "0x" and a first character that starts no number make 0; a digit
      before anything else counts alone. */
  lemma OtherPairs(c: char, d: char)
    ensures (IsSpace(c) || c == '+') && DigitValue(d) >= 0 ==> ToByte(ParsePair(c, d)) == DigitValue(d)
    ensures c == '-' && DigitValue(d) > 0 ==> ToByte(ParsePair(c, d)) == 256 - DigitValue(d)
    ensures (IsSpace(c) || c == '+' || c == '-') && DigitValue(d) < 0 ==> ToByte(ParsePair(c, d)) == 0
    ensures !IsSpace(c) && c != '+' && c != '-' && DigitValue(c) < 0 ==> ToByte(ParsePair(c, d)) == 0
    ensures DigitValue(c) >= 0 && DigitValue(d) < 0 ==>
              ToByte(ParsePair(c, d)) == if c == '0' && (d == 'x' || d == 'X') then 0 else DigitValue(c)
  {
    assert DigitValue(c) < 16 && DigitValue(d) < 16;
  }

  /** value.toString(16) of a non-negative integer. */
  function ToHex(v: int): string
    requires v >= 0
  {
    if v < 16 then [Digit(v)] else ToHex(v / 16) + [Digit(v % 16)]
  }

  function Zeros(n: nat): (zeros: string)
    ensures |zeros| == n
  {
    if n == 0 then "" else Zeros(n - 1) + "0"
  }

  function PadStart(text: string, n: nat): string {
    if |text| >= n then text else Zeros(n - |text|) + text
  }

  function ToBigEndianHex32(v: int): string
    requires v >= 0
  {
    PadStart(ToHex(v), 64)
  }

  /** The byte that characters 2k and 2k + 1 are read as. */
  function ByteAt(text: string, k: nat): Byte
    requires 2 * k + 1 < |text|
  {
    ToByte(ParsePair(text[2 * k], text[2 * k + 1]))
  }

  /** The bytes of the first n pairs. */
  function HexPrefix(text: string, n: nat): (bytes: seq<Byte>)
    requires 2 * n <= |text|
    ensures |bytes| == n
  {
    if n == 0 then [] else HexPrefix(text, n - 1) + [ByteAt(text, n - 1)]
  }

  /** hexToBytes: two characters a byte; an odd last one is dropped. */
  function HexToBytes(text: string): (bytes: seq<Byte>)
    ensures |bytes| == |text| / 2
  {
    HexPrefix(text, |text| / 2)
  }

  method ParseHexToBytes(text: string) returns (bytes: array<Byte>)
    ensures bytes[..] == HexToBytes(text)
    ensures fresh(bytes)
  {
    bytes := new Byte[|text| / 2](_ => 0);
    for i := 0 to bytes.Length
      invariant bytes[..i] == HexPrefix(text, i)
    {
      var parsed := ParsePair(text[2 * i], text[2 * i + 1]);
      bytes[i] := ToByte(parsed);
      assert bytes[..i + 1] == bytes[..i] + [bytes[i]];
    }
    assert bytes[..] == bytes[..bytes.Length];
  }

  lemma {:induction false} HexPrefixLocal(a: string, b: string, n: nat)
    requires 2 * n <= |a|
    ensures HexPrefix(a + b, n) == HexPrefix(a, n)
  {
    if n == 0 {
    } else {
      HexPrefixLocal(a, b, n - 1);
    }
  }

  lemma {:induction false} HexPrefixAppend(a: string, b: string, m: nat, n: nat)
    requires |a| == 2 * m && 2 * n <= |b|
    ensures HexPrefix(a + b, m + n) == HexPrefix(a, m) + HexPrefix(b, n)
  {
    if n == 0 {
      HexPrefixLocal(a, b, m);
    } else {
      HexPrefixAppend(a, b, m, n - 1);
      assert ByteAt(a + b, m + n - 1) == ByteAt(b, n - 1);
    }
  }

  lemma HexAppend(a: string, b: string)
    requires |a| % 2 == 0
    ensures HexToBytes(a + b) == HexToBytes(a) + HexToBytes(b)
  {
    HexPrefixAppend(a, b, |a| / 2, |b| / 2);
  }

  /** The n hexadecimal digits of v. */
  function HexN(v: int, n: nat): (text: string)
    requires v >= 0
    ensures |text| == n
  {
    if n == 0 then "" else HexN(v / 16, n - 1) + [Digit(v % 16)]
  }

  function Pow16(n: nat): (r: int)
    ensures r >= 1
  {
    if n == 0 then 1 else 16 * Pow16(n - 1)
  }

  lemma {:induction false} HexNOfZero(n: nat)
    ensures HexN(0, n) == Zeros(n)
  {
    if n == 0 {
    } else {
      HexNOfZero(n - 1);
    }
  }

  /** Padding on the left leaves the last digit alone. */
  lemma PadStartAppend(text: string, last: char, n: nat)
    requires n >= 1
    ensures PadStart(text + [last], n) == PadStart(text, n - 1) + [last]
  {
    if |text| < n - 1 {
      assert Zeros(n - 1 - |text|) + (text + [last]) == Zeros(n - 1 - |text|) + text + [last];
    }
  }

  lemma QuotientFits(v: int, n: nat)
    requires 0 <= v < Pow16(n) && n >= 1
    ensures 0 <= v / 16 < Pow16(n - 1) && (v >= 16 ==> n >= 2)
  {
    assert Pow16(n) == 16 * Pow16(n - 1);
    assert n == 1 ==> Pow16(n - 1) == 1;
  }

  lemma OneDigit(v: int, n: nat)
    requires 0 <= v < 16 && n >= 1
    ensures PadStart([Digit(v)], n) == HexN(0, n - 1) + [Digit(v)]
  {
    HexNOfZero(n - 1);
    assert [Digit(v)] == [] + [Digit(v)] && PadStart([], n - 1) == Zeros(n - 1) + [];
    PadStartAppend([], Digit(v), n);
  }

  /** Padding the digits on the left gives the n-digit form. */
  lemma {:induction false} PaddedIsHexN(v: int, n: nat)
    requires 0 <= v < Pow16(n) && n >= 1
    ensures |ToHex(v)| <= n && PadStart(ToHex(v), n) == HexN(v, n)
  {
    QuotientFits(v, n);
    var q, last := v / 16, Digit(v % 16);
    assert HexN(v, n) == HexN(q, n - 1) + [last];
    if v < 16 {
      assert q == 0 && v % 16 == v;
      OneDigit(v, n);
    } else {
      PaddedIsHexN(q, n - 1);
      assert ToHex(v) == ToHex(q) + [last];
      PadStartAppend(ToHex(q), last, n);
    }
  }

  lemma {:induction false} Pow16Even(n: nat)
    ensures Pow16(2 * n) == Pow256(n)
  {
    if n == 0 {
    } else {
      Pow16Even(n - 1);
      assert Pow16(2 * n) == 16 * Pow16(2 * n - 1) == 256 * Pow16(2 * (n - 1));
    }
  }

  lemma AppendPair(front: string, high: char, low: char, m: nat)
    requires |front| == 2 * m && DigitValue(high) >= 0 && DigitValue(low) >= 0
    ensures HexPrefix(front + [high, low], m + 1) == HexPrefix(front, m) + [ToByte(ParsePair(high, low))]
  {
    HexPrefixLocal(front, [high, low], m);
    assert ByteAt(front + [high, low], m) == ToByte(ParsePair(high, low));
  }

  /** The last two digits of v are read as its last byte. */
  lemma LastByte(v: int)
    requires v >= 0
    ensures ToByte(ParsePair(Digit(v / 16 % 16), Digit(v % 16))) == v % 256
  {
    PairOfDigits(Digit(v / 16 % 16), Digit(v % 16));
    TwoDigits(v);
  }

  lemma HexNStep(v: int, n: nat)
    requires v >= 0 && n > 0
    ensures HexN(v, n) == HexN(v / 16, n - 1) + [Digit(v % 16)]
  {
  }

  lemma HexNTwoSteps(v: int, n: nat)
    requires v >= 0 && n > 0
    ensures HexN(v, 2 * n) == HexN(v / 16 / 16, 2 * (n - 1)) + [Digit(v / 16 % 16), Digit(v % 16)]
  {
    HexNStep(v, 2 * n);
    HexNStep(v / 16, 2 * n - 1);
    JoinPair(HexN(v / 16 / 16, 2 * (n - 1)), Digit(v / 16 % 16), Digit(v % 16));
  }

  lemma JoinPair(front: string, high: char, low: char)
    ensures front + [high] + [low] == front + [high, low]
  {
  }

  /** Two base-16 digits are one base-256 digit. */
  lemma TwoDigits(v: int)
    requires v >= 0
    ensures v / 16 / 16 == v / 256 && v / 16 % 16 * 16 + v % 16 == v % 256
  {
    var w, low := v / 16, v % 16;
    var q, high := w / 16, w % 16;
    assert v == 16 * w + low && w == 16 * q + high;
    assert v == 256 * q + (16 * high + low);
    QuotientIs(v, q, 16 * high + low);
  }

  lemma QuotientIs(v: int, q: int, r: int)
    requires v == 256 * q + r && 0 <= r < 256
    ensures v / 256 == q && v % 256 == r
  {
  }

  lemma ToBytesStep(v: int, n: nat)
    requires v >= 0 && n > 0
    ensures ToBytes(v, n) == ToBytes(v / 256, n - 1) + [v % 256]
  {
  }

  /** Two digits a byte give the big-endian bytes. */
  lemma {:induction false} HexNToBytes(v: int, n: nat)
    requires v >= 0
    ensures HexPrefix(HexN(v, 2 * n), n) == ToBytes(v, n)
  {
    if n == 0 {
    } else {
      var q, high, low := v / 16 / 16, Digit(v / 16 % 16), Digit(v % 16);
      TwoDigits(v);
      HexNToBytes(q, n - 1);
      HexNTwoSteps(v, n);
      AppendPair(HexN(q, 2 * (n - 1)), high, low, n - 1);
      LastByte(v);
      ToBytesStep(v, n);
    }
  }

  /** hexToBytes of toBigEndianHex32 is the 32-byte big-endian form. */
  lemma Hex32RoundTrip(v: int)
    requires 0 <= v < Pow256(32)
    ensures |ToBigEndianHex32(v)| == 64
    ensures HexToBytes(ToBigEndianHex32(v)) == ToBytes(v, 32)
    ensures BigEndian(HexToBytes(ToBigEndianHex32(v))) == v
  {
    Pow16Even(32);
    PaddedIsHexN(v, 64);
    HexNToBytes(v, 32);
    BigEndianToBytes(v, 32);
  }

  // -------------------------------------------------------------- proof points

  /** packG1: X then Y. */
  function PackG1(x: int, y: int): seq<Byte>
    requires 0 <= x < Pow256(32) && 0 <= y < Pow256(32)
  {
    HexToBytes(ToBigEndianHex32(x) + ToBigEndianHex32(y))
  }

  /** A coordinate over the quadratic extension, as the prover emits it. */
  datatype Fp2 = Fp2(c0: int, c1: int)

  predicate Coordinate(v: Fp2) {
    0 <= v.c0 < Pow256(32) && 0 <= v.c1 < Pow256(32)
  }

  /** packG2: each coordinate with its limbs swapped. */
  function PackG2(x: Fp2, y: Fp2): seq<Byte>
    requires Coordinate(x) && Coordinate(y)
  {
    HexToBytes(ToBigEndianHex32(x.c1) + ToBigEndianHex32(x.c0) + ToBigEndianHex32(y.c1) + ToBigEndianHex32(y.c0))
  }

  lemma PackG1Layout(x: int, y: int)
    requires 0 <= x < Pow256(32) && 0 <= y < Pow256(32)
    ensures PackG1(x, y) == ToBytes(x, 32) + ToBytes(y, 32)
  {
    Hex32RoundTrip(x);
    Hex32RoundTrip(y);
    HexAppend(ToBigEndianHex32(x), ToBigEndianHex32(y));
  }

  /** G1 points are packed X || Y, 64 bytes, and can be read back. */
  lemma PackG1Readable(x: int, y: int)
    requires 0 <= x < Pow256(32) && 0 <= y < Pow256(32)
    ensures |PackG1(x, y)| == 64
    ensures BigEndian(PackG1(x, y)[..32]) == x && BigEndian(PackG1(x, y)[32..]) == y
  {
    PackG1Layout(x, y);
    BigEndianToBytes(x, 32);
    BigEndianToBytes(y, 32);
    assert PackG1(x, y)[..32] == ToBytes(x, 32) && PackG1(x, y)[32..] == ToBytes(y, 32);
  }

  lemma HexAppendFour(a: string, b: string, c: string, d: string)
    requires |a| % 2 == |b| % 2 == 0
    ensures HexToBytes(a + b + c + d) == HexToBytes(a + b) + HexToBytes(c + d)
  {
    assert a + b + c + d == (a + b) + (c + d);
    HexAppend(a + b, c + d);
  }

  /** G2 points are packed c1 || c0 per coordinate: each half is the G1 packing
      of the swapped limbs. */
  lemma PackG2Halves(x: Fp2, y: Fp2)
    requires Coordinate(x) && Coordinate(y)
    ensures PackG2(x, y) == PackG1(x.c1, x.c0) + PackG1(y.c1, y.c0)
  {
    Hex32RoundTrip(x.c1);
    Hex32RoundTrip(x.c0);
    HexAppendFour(ToBigEndianHex32(x.c1), ToBigEndianHex32(x.c0), ToBigEndianHex32(y.c1), ToBigEndianHex32(y.c0));
  }

  lemma Quarters(first: seq<Byte>, second: seq<Byte>)
    requires |first| == |second| == 64
    ensures (first + second)[..32] == first[..32] && (first + second)[32..64] == first[32..]
    ensures (first + second)[64..96] == second[..32] && (first + second)[96..] == second[32..]
  {
  }

  /** Every limb can be read back from the 128 bytes. */
  lemma PackG2Readable(x: Fp2, y: Fp2)
    requires Coordinate(x) && Coordinate(y)
    ensures |PackG2(x, y)| == 128
    ensures BigEndian(PackG2(x, y)[..32]) == x.c1 && BigEndian(PackG2(x, y)[32..64]) == x.c0
    ensures BigEndian(PackG2(x, y)[64..96]) == y.c1 && BigEndian(PackG2(x, y)[96..]) == y.c0
  {
    PackG2Halves(x, y);
    PackG1Readable(x.c1, x.c0);
    PackG1Readable(y.c1, y.c0);
    Quarters(PackG1(x.c1, x.c0), PackG1(y.c1, y.c0));
  }

  /** No two points share a packing. */
  lemma PackingInjective(x: Fp2, y: Fp2, x': Fp2, y': Fp2)
    requires Coordinate(x) && Coordinate(y) && Coordinate(x') && Coordinate(y')
    ensures PackG1(x.c0, x.c1) == PackG1(y.c0, y.c1) <==> x == y
    ensures PackG2(x, y) == PackG2(x', y') <==> x == x' && y == y'
  {
    PackG1Readable(x.c0, x.c1);
    PackG1Readable(y.c0, y.c1);
    PackG2Readable(x, y);
    PackG2Readable(x', y');
  }
}
