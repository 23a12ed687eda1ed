// The NMEA checksum and its two hexadecimal digits.
module NmeaChecksum {
  import opened Bytes

  // ----- Exclusive or ------------------------------------------------------

  function Bits(a: byte): bv8 {
    a as bv8
  }

  function Number(x: bv8): byte {
    x as int
  }

  function Xor(a: byte, b: byte): byte {
    Number(Bits(a) ^ Bits(b))
  }

  // XOR of all characters between '$' and '*'.
  function XorAll(s: seq<byte>): byte {
    if s == [] then 0 else Xor(XorAll(s[..|s| - 1]), s[|s| - 1])
  }

  lemma XorSnoc(s: seq<byte>, b: byte)
    ensures XorAll(s + [b]) == Xor(XorAll(s), b)
  {
    assert (s + [b])[..|s|] == s;
  }

  // ----- What it computes --------------------------------------------------

  // The k-th binary digit, in plain arithmetic.
  predicate Bit(b: byte, k: nat)
    requires k < 8
  {
    b / [1, 2, 4, 8, 16, 32, 64, 128][k] % 2 == 1
  }

  lemma BitsOfNumber(x: bv8)
    ensures Bits(Number(x)) == x
  {
  }

  lemma Doubled(x: bv8)
    requires x < 128
    ensures Number(x << 1) == 2 * Number(x) < 255 && Number((x << 1) + 1) == 2 * Number(x) + 1
  {
  }

  lemma {:induction false} ByteIsNumber(a: byte) returns (x: bv8)
    ensures Number(x) == a
  {
    if a == 0 {
      x := 0;
    } else {
      var y := ByteIsNumber(a / 2);
      Doubled(y);
      x := if a % 2 == 0 then y << 1 else (y << 1) + 1;
    }
  }

  lemma NumberOfBits(a: byte)
    ensures Number(Bits(a)) == a
  {
    var x := ByteIsNumber(a);
    BitsOfNumber(x);
    hide Number, Bits;
  }

  lemma LowBit(x: bv8)
    ensures Number(x) % 2 == 1 <==> x & 1 == 1
  {
  }

  lemma HalfNumber(x: bv8)
    ensures Number(x) / 2 == Number(x >> 1)
  {
  }

  lemma BitOfHalf(b: byte, k: nat)
    requires 0 < k < 8
    ensures Bit(b, k) <==> Bit(b / 2, k - 1)
  {
  }

  lemma XorOfHalves(p: bv8, q: bv8)
    ensures (p ^ q) & 1 == 1 <==> ((p & 1 == 1) != (q & 1 == 1))
    ensures (p ^ q) >> 1 == (p >> 1) ^ (q >> 1)
  {
  }

  lemma BitZero(b: byte)
    ensures Bit(b, 0) <==> b % 2 == 1
  {
  }

  lemma {:induction false} BitsXor(p: bv8, q: bv8, k: nat)
    requires k < 8
    ensures Bit(Number(p ^ q), k) <==> Bit(Number(p), k) != Bit(Number(q), k)
  {
    hide Number, Bit;
    XorOfHalves(p, q);
    if k == 0 {
      BitIsLow(p ^ q);
      BitIsLow(p);
      BitIsLow(q);
    } else {
      BitOfShift(p ^ q, k);
      BitOfShift(p, k);
      BitOfShift(q, k);
      BitsXor(p >> 1, q >> 1, k - 1);
    }
  }

  lemma BitIsLow(x: bv8)
    ensures Bit(Number(x), 0) <==> x & 1 == 1
  {
    BitZero(Number(x));
    LowBit(x);
    hide Bit, Number;
  }

  lemma BitOfShift(x: bv8, k: nat)
    requires 0 < k < 8
    ensures Bit(Number(x), k) <==> Bit(Number(x >> 1), k - 1)
  {
    HalfNumber(x);
    BitOfHalf(Number(x), k);
    hide Bit, Number;
  }

  lemma XorBit(a: byte, b: byte, k: nat)
    requires k < 8
    ensures Bit(Xor(a, b), k) <==> Bit(a, k) != Bit(b, k)
  {
    hide Bit, Number, Bits;
    NumberOfBits(a);
    NumberOfBits(b);
    BitsXor(Bits(a), Bits(b), k);
  }

  // How many of the bytes have the k-th binary digit.
  function OnesAt(s: seq<byte>, k: nat): nat
    requires k < 8
  {
    if s == [] then 0 else OnesAt(s[..|s| - 1], k) + if Bit(s[|s| - 1], k) then 1 else 0
  }

  lemma ZeroHasNoBit(k: nat)
    requires k < 8
    ensures !Bit(0, k)
  {
  }

  lemma {:induction false} XorAllBit(s: seq<byte>, k: nat)
    requires k < 8
    ensures Bit(XorAll(s), k) <==> OnesAt(s, k) % 2 == 1
  {
    hide Xor, Bit;
    if s == [] {
      ZeroHasNoBit(k);
    } else {
      XorAllBit(s[..|s| - 1], k);
      XorBit(XorAll(s[..|s| - 1]), s[|s| - 1], k);
    }
  }

  // The checksum has a binary digit exactly when an odd number of the bytes do.
  lemma XorAllParity(s: seq<byte>, k: nat)
    requires k < 8
    ensures Bit(XorAll(s), k) <==> |set i | 0 <= i < |s| && Bit(s[i], k)| % 2 == 1
  {
    XorAllBit(s, k);
    OnesAreCounted(s, k);
    hide XorAll, OnesAt, Bit;
  }

  // As in "AB", whose checksum is written "03".
  lemma XorOfAB()
    ensures XorAll(['A' as byte, 'B' as byte]) == 3
    ensures forall k :: 0 <= k < 8 ==> (Bit(3, k) <==> k == 0 || k == 1)
  {
    XorOfTwo('A' as byte, 'B' as byte);
  }

  lemma XorOfTwo(a: byte, b: byte)
    ensures XorAll([a, b]) == Xor(Xor(0, a), b)
  {
    hide Xor;
    XorSnoc([], a);
    XorSnoc([a], b);
    assert [] + [a] == [a] && [a] + [b] == [a, b];
  }

  lemma {:induction false} OnesAreCounted(s: seq<byte>, k: nat)
    requires k < 8
    ensures OnesAt(s, k) == |set i | 0 <= i < |s| && Bit(s[i], k)|
  {
    hide Bit;
    var all := set i | 0 <= i < |s| && Bit(s[i], k);
    if s == [] {
      assert all == {};
    } else {
      var n := |s| - 1;
      OnesAreCounted(s[..n], k);
      var some := set i | 0 <= i < n && Bit(s[..n][i], k);
      assert all == if Bit(s[n], k) then some + {n} else some;
    }
  }

  // ----- Hexadecimal digits ------------------------------------------------

  datatype Hex = NotHex | Value(v: byte)

  function HexVal(c: byte): (r: Hex)
    ensures r.Value? ==> r.v < 16
  {
    if 48 <= c <= 57 then Value(c - 48)
    else if 65 <= c <= 70 then Value(c - 55)
    else if 97 <= c <= 102 then Value(c - 87)
    else NotHex
  }

  // The source's `(h << 4) | l` on two nibbles.
  function ParseHexByte(hi: byte, lo: byte): Hex {
    match (HexVal(hi), HexVal(lo))
    case (Value(h), Value(l)) => Value(16 * h + l)
    case _ => NotHex
  }

  function HexDigit(n: nat): byte
    requires n < 16
  {
    if n < 10 then 48 + n else 55 + n
  }

  // The characters read as the digit n: its place among the sixteen, in capital
  // letters or small ones.
  predicate IsDigitOf(c: byte, n: nat)
    requires n < 16
  {
    c as char == "0123456789ABCDEF"[n] || c as char == "0123456789abcdef"[n]
  }

  lemma HexValIff(c: byte, n: nat)
    requires n < 16
    ensures HexVal(c) == Value(n) <==> IsDigitOf(c, n)
    ensures HexDigit(n) as char == "0123456789ABCDEF"[n]
  {
  }

  // Two characters are read as v exactly when they are its two digits.
  lemma ParseHexByteIff(hi: byte, lo: byte, v: byte)
    ensures ParseHexByte(hi, lo) == Value(v) <==> IsDigitOf(hi, v / 16) && IsDigitOf(lo, v % 16)
  {
    HexValIff(hi, v / 16);
    HexValIff(lo, v % 16);
    hide IsDigitOf, HexVal;
    match (HexVal(hi), HexVal(lo))
    case (Value(h), Value(l)) => assert (16 * h + l) / 16 == h && (16 * h + l) % 16 == l;
    case _ =>
  }

  lemma HexRoundTrip(v: byte)
    ensures ParseHexByte(HexDigit(v / 16), HexDigit(v % 16)) == Value(v)
  {
  }
}
