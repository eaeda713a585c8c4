/** Arithmetic in GF(2^8) as section 4 of FIPS 197 defines it, on bytes. */
module GaloisField {
  import opened Bytes

  /** Addition (section 4.1 of FIPS 197). */
  function Add(a: Byte, b: Byte): Byte { a ^ b }

  /** Multiplication by {02} (section 4.2 of FIPS 197): shift left, and reduce by {1b} when a bit falls out. */
  function XTime(b: Byte): Byte { (b << 1) ^ ((0 - (b >> 7)) & 0x1b) }

  /** Multiplication: the sum of the doublings of a that the bits of b select. */
  function Mul(a: Byte, b: Byte): Byte {
    var a1 := XTime(a);
    var a2 := XTime(a1);
    var a3 := XTime(a2);
    var a4 := XTime(a3);
    var a5 := XTime(a4);
    var a6 := XTime(a5);
    var a7 := XTime(a6);
    (a & (0 - (b & 1))) ^ (a1 & (0 - ((b >> 1) & 1))) ^ (a2 & (0 - ((b >> 2) & 1))) ^ (a3 & (0 - ((b >> 3) & 1))) ^
    (a4 & (0 - ((b >> 4) & 1))) ^ (a5 & (0 - ((b >> 5) & 1))) ^ (a6 & (0 - ((b >> 6) & 1))) ^ (a7 & (0 - ((b >> 7) & 1)))
  }

  /** Squaring, which is linear in characteristic two: bit i contributes the field element x^(2i). */
  function Square(x: Byte): Byte {
    (0x01 & (0 - (x & 1))) ^ (0x04 & (0 - ((x >> 1) & 1))) ^ (0x10 & (0 - ((x >> 2) & 1))) ^ (0x40 & (0 - ((x >> 3) & 1))) ^
    (0x1b & (0 - ((x >> 4) & 1))) ^ (0x6c & (0 - ((x >> 5) & 1))) ^ (0xab & (0 - ((x >> 6) & 1))) ^ (0x9a & (0 - ((x >> 7) & 1)))
  }

  /** The multiplicative inverse, x^254, with {00} mapped to itself. */
  function Inverse(x: Byte): Byte {
    var x2 := Square(x);
    var x3 := Mul(x2, x);
    var x12 := Square(Square(x3));
    var x15 := Mul(x12, x3);
    var x240 := Square(Square(Square(Square(x15))));
    Mul(Mul(x240, x12), x2)
  }

  lemma AddLaws(a: Byte, b: Byte, c: Byte)
    ensures Add(a, Add(b, c)) == Add(Add(a, b), c)
    ensures Add(a, b) == Add(b, a)
    ensures Add(a, a) == 0
    ensures Add(a, 0) == a
  {
  }

  lemma XTimeAdd(a: Byte, b: Byte)
    ensures XTime(Add(a, b)) == Add(XTime(a), XTime(b))
  {
  }

  /** FIPS 197 states the reduction as a conditional addition of {1b}. */
  lemma XTimeIsReduction(b: Byte)
    ensures XTime(b) == if b >= 0x80 then Add(b << 1, 0x1b) else b << 1
  {
  }

  lemma LowBit(x: Byte)
    ensures x & 1 == 0 || x & 1 == 1
  {
  }

  lemma SquareIsMulEven(x: Byte)
    requires x & 1 == 0
    ensures Square(x) == Mul(x, x)
  {
  }

  lemma SquareIsMulOdd(x: Byte)
    requires x & 1 == 1
    ensures Square(x) == Mul(x, x)
  {
  }

  lemma SquareIsMul(x: Byte)
    ensures Square(x) == Mul(x, x)
  {
    hide Square, Mul;
    LowBit(x);
    if x & 1 == 0 {
      SquareIsMulEven(x);
    } else {
      SquareIsMulOdd(x);
    }
  }

  lemma InverseIsInverseEven(x: Byte)
    requires x & 1 == 0
    ensures Mul(x, Inverse(x)) == if x == 0 then 0 else 1
  {
    var y := Inverse(x);
    var one := Mul(x, y);
    assert one == if x == 0 then 0 else 1;
  }

  lemma InverseIsInverseOdd(x: Byte)
    requires x & 1 == 1
    ensures Mul(x, Inverse(x)) == 1
  {
    var y := Inverse(x);
    var one := Mul(x, y);
    assert one == 1;
  }

  /** Every byte but {00} times its inverse is {01}. */
  lemma InverseIsInverse(x: Byte)
    requires x != 0
    ensures Mul(x, Inverse(x)) == 1
  {
    hide Mul, Inverse;
    LowBit(x);
    if x & 1 == 0 {
      InverseIsInverseEven(x);
    } else {
      InverseIsInverseOdd(x);
    }
  }

  lemma InverseInvolutionEven(x: Byte)
    requires x & 1 == 0
    ensures Inverse(Inverse(x)) == x
  {
  }

  lemma InverseInvolutionOdd(x: Byte)
    requires x & 1 == 1
    ensures Inverse(Inverse(x)) == x
  {
  }

  lemma InverseInvolution(x: Byte)
    ensures Inverse(Inverse(x)) == x
  {
    hide Inverse;
    LowBit(x);
    if x & 1 == 0 {
      InverseInvolutionEven(x);
    } else {
      InverseInvolutionOdd(x);
    }
  }
}
