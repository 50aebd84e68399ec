/**
  The field with 256 elements, on bytes: addition is exclusive-or and multiplication is
  polynomial multiplication modulo x^8 + x^4 + x^3 + x^2 + 1.

  Multiplication by b is a sum of powers of the linear map XTime ("multiply by x").  Such sums
  commute with each other, and every ring law follows from that.  Inverses come from a^256 == a.
*/
module Gf256 {
  import opened LinearMaps
  import opened Fields
  import opened Bytes

  const ONE := Byte(true, false, false, false, false, false, false, false)

  function Xor(a: Byte, b: Byte): Byte {
    Byte(a.b0 != b.b0, a.b1 != b.b1, a.b2 != b.b2, a.b3 != b.b3, a.b4 != b.b4, a.b5 != b.b5, a.b6 != b.b6, a.b7 != b.b7)
  }

  /** Multiplication by x: a shift, reduced by x^8 == x^4 + x^3 + x^2 + 1. */
  function XTime(a: Byte): Byte {
    Byte(a.b7, a.b0, a.b1 != a.b7, a.b2 != a.b7, a.b3 != a.b7, a.b4, a.b5, a.b6)
  }

  function Bits(b: Byte): seq<bool> {
    [b.b0, b.b1, b.b2, b.b3, b.b4, b.b5, b.b6, b.b7]
  }

  function Sums(): Additive<Byte> { Additive(ZERO, Xor) }

  function Mul(a: Byte, b: Byte): Byte {
    SumPowers(Sums(), XTime, a, Bits(b))
  }

  // ---------- ring laws ----------

  lemma XorExchange(a: Byte, b: Byte, c: Byte, d: Byte)
    ensures Xor(Xor(a, b), Xor(c, d)) == Xor(Xor(a, c), Xor(b, d))
  {}

  lemma XTimeXor(a: Byte, b: Byte)
    ensures XTime(Xor(a, b)) == Xor(XTime(a), XTime(b))
  {}

  lemma XTimeIsLinear()
    ensures Lawful(Sums()) && Linear(Sums(), XTime)
  {
    forall a, b, c, d ensures Xor(Xor(a, b), Xor(c, d)) == Xor(Xor(a, c), Xor(b, d)) { XorExchange(a, b, c, d); }
    forall a, b ensures XTime(Xor(a, b)) == Xor(XTime(a), XTime(b)) { XTimeXor(a, b); }
  }

  function Unit(i: nat): Byte {
    Byte(i == 0, i == 1, i == 2, i == 3, i == 4, i == 5, i == 6, i == 7)
  }

  lemma XTimeUnit(i: nat)
    requires i < 7
    ensures XTime(Unit(i)) == Unit(i + 1)
  {}

  /** The byte with only the bits of b from i on. */
  function High(b: Byte, i: nat): Byte {
    Byte(i <= 0 && b.b0, i <= 1 && b.b1, i <= 2 && b.b2, i <= 3 && b.b3,
         i <= 4 && b.b4, i <= 5 && b.b5, i <= 6 && b.b6, i <= 7 && b.b7)
  }

  lemma HighNext(b: Byte, i: nat)
    requires i < 8
    ensures High(b, i) == if Bits(b)[i] then Xor(Unit(i), High(b, i + 1)) else High(b, i + 1)
  {}

  lemma XorZero(a: Byte)
    ensures Xor(ZERO, a) == a && Xor(a, ZERO) == a
  {}

  lemma {:induction false} SumOfUnits(b: Byte, i: nat)
    requires i < 8
    ensures SumPowers(Sums(), XTime, Unit(i), Bits(b)[i..]) == High(b, i)
    decreases 8 - i
  {
    var s := Bits(b);
    HighNext(b, i);
    XorZero(High(b, i + 1));
    XorZero(Unit(i));
    assert s[i..][1..] == s[i + 1..];
    if i < 7 {
      XTimeUnit(i);
      SumOfUnits(b, i + 1);
    }
  }

  lemma OneMul(b: Byte)
    ensures Mul(ONE, b) == b
  {
    SumOfUnits(b, 0);
    assert Bits(b)[0..] == Bits(b);
  }

  lemma MulCommutative(a: Byte, b: Byte)
    ensures Mul(a, b) == Mul(b, a)
  {
    OneMul(a);
    OneMul(b);
    XTimeIsLinear();
    SumPowersCommute(Sums(), XTime, ONE, Bits(a), Bits(b));
  }

  lemma MulAssociative(a: Byte, b: Byte, c: Byte)
    ensures Mul(a, Mul(b, c)) == Mul(Mul(a, b), c)
  {
    MulCommutative(a, Mul(b, c));
    XTimeIsLinear();
    SumPowersCommute(Sums(), XTime, b, Bits(c), Bits(a));
    MulCommutative(a, b);
  }

  lemma MulDistributive(a: Byte, b: Byte, c: Byte)
    ensures Mul(a, Xor(b, c)) == Xor(Mul(a, b), Mul(a, c))
  {
    MulCommutative(a, Xor(b, c));
    XTimeIsLinear();
    SumPowersLinear(Sums(), XTime, b, c, Bits(a));
    MulCommutative(b, a);
    MulCommutative(c, a);
  }

  lemma ZeroMul(b: Byte)
    ensures Mul(b, ZERO) == ZERO && Mul(ZERO, b) == ZERO
  {
    MulCommutative(b, ZERO);
    XTimeIsLinear();
    SumPowersOfZero(Sums(), XTime, Bits(b));
  }

  // ---------- inverses ----------

  /** Squaring is linear: bit i contributes x^(2i). */
  function Square(a: Byte): Byte {
    Byte(((a.b0 != a.b4) != a.b6) != a.b7, a.b7, ((a.b1 != a.b4) != a.b5) != a.b6, a.b4 != a.b6,
         ((a.b2 != a.b4) != a.b5) != a.b7, a.b5, (a.b3 != a.b5) != a.b6, a.b6)
  }

  lemma SquareXorUnit(a: Byte, i: nat)
    requires i < 8
    ensures Square(Xor(a, Unit(i))) == Xor(Square(a), Square(Unit(i)))
  {
    if i < 4 { SquareXorLowUnit(a, i); } else { SquareXorHighUnit(a, i); }
  }

  lemma SquareXorLowUnit(a: Byte, i: nat)
    requires i < 4
    ensures Square(Xor(a, Unit(i))) == Xor(Square(a), Square(Unit(i)))
  {}

  lemma SquareXorHighUnit(a: Byte, i: nat)
    requires 4 <= i < 8
    ensures Square(Xor(a, Unit(i))) == Xor(Square(a), Square(Unit(i)))
  {
    if i < 6 { SquareXorUnit45(a, i); } else { SquareXorUnit67(a, i); }
  }

  lemma SquareXorUnit45(a: Byte, i: nat)
    requires 4 <= i < 6
    ensures Square(Xor(a, Unit(i))) == Xor(Square(a), Square(Unit(i)))
  {}

  lemma SquareXorUnit67(a: Byte, i: nat)
    requires 6 <= i < 8
    ensures Square(Xor(a, Unit(i))) == Xor(Square(a), Square(Unit(i)))
  {}

  /** The square of a sum is the sum of the squares: the cross terms cancel. */
  lemma MulXor(a: Byte, b: Byte)
    ensures Mul(Xor(a, b), Xor(a, b)) == Xor(Mul(a, a), Mul(b, b))
  {
    var s := Xor(a, b);
    MulDistributive(s, a, b);
    MulCommutative(s, a);
    MulCommutative(s, b);
    MulDistributive(a, a, b);
    MulDistributive(b, a, b);
    MulCommutative(a, b);
    XorExchange(Mul(a, a), Mul(a, b), Mul(a, b), Mul(b, b));
    XorCancel(Mul(a, a), Mul(a, b), Mul(b, b));
  }

  lemma XorCancel(a: Byte, b: Byte, c: Byte)
    ensures Xor(Xor(a, b), Xor(b, c)) == Xor(a, c)
  {}

  lemma SquareOfUnit(i: nat)
    requires i < 8
    ensures Square(Unit(i)) == Mul(Unit(i), Unit(i))
  {
    SumPowersUnrolled(Sums(), XTime, Unit(i), Bits(Unit(i)));
  }

  ghost predicate SquareAgrees(a: Byte) { Square(a) == Mul(a, a) }

  /** The byte with only the bits of a below i. */
  function Low(a: Byte, i: nat): Byte {
    Byte(i > 0 && a.b0, i > 1 && a.b1, i > 2 && a.b2, i > 3 && a.b3, i > 4 && a.b4, i > 5 && a.b5, i > 6 && a.b6, i > 7 && a.b7)
  }

  lemma LowNext(a: Byte, i: nat)
    requires i < 8
    ensures Low(a, i + 1) == if Bits(a)[i] then Xor(Low(a, i), Unit(i)) else Low(a, i)
  {}

  lemma SquareAddUnit(a: Byte, i: nat, bit: bool)
    requires i < 8 && SquareAgrees(a)
    ensures SquareAgrees(if bit then Xor(a, Unit(i)) else a)
  {
    SquareOfUnit(i);
    SquareXorUnit(a, i);
    MulXor(a, Unit(i));
  }

  lemma {:induction false} SquareLow(a: Byte, i: nat)
    requires i <= 8
    ensures SquareAgrees(Low(a, i))
  {
    if i == 0 {
      ZeroMul(ZERO);
    } else {
      SquareLow(a, i - 1);
      LowNext(a, i - 1);
      SquareAddUnit(Low(a, i - 1), i - 1, Bits(a)[i - 1]);
    }
  }

  lemma SquareIsMul(a: Byte)
    ensures SquareAgrees(a)
  {
    SquareLow(a, 8);
  }

  /** a^256 == a. */
  lemma Frobenius(a: Byte)
    ensures Square(Square(Square(Square(Square(Square(Square(Square(a)))))))) == a
  {}

  lemma Idempotents(e: Byte)
    requires Square(e) == e
    ensures e == ZERO || e == ONE
  {}

  /** a^254, as the product of a^2, a^4, ..., a^128. */
  function Inverse(a: Byte): Byte { Product(Ring(), Squares(Square, a, 7)) }

  /** The operations without an inverse. */
  function Ring(): Field<Byte> { Field(ZERO, ONE, Xor, Mul, (a: Byte) => a) }

  lemma FrobeniusIterated(a: Byte)
    ensures Iterate(Square, a, 8) == a
  {
    Frobenius(a);
  }

  lemma RingIsCommutativeMonoid()
    ensures CommutativeMonoid(Ring())
  {
    forall b, c ensures Mul(b, c) == Mul(c, b) { MulCommutative(b, c); }
    forall b, c, d ensures Mul(Mul(b, c), d) == Mul(b, Mul(c, d)) { MulAssociative(b, c, d); }
  }

  lemma RingSquaring()
    ensures Squaring(Ring(), Square)
  {
    forall e ensures Square(e) == Mul(e, e) { SquareIsMul(e); }
    forall e | Square(e) == e ensures e == ZERO || e == ONE { Idempotents(e); }
  }

  lemma MulInverse(a: Byte)
    requires a != ZERO
    ensures Mul(a, Inverse(a)) == ONE
  {
    RingIsCommutativeMonoid();
    RingSquaring();
    FrobeniusIterated(a);
    ZeroMul(a);
    InverseBySquares(Ring(), Square, a, 7);
  }
}

/** The operations of Gf256 obey the field laws. */
module Gf256Field {
  import opened Bytes
  import opened Fields
  import opened Gf256

  function Gf(): Field<Byte> { Field(ZERO, ONE, Xor, Mul, Inverse) }

  lemma GfAddition()
    ensures AdditionLaws(Gf())
  {}

  lemma GfMultiplication()
    ensures MultiplicationLaws(Gf())
  {
    forall a ensures Mul(ONE, a) == a { OneMul(a); }
    forall a | a != ZERO ensures Mul(a, Inverse(a)) == ONE { MulInverse(a); }
    forall a, b ensures Mul(a, b) == Mul(b, a) { MulCommutative(a, b); }
    forall a, b, c ensures Mul(Mul(a, b), c) == Mul(a, Mul(b, c)) { MulAssociative(a, b, c); }
  }

  lemma GfDistributes()
    ensures Distributes(Gf())
  {
    forall a, b, c ensures Mul(a, Xor(b, c)) == Xor(Mul(a, b), Mul(a, c)) { MulDistributive(a, b, c); }
  }

  lemma GfIsField()
    ensures IsField(Gf())
  {
    GfAddition();
    GfMultiplication();
    GfDistributes();
  }
}

/** All 256 bytes, as distinct evaluation points. */
module Gf256Points {
  import opened Bytes

  function BinaryDigits(i: nat, n: nat): (s: seq<bool>)
    ensures |s| == n
  {
    if n == 0 then [] else [i % 2 == 1] + BinaryDigits(i / 2, n - 1)
  }

  function PowerOfTwo(n: nat): nat { if n == 0 then 1 else 2 * PowerOfTwo(n - 1) }

  lemma {:induction false} DigitsDiffer(i: nat, j: nat, n: nat)
    requires i < PowerOfTwo(n) && j < PowerOfTwo(n) && i != j
    ensures BinaryDigits(i, n) != BinaryDigits(j, n)
  {
    if i % 2 == j % 2 {
      DigitsDiffer(i / 2, j / 2, n - 1);
      assert BinaryDigits(i, n)[1..] == BinaryDigits(i / 2, n - 1);
      assert BinaryDigits(j, n)[1..] == BinaryDigits(j / 2, n - 1);
    } else {
      assert BinaryDigits(i, n)[0] != BinaryDigits(j, n)[0];
    }
  }

  function FromDigits(s: seq<bool>): Byte
    requires |s| == 8
  {
    Byte(s[0], s[1], s[2], s[3], s[4], s[5], s[6], s[7])
  }

  function Point(i: nat): Byte { FromDigits(BinaryDigits(i, 8)) }

  lemma FromDigitsInjective(s: seq<bool>, t: seq<bool>)
    requires |s| == |t| == 8 && FromDigits(s) == FromDigits(t)
    ensures s == t
  {}

  lemma PointsDiffer(i: nat, j: nat)
    requires i < 256 && j < 256 && i != j
    ensures Point(i) != Point(j)
  {
    if Point(i) == Point(j) {
      FromDigitsInjective(BinaryDigits(i, 8), BinaryDigits(j, 8));
      DigitsDiffer(i, j, 8);
    }
  }
}
