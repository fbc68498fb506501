/**
 The field GF(2^16) used by the chunked transport: words of 16 bits modulo
 x^16 + x^12 + x^3 + x + 1 (0x1100b).
 */
module Gf16 {
  import opened Gf2

  type Gf = w: Bits | |w| == 16 witness Gf2.Zeros(16)
  type Word32 = w: Bits | |w| == 32 witness Gf2.Zeros(32)

  /** The word whose set bits are the given ones. */
  function Word(bits: set<nat>): (w: Gf)
    ensures forall i | 0 <= i < 16 :: w[i] == (i in bits)
  {
    seq(16, i => i in bits)
  }

  /** The reducing polynomial 0x1100b without its leading bit. */
  const TAIL: Gf := Word({0, 1, 3, 12})

  predicate TailBit(j: int) {
    j == 0 || j == 1 || j == 3 || j == 12
  }

  const ZERO: Gf := Zeros(16)
  const ONE: Gf := Unit(0, 16)

  function Add(a: Gf, b: Gf): (c: Gf) {
    Xor(a, b)
  }

  function Times(a: Gf, b: Gf): (c: Gf) {
    Mul(a, b, TAIL)
  }

  function Square(a: Gf): (c: Gf) {
    Times(a, a)
  }

  /** a^(2^k). */
  function Frobenius(a: Gf, k: nat): (c: Gf) {
    if k == 0 then a else Square(Frobenius(a, k - 1))
  }

  /** The product of a^(2^i) for lo <= i < lo + n. */
  function FrobeniusProduct(a: Gf, lo: nat, n: nat): (c: Gf) {
    if n == 0 then ONE else Times(Frobenius(a, lo + n - 1), FrobeniusProduct(a, lo, n - 1))
  }

  /** a^(2^16 - 2), the exponent being 2 + 4 + ... + 2^15. */
  function Inverse(a: Gf): (c: Gf) {
    FrobeniusProduct(a, 1, 15)
  }

  function Over(a: Gf, b: Gf): (c: Gf) {
    Times(a, Inverse(b))
  }

  // ----- the loops of the source -----

  /** A left shift inside a fixed-width word. */
  function Shl(w: Bits, k: nat): (c: Bits)
    requires k <= |w|
    ensures |c| == |w|
  {
    Zeros(k) + w[..|w| - k]
  }

  /** Carry-less long multiplication: every set bit of `b` adds a shifted copy of `a`. */
  method PolyMul(a: Gf, b: Gf) returns (acc: Word32)
    ensures acc == Clmul(a, b)
  {
    acc := Zeros(32);
    var av: Word32 := a + Zeros(16);
    assert Partial(a, b, 0) == acc;
    for shift := 0 to 16
      invariant acc == Partial(a, b, shift)
    {
      PartialStep(a, b, shift);
      if b[shift] {
        acc := Xor(acc, Shl(av, shift));
      }
    }
    assert b[..16] == b;
  }

  /** The product of `a` and the low `k` bits of `b`, as a 32-bit word. */
  function Partial(a: Gf, b: Gf, k: nat): (c: Word32)
    requires k <= 16
  {
    Clmul(a, b[..k]) + Zeros(16 - k)
  }

  lemma PartialStep(a: Gf, b: Gf, k: nat)
    requires k < 16
    ensures Partial(a, b, k + 1)
         == if b[k] then Xor(Partial(a, b, k), Shl(a + Zeros(16), k)) else Partial(a, b, k)
  {
    hide Clmul, Xor, Shl, When;
    ClmulSnoc(a, b[..k], b[k]);
    assert b[..k + 1] == b[..k] + [b[k]];
    AddShifted(Clmul(a, b[..k]), a, b[k], k);
  }

  lemma AddShifted(c: Bits, a: Gf, bit: bool, k: nat)
    requires k < 16 && |c| == 16 + k
    ensures Xor(c + [false], When(bit, Zeros(k) + a + [false])) + Zeros(15 - k)
         == if bit then Xor(c + Zeros(16 - k), Shl(a + Zeros(16), k)) else c + Zeros(16 - k)
  {
    assert Shl(a + Zeros(16), k) == Zeros(k) + a + Zeros(16 - k);
  }

  /** Bit-by-bit reduction: bits 31 down to 16 are cleared with shifted copies of the modulus. */
  method GfReduce(product: Word32) returns (r: Gf)
    ensures r == Residue(product, TAIL)
  {
    var v := product;
    var poly: Word32 := TAIL + [true] + Zeros(15);
    var bit := 31;
    while bit >= 16
      invariant 15 <= bit <= 31 && |v| == 32
      invariant Residue(v, TAIL) == Residue(product, TAIL)
      invariant ClearAbove(v, bit)
    {
      if v[bit] {
        ReduceStep(v, bit);
        v := Xor(v, Shl(poly, bit - 16));
      }
      bit := bit - 1;
    }
    ReducedIsResidue(v);
    r := v[..16];
  }

  predicate ClearAbove(v: Word32, bit: int) {
    forall i | 0 <= i < 32 && bit < i :: !v[i]
  }

  lemma ReduceStep(v: Word32, bit: nat)
    requires 16 <= bit < 32 && v[bit] && ClearAbove(v, bit)
    ensures ClearAbove(Xor(v, Shl(TAIL + [true] + Zeros(15), bit - 16)), bit - 1)
    ensures Residue(Xor(v, Shl(TAIL + [true] + Zeros(15), bit - 16)), TAIL) == Residue(v, TAIL)
  {
    var k := bit - 16;
    var m := TAIL + [true];
    var s := Shl(m + Zeros(15), k);
    ShlModulus(k);
    ZeroResidue(k, 15 - k, TAIL);
    hide *;
    AddZeroResidue(v, s, TAIL);
  }

  lemma ShlModulus(k: nat)
    requires k < 16
    ensures Shl(TAIL + [true] + Zeros(15), k) == (Zeros(k) + (TAIL + [true])) + Zeros(15 - k)
  {
  }

  lemma ReducedIsResidue(v: Word32)
    requires ClearAbove(v, 15)
    ensures Residue(v, TAIL) == v[..16]
  {
    assert v == v[..16] + Zeros(16);
    hide Mul;
    MulHighZeros(ONE, v[..16], 16, TAIL);
    OneMul(v[..16], TAIL);
  }

  /** The field product of the source is the product modulo 0x1100b. */
  method GfMul(a: Gf, b: Gf) returns (r: Gf)
    ensures r == Times(a, b)
  {
    var product := PolyMul(a, b);
    r := GfReduce(product);
    ResidueClmul(a, b, TAIL);
    OneMul(a, TAIL);
  }

  /** Division by square-and-multiply: the quotient times the divisor is the dividend. */
  method GfDiv(a: Gf, b: Gf) returns (out: Gf)
    ensures out == Over(a, b)
    ensures b != ZERO ==> Times(out, b) == a
    ensures b == ZERO ==> out == ZERO
  {
    var square := GfMul(b, b);
    assert Frobenius(b, 1) == Square(Frobenius(b, 0)) == Square(b);
    out := a;
    TimesOne(a);
    for i := 1 to 16
      invariant square == Frobenius(b, i)
      invariant out == Times(a, FrobeniusProduct(b, 1, i - 1))
    {
      ghost var before := FrobeniusProduct(b, 1, i - 1);
      TimesComm(square, out);
      TimesAssoc(a, before, square);
      TimesComm(before, square);
      out := GfMul(square, out);
      square := GfMul(square, square);
    }
    OverTimes(a, b);
  }

  // ----- ring laws -----

  lemma AddLaws(a: Gf, b: Gf, c: Gf)
    ensures Add(a, b) == Add(b, a)
    ensures Add(Add(a, b), c) == Add(a, Add(b, c))
    ensures Add(a, ZERO) == a
    ensures Add(a, a) == ZERO
    ensures Add(a, b) == ZERO <==> a == b
  {
    if Add(a, b) == ZERO {
      assert forall i | 0 <= i < 16 :: !Add(a, b)[i];
      assert a == b;
    }
  }

  lemma TimesComm(a: Gf, b: Gf)
    ensures Times(a, b) == Times(b, a)
  {
    MulCommutes(a, b, TAIL);
  }

  lemma TimesAssoc(a: Gf, b: Gf, c: Gf)
    ensures Times(Times(a, b), c) == Times(a, Times(b, c))
  {
    MulAssociates(a, b, c, TAIL);
  }

  lemma TimesOne(a: Gf)
    ensures Times(a, ONE) == a && Times(ONE, a) == a
    ensures Times(a, ZERO) == ZERO && Times(ZERO, a) == ZERO
  {
    OneMul(a, TAIL);
    ZerosMul(16, a, TAIL);
    MulZeros(a, 16, TAIL);
  }

  lemma TimesAdd(a: Gf, b: Gf, c: Gf)
    ensures Times(a, Add(b, c)) == Add(Times(a, b), Times(a, c))
    ensures Times(Add(b, c), a) == Add(Times(b, a), Times(c, a))
  {
    MulLinearRight(a, b, c, TAIL);
    MulLinearLeft(b, c, a, TAIL);
  }

  // ----- the inverse -----

  /** Bit `j` of a square, as a parity of bits of the argument. */
  predicate SquareRow(a: Gf, j: nat)
    requires j < 16
  {
    if j == 0 then (((a[0] != a[8]) != a[10]) != a[12]) != a[14]
    else if j == 1 then (((a[8] != a[10]) != a[12]) != a[14]) != a[15]
    else if j == 2 then ((a[1] != a[9]) != a[11]) != a[13]
    else if j == 3 then ((((((a[8] != a[9]) != a[10]) != a[11]) != a[12]) != a[13]) != a[14]) != a[15]
    else if j == 4 then (((a[2] != a[10]) != a[12]) != a[14]) != a[15]
    else if j == 5 then (((((a[9] != a[10]) != a[11]) != a[12]) != a[13]) != a[14]) != a[15]
    else if j == 6 then ((a[3] != a[11]) != a[13]) != a[15]
    else if j == 7 then ((((a[10] != a[11]) != a[12]) != a[13]) != a[14]) != a[15]
    else if j == 8 then (a[4] != a[12]) != a[14]
    else if j == 9 then (((a[11] != a[12]) != a[13]) != a[14]) != a[15]
    else if j == 10 then (a[5] != a[13]) != a[15]
    else if j == 11 then ((a[12] != a[13]) != a[14]) != a[15]
    else if j == 12 then ((a[6] != a[8]) != a[10]) != a[12]
    else if j == 13 then a[13] != a[14]
    else if j == 14 then ((a[7] != a[9]) != a[11]) != a[13]
    else a[14] != a[15]
  }

  function SquareBits(a: Gf): (c: Gf)
    ensures forall j | 0 <= j < 16 :: c[j] == SquareRow(a, j)
  {
    seq(16, j requires 0 <= j < 16 => SquareRow(a, j))
  }

  lemma SquareRowAdditive(a: Gf, b: Gf, c: Gf, j: nat)
    requires forall i | 0 <= i < 16 :: c[i] == (a[i] != b[i])
    requires j < 16
    ensures SquareRow(c, j) == (SquareRow(a, j) != SquareRow(b, j))
  {
  }

  lemma SquareBitsAdditive(a: Gf, b: Gf)
    ensures SquareBits(Add(a, b)) == Add(SquareBits(a), SquareBits(b))
  {
    hide SquareRow, SquareBits;
    forall j | 0 <= j < 16
      ensures SquareBits(Add(a, b))[j] == Add(SquareBits(a), SquareBits(b))[j]
    {
      SquareRowAdditive(a, b, Add(a, b), j);
    }
  }

  /** Squaring x * x^k moves the square two places up. */
  lemma SquareBitsStep(k: nat)
    requires k < 15
    ensures SquareBits(Unit(k + 1, 16)) == XTimes(XTimes(SquareBits(Unit(k, 16)), TAIL), TAIL)
  {
    hide SquareRow, SquareBits, XTimes, Unit;
    var s := SquareBits(Unit(k, 16));
    var t := XTimes(s, TAIL);
    forall j | 0 <= j < 16
      ensures SquareBits(Unit(k + 1, 16))[j] == XTimes(t, TAIL)[j]
    {
      XTimesAt(t, j);
      XTimesAt(s, 15);
      if j > 0 {
        XTimesAt(s, j - 1);
      }
      SquareRowStep(Unit(k, 16), Unit(k + 1, 16), k, j);
    }
  }

  lemma SquareRowStep(u: Gf, v: Gf, k: nat, j: nat)
    requires k < 15 && j < 16
    requires forall i | 0 <= i < 16 :: u[i] == (i == k) && v[i] == (i == k + 1)
    ensures SquareRow(v, j)
         == ((j > 0 && ((j > 1 && SquareRow(u, j - 2)) != (SquareRow(u, 15) && TailBit(j - 1))))
             != ((SquareRow(u, 14) != (SquareRow(u, 15) && TailBit(15))) && TailBit(j)))
  {
  }

  lemma XTimesAt(a: Gf, j: nat)
    requires j < 16
    ensures XTimes(a, TAIL)[j] == ((j > 0 && a[j - 1]) != (a[15] && TailBit(j)))
  {
  }

  lemma {:induction false} SquareUnit(k: nat)
    requires k < 16
    ensures Square(Unit(k, 16)) == SquareBits(Unit(k, 16))
  {
    if k == 0 {
      OneMul(ONE, TAIL);
      SquareBitsZero();
    } else {
      hide SquareBits, SquareRow;
      var u := Unit(k - 1, 16);
      SquareUnit(k - 1);
      XTimesUnit(k - 1, TAIL);
      MulXTimes(u, XTimes(u, TAIL), TAIL);
      MulCommutes(u, XTimes(u, TAIL), TAIL);
      MulXTimes(u, u, TAIL);
      SquareBitsStep(k - 1);
    }
  }

  lemma SquareBitsZero()
    ensures SquareBits(ZERO) == ZERO && SquareBits(ONE) == ONE
  {
  }

  lemma {:induction false} SquareIsSquareBits(a: Gf, k: nat)
    requires k <= 16 && forall i | k <= i < 16 :: !a[i]
    ensures Square(a) == SquareBits(a)
    decreases k
  {
    hide SquareRow, SquareBits;
    if k == 0 {
      assert a == ZERO;
      TimesOne(ZERO);
      SquareBitsZero();
    } else {
      var low := a[k - 1 := false];
      SquareIsSquareBits(low, k - 1);
      if a[k - 1] {
        assert a == Add(low, Unit(k - 1, 16));
        SquareAdditive(low, Unit(k - 1, 16), TAIL);
        SquareBitsAdditive(low, Unit(k - 1, 16));
        SquareUnit(k - 1);
      } else {
        assert a == low;
      }
    }
  }

  lemma SquareAt(a: Gf)
    ensures Square(a) == SquareBits(a)
  {
    SquareIsSquareBits(a, 16);
  }

  /** The only solutions of e^2 = e are zero and one. */
  lemma IdempotentIsTrivial(e: Gf)
    requires Square(e) == e
    ensures e == ZERO || e == ONE
  {
    SquareAt(e);
    assert forall j | 0 <= j < 16 :: e[j] == SquareRow(e, j);
    assert forall i | 1 <= i < 16 :: !e[i];
    assert e == if e[0] then ONE else ZERO;
  }

  lemma SquaresTo(a: Gf, b: Gf)
    requires forall j | 0 <= j < 16 :: SquareRow(a, j) == b[j]
    ensures Square(a) == b
  {
    hide SquareRow;
    SquareAt(a);
  }

  /** The sixteen squarings of x come back to x. */
  lemma FrobeniusX()
    ensures Frobenius(Unit(1, 16), 16) == Unit(1, 16)
  {
    var x := Unit(1, 16);
    assert x == Word({1});
    hide *;
    FrobeniusZero(x);
    FrobeniusStep(x, 0);
    SquareOf1();
    FrobeniusStep(x, 1);
    SquareOf2();
    FrobeniusStep(x, 2);
    SquareOf3();
    FrobeniusStep(x, 3);
    SquareOf4();
    FrobeniusStep(x, 4);
    SquareOf5();
    FrobeniusStep(x, 5);
    SquareOf6();
    FrobeniusStep(x, 6);
    SquareOf7();
    FrobeniusStep(x, 7);
    SquareOf8();
    FrobeniusStep(x, 8);
    SquareOf9();
    FrobeniusStep(x, 9);
    SquareOf10();
    FrobeniusStep(x, 10);
    SquareOf11();
    FrobeniusStep(x, 11);
    SquareOf12();
    FrobeniusStep(x, 12);
    SquareOf13();
    FrobeniusStep(x, 13);
    SquareOf14();
    FrobeniusStep(x, 14);
    SquareOf15();
    FrobeniusStep(x, 15);
    SquareOf16();
  }

  lemma SquareOf1()
    ensures Square(Word({1})) == Word({2})
  {
    hide Square, SquareBits;
    SquaresTo(Word({1}), Word({2}));
  }

  lemma SquareOf2()
    ensures Square(Word({2})) == Word({4})
  {
    hide Square, SquareBits;
    SquaresTo(Word({2}), Word({4}));
  }

  lemma SquareOf3()
    ensures Square(Word({4})) == Word({8})
  {
    hide Square, SquareBits;
    SquaresTo(Word({4}), Word({8}));
  }

  lemma SquareOf4()
    ensures Square(Word({8})) == Word({0, 1, 3, 12})
  {
    hide Square, SquareBits;
    SquaresTo(Word({8}), Word({0, 1, 3, 12}));
  }

  lemma SquareOf5()
    ensures Square(Word({0, 1, 3, 12})) == Word({1, 2, 3, 4, 5, 6, 7, 8, 9, 11, 12})
  {
    hide Square, SquareBits;
    SquaresTo(Word({0, 1, 3, 12}), Word({1, 2, 3, 4, 5, 6, 7, 8, 9, 11, 12}));
  }

  lemma SquareOf6()
    ensures Square(Word({1, 2, 3, 4, 5, 6, 7, 8, 9, 11, 12})) == Word({2, 5, 10, 11, 12, 14})
  {
    hide Square, SquareBits;
    SquaresTo(Word({1, 2, 3, 4, 5, 6, 7, 8, 9, 11, 12}), Word({2, 5, 10, 11, 12, 14}));
  }

  lemma SquareOf7()
    ensures Square(Word({2, 5, 10, 11, 12, 14})) == Word({0, 1, 2, 6, 9, 10, 13, 14, 15})
  {
    hide Square, SquareBits;
    SquaresTo(Word({2, 5, 10, 11, 12, 14}), Word({0, 1, 2, 6, 9, 10, 13, 14, 15}));
  }

  lemma SquareOf8()
    ensures Square(Word({0, 1, 2, 6, 9, 10, 13, 14, 15})) == Word({0, 1, 2, 3, 5, 8, 9, 11})
  {
    hide Square, SquareBits;
    SquaresTo(Word({0, 1, 2, 6, 9, 10, 13, 14, 15}), Word({0, 1, 2, 3, 5, 8, 9, 11}));
  }

  lemma SquareOf9()
    ensures Square(Word({0, 1, 2, 3, 5, 8, 9, 11})) == Word({1, 2, 3, 4, 7, 9, 10, 12})
  {
    hide Square, SquareBits;
    SquaresTo(Word({0, 1, 2, 3, 5, 8, 9, 11}), Word({1, 2, 3, 4, 7, 9, 10, 12}));
  }

  lemma SquareOf10()
    ensures Square(Word({1, 2, 3, 4, 7, 9, 10, 12})) == Word({3, 4, 5, 6, 9, 11})
  {
    hide Square, SquareBits;
    SquaresTo(Word({1, 2, 3, 4, 7, 9, 10, 12}), Word({3, 4, 5, 6, 9, 11}));
  }

  lemma SquareOf11()
    ensures Square(Word({3, 4, 5, 6, 9, 11})) == Word({7, 8, 9, 10, 12})
  {
    hide Square, SquareBits;
    SquaresTo(Word({3, 4, 5, 6, 9, 11}), Word({7, 8, 9, 10, 12}));
  }

  lemma SquareOf12()
    ensures Square(Word({7, 8, 9, 10, 12})) == Word({0, 1, 2, 5, 8, 9, 11, 12})
  {
    hide Square, SquareBits;
    SquaresTo(Word({7, 8, 9, 10, 12}), Word({0, 1, 2, 5, 8, 9, 11, 12}));
  }

  lemma SquareOf13()
    ensures Square(Word({0, 1, 2, 5, 8, 9, 11, 12})) == Word({0, 2, 5, 6, 8, 10, 11})
  {
    hide Square, SquareBits;
    SquaresTo(Word({0, 1, 2, 5, 8, 9, 11, 12}), Word({0, 2, 5, 6, 8, 10, 11}));
  }

  lemma SquareOf14()
    ensures Square(Word({0, 2, 5, 6, 8, 10, 11})) == Word({0, 2, 3, 6, 9, 10, 12, 14})
  {
    hide Square, SquareBits;
    SquaresTo(Word({0, 2, 5, 6, 8, 10, 11}), Word({0, 2, 3, 6, 9, 10, 12, 14}));
  }

  lemma SquareOf15()
    ensures Square(Word({0, 2, 3, 6, 9, 10, 12, 14})) == Word({1, 2, 6, 7, 12, 13, 14, 15})
  {
    hide Square, SquareBits;
    SquaresTo(Word({0, 2, 3, 6, 9, 10, 12, 14}), Word({1, 2, 6, 7, 12, 13, 14, 15}));
  }

  lemma SquareOf16()
    ensures Square(Word({1, 2, 6, 7, 12, 13, 14, 15})) == Word({1})
  {
    hide Square, SquareBits;
    SquaresTo(Word({1, 2, 6, 7, 12, 13, 14, 15}), Word({1}));
  }

  lemma FrobeniusStep(a: Gf, k: nat)
    ensures Frobenius(a, k + 1) == Square(Frobenius(a, k)) == Times(Frobenius(a, k), Frobenius(a, k))
  {
  }

  lemma {:induction false} FrobeniusTimes(a: Gf, b: Gf, k: nat)
    ensures Frobenius(Times(a, b), k) == Times(Frobenius(a, k), Frobenius(b, k))
    decreases k
  {
    hide Square, Times;
    if k > 0 {
      FrobeniusTimes(a, b, k - 1);
      SwapMiddle(Frobenius(a, k - 1), Frobenius(b, k - 1));
    }
  }

  lemma SwapMiddle(a: Gf, b: Gf)
    ensures Square(Times(a, b)) == Times(Square(a), Square(b))
  {
    hide Times;
    TimesAssoc(a, b, Times(a, b));
    TimesAssoc(b, a, b);
    TimesComm(b, a);
    TimesAssoc(a, b, b);
    TimesAssoc(a, a, Times(b, b));
  }

  lemma SquareAdd(a: Gf, b: Gf)
    ensures Square(Add(a, b)) == Add(Square(a), Square(b))
  {
    SquareAdditive(a, b, TAIL);
  }

  lemma SquareTrivial()
    ensures Square(ONE) == ONE && Square(ZERO) == ZERO
  {
    TimesOne(ONE);
    TimesOne(ZERO);
  }

  lemma {:induction false} FrobeniusXor(a: Gf, b: Gf, k: nat)
    ensures Frobenius(Add(a, b), k) == Add(Frobenius(a, k), Frobenius(b, k))
    decreases k
  {
    hide Square, Add;
    if k > 0 {
      FrobeniusXor(a, b, k - 1);
      SquareAdd(Frobenius(a, k - 1), Frobenius(b, k - 1));
    }
  }

  lemma FixedByX(c: Gf)
    requires Frobenius(c, 16) == c
    ensures Frobenius(XTimes(c, TAIL), 16) == XTimes(c, TAIL)
  {
    hide Frobenius;
    FrobeniusX();
    FrobeniusTimes(Unit(1, 16), c, 16);
    XTimesUnit(0, TAIL);
    MulXTimes(ONE, c, TAIL);
    OneMul(c, TAIL);
  }

  lemma {:induction false} FixedCombination(c: Gf, b: Bits)
    requires Frobenius(c, 16) == c
    ensures Frobenius(Mul(c, b, TAIL), 16) == Mul(c, b, TAIL)
    decreases |b|
  {
    hide Frobenius;
    FrobeniusXor(ZERO, ZERO, 16);
    AddLaws(ZERO, ZERO, ZERO);
    AddLaws(Frobenius(ZERO, 16), ZERO, ZERO);
    if b != [] {
      FixedByX(c);
      FixedCombination(XTimes(c, TAIL), b[1..]);
      FrobeniusXor(When(b[0], c), Mul(XTimes(c, TAIL), b[1..], TAIL), 16);
    }
  }

  /** Every element is a root of a^(2^16) = a. */
  lemma FrobeniusIsIdentity(a: Gf)
    ensures Frobenius(a, 16) == a
  {
    FrobeniusOne(16);
    FixedCombination(ONE, a);
    OneMul(a, TAIL);
  }

  lemma {:induction false} FrobeniusOne(k: nat)
    ensures Frobenius(ONE, k) == ONE
  {
    hide Square;
    SquareTrivial();
    if k > 0 {
      FrobeniusOne(k - 1);
    }
  }

  /** a * (a * a^2 * ... * a^(2^(k-1))) = a^(2^k). */
  lemma {:induction false} ProductTelescopes(a: Gf, k: nat)
    ensures Times(a, FrobeniusProduct(a, 0, k)) == Frobenius(a, k)
  {
    hide Times;
    if k == 0 {
      TimesOne(a);
    } else {
      FrobeniusStep(a, k - 1);
      var f, rest := Frobenius(a, k - 1), FrobeniusProduct(a, 0, k - 1);
      ProductTelescopes(a, k - 1);
      TimesAssoc(a, f, rest);
      TimesComm(a, f);
      TimesAssoc(f, a, rest);
    }
  }

  lemma {:induction false} ProductShift(a: Gf, lo: nat, n: nat)
    ensures Square(FrobeniusProduct(a, lo, n)) == FrobeniusProduct(a, lo + 1, n)
    ensures Times(Frobenius(a, lo), FrobeniusProduct(a, lo + 1, n)) == FrobeniusProduct(a, lo, n + 1)
    decreases n
  {
    TimesOne(ONE);
    TimesOne(Frobenius(a, lo));
    hide Times;
    if n > 0 {
      var f, rest := Frobenius(a, lo + n), FrobeniusProduct(a, lo + 1, n - 1);
      ProductShift(a, lo, n - 1);
      SwapMiddle(Frobenius(a, lo + n - 1), FrobeniusProduct(a, lo, n - 1));
      TimesAssoc(Frobenius(a, lo), f, rest);
      TimesComm(Frobenius(a, lo), f);
      TimesAssoc(f, Frobenius(a, lo), rest);
    }
  }

  /** Every nonzero element has the inverse a^(2^16 - 2). */
  lemma InverseLaw(a: Gf)
    requires a != ZERO
    ensures Times(a, Inverse(a)) == ONE
  {
    hide *;
    var e := FrobeniusProduct(a, 0, 16);
    assert e == Times(a, Inverse(a)) by {
      ProductShift(a, 0, 15);
      FrobeniusZero(a);
      InverseIs(a);
    }
    FrobeniusIsIdentity(a);
    assert Square(e) == e by {
      ProductShift(a, 0, 16);
      ProductLast(a, 1, 15);
      InverseIs(a);
    }
    IdempotentIsTrivial(e);
    ProductTelescopes(a, 16);
    TimesOne(a);
  }

  lemma FrobeniusZero(a: Gf)
    ensures Frobenius(a, 0) == a
  {
  }

  lemma InverseIs(a: Gf)
    ensures Inverse(a) == FrobeniusProduct(a, 1, 15)
  {
  }

  lemma ProductLast(a: Gf, lo: nat, n: nat)
    ensures FrobeniusProduct(a, lo, n + 1) == Times(Frobenius(a, lo + n), FrobeniusProduct(a, lo, n))
  {
  }

  /** Division undoes multiplication, and dividing by zero gives zero. */
  lemma OverTimes(a: Gf, b: Gf)
    ensures b != ZERO ==> Times(Over(a, b), b) == a && Over(Times(a, b), b) == a
    ensures b == ZERO ==> Over(a, b) == ZERO
  {
    if b != ZERO {
      hide Times, Inverse;
      InverseLaw(b);
      TimesComm(b, Inverse(b));
      TimesAssoc(a, Inverse(b), b);
      TimesAssoc(a, b, Inverse(b));
      TimesOne(a);
    } else {
      InverseOfZero();
      TimesOne(a);
    }
  }

  lemma InverseOfZero()
    ensures Inverse(ZERO) == ZERO
  {
    FrobeniusOfZero(15);
    ProductLast(ZERO, 1, 14);
    TimesOne(FrobeniusProduct(ZERO, 1, 14));
  }

  lemma {:induction false} FrobeniusOfZero(k: nat)
    ensures Frobenius(ZERO, k) == ZERO
  {
    hide Square;
    SquareTrivial();
    if k > 0 {
      FrobeniusOfZero(k - 1);
    }
  }

  /** GF(2^16) has no zero divisors. */
  lemma NoZeroDivisors(a: Gf, b: Gf)
    ensures Times(a, b) == ZERO <==> a == ZERO || b == ZERO
  {
    TimesOne(a);
    TimesOne(b);
    if Times(a, b) == ZERO && b != ZERO {
      OverTimes(a, b);
      OverTimes(ZERO, b);
      TimesOne(Inverse(b));
    }
  }
}
