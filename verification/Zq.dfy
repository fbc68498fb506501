/** Arithmetic modulo q = 3329 as the ML-KEM core computes it, on 16- and 32-bit words. */
module Zq {

  const Q := 3329
  const UINT16 := 0x1_0000
  const UINT32 := 0x1_0000_0000
  const BARRETT_MULTIPLIER := 5039
  const BARRETT_SHIFT := 0x100_0000

  /** A reduced field element. */
  type Fe = n: nat | n < 3329

  // ----- the field -----

  /** The residue of any integer. */
  function Mod(x: int): (r: Fe) {
    x % Q
  }

  function Plus(a: Fe, b: Fe): (r: Fe) {
    Mod(a + b)
  }

  function Minus(a: Fe, b: Fe): (r: Fe) {
    Mod(a - b)
  }

  function Times(a: Fe, b: Fe): (r: Fe) {
    Mod(a * b)
  }

  function Neg(a: Fe): (r: Fe) {
    Minus(0, a)
  }

  lemma ModOfMultiple(r: int, k: int)
    ensures Mod(r + 3329 * k) == Mod(r)
  {
  }

  lemma ModPlus(x: int, y: int)
    ensures Mod(Mod(x) + y) == Mod(x + y)
  {
    ModOfMultiple(Mod(x) + y, x / 3329);
  }

  lemma ModTimes(x: int, y: int)
    ensures Mod(Mod(x) * y) == Mod(x * y)
  {
    var k, r := x / 3329, x % 3329;
    assert x * y == r * y + 3329 * (k * y) by {
      assert x == r + 3329 * k;
    }
    ModOfMultiple(r * y, k * y);
  }

  lemma ModSmall(a: Fe)
    ensures Mod(a) == a
  {
  }

  lemma PlusLaws(a: Fe, b: Fe, c: Fe)
    ensures Plus(a, b) == Plus(b, a) && Plus(a, Plus(b, c)) == Plus(Plus(a, b), c)
    ensures Plus(a, 0) == a && Plus(a, Neg(a)) == 0
    ensures Minus(a, b) == Plus(a, Neg(b)) && Plus(Minus(a, b), b) == a
  {
    hide Mod;
    ModPlus(b + c, a);
    ModPlus(a + b, c);
    ModSmall(a);
    ModSmall(0);
    ModPlus(0 - a, a);
    ModPlus(0 - b, a);
    ModPlus(a - b, b);
  }

  lemma TimesComm(a: Fe, b: Fe)
    ensures Times(a, b) == Times(b, a)
    ensures Times(a, 1) == a && Times(a, 0) == 0
  {
  }

  lemma TimesAssoc(a: Fe, b: Fe, c: Fe)
    ensures Times(a, Times(b, c)) == Times(Times(a, b), c)
  {
    hide Mod;
    ModTimes(b * c, a);
    ModTimes(a * b, c);
    assert (b * c) * a == (a * b) * c;
  }

  lemma TimesPlus(a: Fe, b: Fe, c: Fe)
    ensures Times(a, Plus(b, c)) == Plus(Times(a, b), Times(a, c))
  {
    hide Mod;
    ModTimes(b + c, a);
    assert (b + c) * a == a * b + a * c;
    ModPlus(a * b, Times(a, c));
    ModPlus(a * c, a * b);
  }

  lemma TimesNeg(a: Fe, b: Fe)
    ensures Times(Neg(a), b) == Neg(Times(a, b)) && Times(Neg(a), Neg(b)) == Times(a, b)
  {
    hide Times, Neg, Plus;
    NegUnique(a, b);
    NegUnique(a, Neg(b));
    TimesComm(a, b);
    NegUnique(b, a);
    TimesComm(a, Neg(b));
    NegNeg(Times(a, b));
  }

  lemma NegNeg(a: Fe)
    ensures Neg(Neg(a)) == a
  {
  }

  lemma NegUnique(a: Fe, b: Fe)
    ensures Times(Neg(a), b) == Neg(Times(a, b))
  {
    hide Times, Neg, Plus;
    PlusLaws(a, a, a);
    TimesPlus(b, a, Neg(a));
    TimesComm(b, 0);
    TimesComm(b, a);
    TimesComm(b, Neg(a));
    SumZero(Times(a, b), Times(Neg(a), b));
  }

  lemma SumZero(a: Fe, b: Fe)
    requires Plus(a, b) == 0
    ensures b == Neg(a)
  {
  }

  /** The field operations on residues of integers. */
  lemma OnResidues(x: int, y: int)
    ensures Plus(Mod(x), Mod(y)) == Mod(x + y)
    ensures Minus(Mod(x), Mod(y)) == Mod(x - y)
    ensures Times(Mod(x), Mod(y)) == Mod(x * y)
  {
    hide Mod;
    ModPlus(x, Mod(y));
    ModPlus(y, x);
    ModTimes(x, Mod(y));
    ModTimes(y, x);
    assert x * Mod(y) == Mod(y) * x && x * y == y * x;
    ModMinus(x, y);
  }

  lemma ModMinus(x: int, y: int)
    ensures Mod(Mod(x) - Mod(y)) == Mod(x - y)
  {
    ModOfMultiple(Mod(x) - Mod(y), x / 3329 - y / 3329);
  }

  lemma TimesMinusOne(z: Fe, y: Fe, d: Fe)
    requires Times(z, y) == Q - 1
    ensures Times(z, Times(y, d)) == Neg(d)
  {
    hide Times, Neg;
    TimesAssoc(z, y, d);
    assert Neg(1) == 3328 by { NegOne(); }
    TimesNeg(1, d);
    TimesComm(1, d);
    TimesComm(d, 1);
  }

  lemma NegOne()
    ensures Neg(1) == Q - 1
  {
  }

  // ----- how the words compute it -----

  /** Reduces a value below 2q; the subtraction underflows exactly when it must be undone. */
  function ReduceOnce(a: nat): (r: Fe)
    requires a < 2 * Q
    ensures r == Mod(a)
  {
    var x := (a + UINT16 - Q) % UINT16;
    assert x == if a < Q then a + UINT16 - Q else a - Q;
    assert Mod(a) == if a < Q then a else a - Q;
    (x + (x / 0x8000) * Q) % UINT16
  }

  function FieldAdd(a: Fe, b: Fe): (r: Fe)
    ensures r == Plus(a, b)
  {
    ReduceOnce((a + b) % UINT16)
  }

  function FieldSub(a: Fe, b: Fe): (r: Fe)
    ensures r == Minus(a, b)
  {
    ReduceOnce(((a + UINT16 - b) % UINT16 + Q) % UINT16)
  }

  /** The Barrett quotient is the true one or one less, for every value the callers pass. */
  lemma BarrettQuotient(a: nat)
    requires a < 2 * Q * Q
    ensures var quotient := a * BARRETT_MULTIPLIER / BARRETT_SHIFT;
      0 <= a - quotient * Q < 2 * Q && quotient < UINT32 && Mod(a - quotient * Q) == Mod(a)
  {
    ModOfMultiple(a, -(a * BARRETT_MULTIPLIER / BARRETT_SHIFT));
  }

  function FieldReduce(a: nat): (r: Fe)
    requires a < 2 * Q * Q
    ensures r == Mod(a)
  {
    BarrettQuotient(a);
    var quotient := (a * BARRETT_MULTIPLIER / BARRETT_SHIFT) % UINT32;
    ReduceOnce((a - quotient * Q) % UINT16)
  }

  lemma ProductBound(a: nat, b: nat, m: nat, n: nat)
    requires a <= m && b <= n
    ensures 0 <= a * b <= m * n
  {
    assert a * b <= m * b;
    assert m * b <= m * n;
  }

  function FieldMul(a: Fe, b: Fe): (r: Fe)
    ensures r == Times(a, b)
  {
    ProductBound(a, b, 3328, 3328);
    FieldReduce(a * b)
  }

  /** b - c in [1, 2q), as the word holds it. */
  function Lifted(b: Fe, c: Fe): (d: nat)
    ensures d == b - c + Q
  {
    ((b + UINT16 - c) % UINT16 + Q) % UINT16
  }

  /** a * (b - c) with one reduction. */
  function FieldMulSub(a: Fe, b: Fe, c: Fe): (r: Fe)
    ensures r == Times(a, Minus(b, c))
  {
    ProductBound(a, Lifted(b, c), 3328, 6657);
    MulSubLaw(a, b, c);
    FieldReduce(a * Lifted(b, c))
  }

  lemma MulSubLaw(a: Fe, b: Fe, c: Fe)
    ensures Mod(a * (b - c + Q)) == Times(a, Minus(b, c))
  {
    hide Mod;
    ModOfMultiple(b - c, 1);
    ModTimes(b - c, a);
    ModTimes(b - c + Q, a);
    assert a * (b - c + Q) == (b - c + Q) * a;
    TimesIs(a, Minus(b, c));
  }

  lemma TimesIs(a: Fe, b: Fe)
    ensures Times(a, b) == Mod(b * a)
  {
    assert a * b == b * a;
  }

  /** a * b + c * d with one reduction. */
  function FieldAddMul(a: Fe, b: Fe, c: Fe, d: Fe): (r: Fe)
    ensures r == Plus(Times(a, b), Times(c, d))
  {
    ProductBound(a, b, 3328, 3328);
    ProductBound(c, d, 3328, 3328);
    AddMulLaw(a, b, c, d);
    FieldReduce(a * b + c * d)
  }

  lemma AddMulLaw(a: Fe, b: Fe, c: Fe, d: Fe)
    ensures Mod(a * b + c * d) == Plus(Times(a, b), Times(c, d))
  {
    hide Mod;
    ModPlus(a * b, c * d);
    ModPlus(c * d, Times(a, b));
  }
}
