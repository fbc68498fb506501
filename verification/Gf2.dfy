/**
 Polynomials over GF(2), kept as bit sequences with the lowest degree first, and the
 quotient ring GF(2)[x]/(x^n + p) for an arbitrary modulus tail `p` of `n` bits.
 Machine words are modelled by their bits, so the same sequences stand for unsigned
 integers whose bit `i` is entry `i`.
 */
module Gf2 {

  type Bits = seq<bool>

  function Zeros(n: nat): (z: Bits)
    ensures |z| == n && forall i | 0 <= i < n :: !z[i]
  {
    seq(n, i => false)
  }

  function Xor(a: Bits, b: Bits): (c: Bits)
    requires |a| == |b|
    ensures |c| == |a| && forall i | 0 <= i < |a| :: c[i] == (a[i] != b[i])
  {
    seq(|a|, i requires 0 <= i < |a| => a[i] != b[i])
  }

  /** `a` when the bit is set, otherwise zero. */
  function When(bit: bool, a: Bits): (c: Bits)
    ensures |c| == |a| && forall i | 0 <= i < |a| :: c[i] == (bit && a[i])
  {
    if bit then a else Zeros(|a|)
  }

  /** Multiplication by x modulo x^n + p. */
  function XTimes(a: Bits, p: Bits): (c: Bits)
    requires |a| == |p| > 0
    ensures |c| == |a|
  {
    Xor([false] + a[..|a| - 1], When(a[|a| - 1], p))
  }

  /** The product of `a` and a polynomial `b` of any length, modulo x^n + p. */
  function Mul(a: Bits, b: Bits, p: Bits): (c: Bits)
    requires |a| == |p| > 0
    ensures |c| == |a|
    decreases |b|
  {
    if b == [] then Zeros(|a|)
    else Xor(When(b[0], a), Mul(XTimes(a, p), b[1..], p))
  }

  /** The monomial x^i of length n. */
  function Unit(i: nat, n: nat): (c: Bits)
    requires i < n
    ensures |c| == n && forall j | 0 <= j < n :: c[j] == (j == i)
  {
    seq(n, j => j == i)
  }

  /** The residue of a polynomial of any length modulo x^n + p. */
  function Residue(b: Bits, p: Bits): (c: Bits)
    requires |p| > 0
    ensures |c| == |p|
  {
    Mul(Unit(0, |p|), b, p)
  }

  lemma XTimesLinear(a: Bits, b: Bits, p: Bits)
    requires |a| == |b| == |p| > 0
    ensures XTimes(Xor(a, b), p) == Xor(XTimes(a, p), XTimes(b, p))
  {
  }

  lemma XTimesZeros(p: Bits)
    requires |p| > 0
    ensures XTimes(Zeros(|p|), p) == Zeros(|p|)
  {
  }

  lemma XTimesUnit(i: nat, p: Bits)
    requires i < |p|
    ensures XTimes(Unit(i, |p|), p) == if i + 1 < |p| then Unit(i + 1, |p|) else p
  {
  }

  lemma {:induction false} MulLinearLeft(a: Bits, c: Bits, b: Bits, p: Bits)
    requires |a| == |c| == |p| > 0
    ensures Mul(Xor(a, c), b, p) == Xor(Mul(a, b, p), Mul(c, b, p))
    decreases |b|
  {
    if b != [] {
      XTimesLinear(a, c, p);
      MulLinearLeft(XTimes(a, p), XTimes(c, p), b[1..], p);
    }
  }

  lemma {:induction false} MulLinearRight(a: Bits, b: Bits, d: Bits, p: Bits)
    requires |a| == |p| > 0 && |b| == |d|
    ensures Mul(a, Xor(b, d), p) == Xor(Mul(a, b, p), Mul(a, d, p))
    decreases |b|
  {
    if b != [] {
      assert Xor(b, d)[1..] == Xor(b[1..], d[1..]);
      MulLinearRight(XTimes(a, p), b[1..], d[1..], p);
    }
  }

  lemma {:induction false} MulXTimes(a: Bits, b: Bits, p: Bits)
    requires |a| == |p| > 0
    ensures Mul(XTimes(a, p), b, p) == XTimes(Mul(a, b, p), p)
    decreases |b|
  {
    XTimesZeros(p);
    if b != [] {
      hide XTimes, Xor;
      MulXTimes(XTimes(a, p), b[1..], p);
      XTimesLinear(When(b[0], a), Mul(XTimes(a, p), b[1..], p), p);
    }
  }

  lemma {:induction false} MulZeros(a: Bits, k: nat, p: Bits)
    requires |a| == |p| > 0
    ensures Mul(a, Zeros(k), p) == Zeros(|a|)
    decreases k
  {
    if k > 0 {
      assert Zeros(k)[1..] == Zeros(k - 1);
      MulZeros(XTimes(a, p), k - 1, p);
    }
  }

  lemma {:induction false} ZerosMul(n: nat, b: Bits, p: Bits)
    requires n == |p| > 0
    ensures Mul(Zeros(n), b, p) == Zeros(n)
  {
    MulLinearLeft(Zeros(n), Zeros(n), b, p);
    assert Xor(Zeros(n), Zeros(n)) == Zeros(n);
    var m := Mul(Zeros(n), b, p);
    assert forall i | 0 <= i < n :: m[i] == Xor(m, m)[i];
  }

  /** Multiplication operators commute, whatever the lengths of their polynomials. */
  lemma {:induction false} OperatorsCommute(c: Bits, a: Bits, b: Bits, p: Bits)
    requires |c| == |p| > 0
    ensures Mul(Mul(c, b, p), a, p) == Mul(Mul(c, a, p), b, p)
    decreases |b|
  {
    if b == [] {
      ZerosMul(|p|, a, p);
    } else {
      OperatorsCommute(XTimes(c, p), a, b[1..], p);
      MulLinearLeft(When(b[0], c), Mul(XTimes(c, p), b[1..], p), a, p);
      MulXTimes(c, a, p);
      ZerosMul(|p|, a, p);
    }
  }

  /** A monomial times a short polynomial is a plain shift. */
  lemma {:induction false} UnitMul(i: nat, b: Bits, p: Bits)
    requires i < |p| && i + |b| <= |p|
    ensures Mul(Unit(i, |p|), b, p) == Zeros(i) + b + Zeros(|p| - i - |b|)
    decreases |b|
  {
    hide XTimes, Xor;
    var n := |p|;
    if b == [] {
      assert Zeros(i) + b + Zeros(n - i) == Zeros(n);
    } else {
      XTimesUnit(i, p);
      if i + 1 < n {
        UnitMul(i + 1, b[1..], p);
      } else {
        assert b[1..] == [];
      }
      var rest := Zeros(i + 1) + b[1..] + Zeros(n - i - |b|);
      assert Mul(Unit(i, n), b, p) == Xor(When(b[0], Unit(i, n)), rest) by {
        assert i + 1 == n ==> rest == Zeros(n);
      }
      assert Xor(When(b[0], Unit(i, n)), rest) == Zeros(i) + b + Zeros(n - i - |b|);
    }
  }

  lemma ResidueShort(b: Bits, p: Bits)
    requires |b| <= |p| && 0 < |p|
    ensures Residue(b, p) == b + Zeros(|p| - |b|)
  {
    hide Mul;
    UnitMul(0, b, p);
    assert Zeros(0) + b + Zeros(|p| - |b|) == b + Zeros(|p| - |b|);
  }

  /** The product of two residues is commutative. */
  lemma MulCommutes(a: Bits, b: Bits, p: Bits)
    requires |a| == |b| == |p| > 0
    ensures Mul(a, b, p) == Mul(b, a, p)
  {
    OperatorsCommute(Unit(0, |p|), a, b, p);
    ResidueShort(a, p);
    ResidueShort(b, p);
    assert a + Zeros(0) == a && b + Zeros(0) == b;
  }

  lemma MulAssociates(a: Bits, b: Bits, c: Bits, p: Bits)
    requires |a| == |b| == |c| == |p| > 0
    ensures Mul(Mul(a, b, p), c, p) == Mul(a, Mul(b, c, p), p)
  {
    MulCommutes(a, Mul(b, c, p), p);
    OperatorsCommute(b, a, c, p);
    MulCommutes(a, b, p);
  }

  lemma OneMul(a: Bits, p: Bits)
    requires |a| == |p| > 0
    ensures Mul(Unit(0, |p|), a, p) == a
    ensures Mul(a, Unit(0, |p|), p) == a
  {
    ResidueShort(a, p);
    assert a + Zeros(0) == a;
    MulCommutes(a, Unit(0, |p|), p);
  }

  /** Low-order zero bits multiply by x once each. */
  lemma MulLowZero(a: Bits, b: Bits, p: Bits)
    requires |a| == |p| > 0
    ensures Mul(a, [false] + b, p) == XTimes(Mul(a, b, p), p)
  {
    assert ([false] + b)[1..] == b;
    MulXTimes(a, b, p);
  }

  /** High-order zero bits do not matter. */
  lemma {:induction false} MulHighZeros(a: Bits, b: Bits, k: nat, p: Bits)
    requires |a| == |p| > 0
    ensures Mul(a, b + Zeros(k), p) == Mul(a, b, p)
    decreases |b|
  {
    if b == [] {
      assert b + Zeros(k) == Zeros(k);
      MulZeros(a, k, p);
    } else {
      assert (b + Zeros(k))[1..] == b[1..] + Zeros(k);
      MulHighZeros(XTimes(a, p), b[1..], k, p);
    }
  }

  /** The modulus itself, x^n + p, is zero. */
  lemma ModulusIsZero(p: Bits)
    requires |p| > 0
    ensures Residue(p + [true], p) == Zeros(|p|)
  {
    hide XTimes, Xor, Mul;
    var n := |p|;
    var one := Unit(0, n);
    var top := [false] + Unit(n - 1, n);
    assert p + [true] == Xor(p + Zeros(1), top);
    MulLinearRight(one, p + Zeros(1), top, p);
    assert Mul(one, p + Zeros(1), p) == p by {
      MulHighZeros(one, p, 1, p);
      OneMul(p, p);
    }
    assert Mul(one, top, p) == p by {
      MulLowZero(one, Unit(n - 1, n), p);
      OneMul(Unit(n - 1, n), p);
      XTimesUnit(n - 1, p);
    }
    assert Xor(p, p) == Zeros(n);
  }

  /** Any shift of a multiple of the modulus is still zero. */
  lemma {:induction false} ShiftOfZero(b: Bits, k: nat, p: Bits)
    requires |p| > 0 && Residue(b, p) == Zeros(|p|)
    ensures Residue(Zeros(k) + b, p) == Zeros(|p|)
    decreases k
  {
    hide XTimes, Mul;
    if k == 0 {
      assert Zeros(0) + b == b;
    } else {
      ShiftOfZero(b, k - 1, p);
      assert Zeros(k) + b == [false] + (Zeros(k - 1) + b);
      MulLowZero(Unit(0, |p|), Zeros(k - 1) + b, p);
      XTimesZeros(p);
    }
  }

  /** Squaring is additive in characteristic two. */
  lemma SquareAdditive(a: Bits, b: Bits, p: Bits)
    requires |a| == |b| == |p| > 0
    ensures Mul(Xor(a, b), Xor(a, b), p) == Xor(Mul(a, a, p), Mul(b, b, p))
  {
    var s := Xor(a, b);
    MulLinearLeft(a, b, s, p);
    MulLinearRight(a, a, b, p);
    MulLinearRight(b, a, b, p);
    MulCommutes(a, b, p);
  }

  /** The unreduced carry-less product, of length |a| + |b|. */
  function Clmul(a: Bits, b: Bits): (c: Bits)
    ensures |c| == |a| + |b|
    decreases |b|
  {
    if b == [] then Zeros(|a|)
    else Xor(When(b[0], a + Zeros(|b|)), [false] + Clmul(a, b[1..]))
  }

  /** Reducing the carry-less product gives the product in the quotient ring. */
  lemma {:induction false} ResidueClmul(a: Bits, b: Bits, p: Bits)
    requires |p| > 0
    ensures Residue(Clmul(a, b), p) == Mul(Residue(a, p), b, p)
    decreases |b|
  {
    var one := Unit(0, |p|);
    if b == [] {
      MulZeros(one, |a|, p);
    } else {
      var rest := Clmul(a, b[1..]);
      var r := Residue(a, p);
      ResidueClmul(a, b[1..], p);
      ClmulStep(a, b, p);
      MulXTimes(r, b[1..], p);
    }
  }

  lemma ClmulStep(a: Bits, b: Bits, p: Bits)
    requires |p| > 0 && b != []
    ensures Residue(Clmul(a, b), p)
         == Xor(When(b[0], Residue(a, p)), XTimes(Residue(Clmul(a, b[1..]), p), p))
  {
    var one := Unit(0, |p|);
    var rest := Clmul(a, b[1..]);
    assert Clmul(a, b) == Xor(When(b[0], a + Zeros(|b|)), [false] + rest);
    hide *;
    MulLinearRight(one, When(b[0], a + Zeros(|b|)), [false] + rest, p);
    MulLowZero(one, rest, p);
    MulHighZeros(one, a, |b|, p);
    MulZeros(one, |a| + |b|, p);
    WhenResidue(b[0], a + Zeros(|b|), p);
  }

  lemma WhenResidue(bit: bool, a: Bits, p: Bits)
    requires |p| > 0
    ensures Residue(When(bit, a), p) == When(bit, Residue(a, p))
  {
    MulZeros(Unit(0, |p|), |a|, p);
  }

  /** Appending a top bit to the second factor adds one shifted copy of the first. */
  lemma {:induction false} ClmulSnoc(a: Bits, b: Bits, top: bool)
    ensures Clmul(a, b + [top])
         == Xor(Clmul(a, b) + [false], When(top, Zeros(|b|) + a + [false]))
    decreases |b|
  {
    hide Xor, When, Zeros;
    var full := b + [top];
    if b == [] {
      assert full[1..] == [];
      assert Clmul(a, full) == Xor(When(top, a + Zeros(1)), [false] + Zeros(|a|));
      assert Zeros(|b|) + a + [false] == a + Zeros(1);
    } else {
      ClmulSnoc(a, b[1..], top);
      assert full[1..] == b[1..] + [top];
      var rest := Clmul(a, b[1..]);
      var tail := Xor(rest + [false], When(top, Zeros(|b| - 1) + a + [false]));
      assert Clmul(a, full) == Xor(When(b[0], a + Zeros(|b| + 1)), [false] + tail);
      hide Clmul;
      assert Clmul(a, b) == Xor(When(b[0], a + Zeros(|b|)), [false] + rest) by { ClmulUnfold(a, b); }
      SnocRearranges(b[0], top, a, rest, |b|);
    }
  }

  lemma ClmulUnfold(a: Bits, b: Bits)
    requires b != []
    ensures Clmul(a, b) == Xor(When(b[0], a + Zeros(|b|)), [false] + Clmul(a, b[1..]))
  {
  }

  lemma SnocRearranges(bit: bool, top: bool, a: Bits, rest: Bits, n: nat)
    requires n > 0 && |rest| == |a| + n - 1
    ensures Xor(When(bit, a + Zeros(n + 1)), [false] + Xor(rest + [false], When(top, Zeros(n - 1) + a + [false])))
         == Xor(Xor(When(bit, a + Zeros(n)), [false] + rest) + [false], When(top, Zeros(n) + a + [false]))
  {
  }

  /** Shifted copies of the modulus are zero. */
  lemma ZeroResidue(lo: nat, hi: nat, p: Bits)
    requires |p| > 0
    ensures Residue((Zeros(lo) + (p + [true])) + Zeros(hi), p) == Zeros(|p|)
  {
    hide Mul, Xor;
    ModulusIsZero(p);
    ShiftOfZero(p + [true], lo, p);
    MulHighZeros(Unit(0, |p|), Zeros(lo) + (p + [true]), hi, p);
  }

  lemma AddZeroResidue(v: Bits, s: Bits, p: Bits)
    requires |v| == |s| && |p| > 0 && Residue(s, p) == Zeros(|p|)
    ensures Residue(Xor(v, s), p) == Residue(v, p)
  {
    hide Mul;
    MulLinearRight(Unit(0, |p|), v, s, p);
    assert Xor(Residue(v, p), Zeros(|p|)) == Residue(v, p);
  }
}
