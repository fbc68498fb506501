/**
 Polynomials modulo x^n - m over the integers modulo q, and how halving the modulus
 x^(2n) - z^2 = (x^n - z)(x^n + z) splits them.
 */
module Rq {
  import opened Zq

  type Poly = seq<Fe>

  function Zero(n: nat): (f: Poly)
    ensures |f| == n
  {
    seq(n, i => 0)
  }

  function Add(f: Poly, g: Poly): (h: Poly)
    requires |f| == |g|
    ensures |h| == |f|
  {
    seq(|f|, i requires 0 <= i < |f| => Plus(f[i], g[i]))
  }

  function Scale(c: Fe, f: Poly): (h: Poly)
    ensures |h| == |f|
  {
    seq(|f|, i requires 0 <= i < |f| => Times(c, f[i]))
  }

  /** x f modulo x^n - m: every coefficient moves up and the top one re-enters times m. */
  function Shift(f: Poly, m: Fe): (h: Poly)
    requires f != []
    ensures |h| == |f|
  {
    [Times(m, f[|f| - 1])] + f[..|f| - 1]
  }

  /** a b modulo x^n - m where n is the length of b. */
  function Mul(a: Poly, b: Poly, m: Fe): (h: Poly)
    requires b != []
    ensures |h| == |b|
  {
    if a == [] then Zero(|b|) else Add(Scale(a[0], b), Shift(Mul(a[1..], b, m), m))
  }

  // ----- a module over the field -----

  lemma AddLaws(f: Poly, g: Poly, h: Poly)
    requires |f| == |g| == |h|
    ensures Add(f, g) == Add(g, f) && Add(f, Add(g, h)) == Add(Add(f, g), h) && Add(f, Zero(|f|)) == f
  {
    hide Plus;
    forall i | 0 <= i < |f|
      ensures Plus(f[i], g[i]) == Plus(g[i], f[i]) && Plus(f[i], 0) == f[i]
      ensures Plus(f[i], Plus(g[i], h[i])) == Plus(Plus(f[i], g[i]), h[i])
    {
      PlusLaws(f[i], g[i], h[i]);
    }
  }

  /** (f + g) + (h + k) == (f + h) + (g + k) */
  lemma AddSwap(f: Poly, g: Poly, h: Poly, k: Poly)
    requires |f| == |g| == |h| == |k|
    ensures Add(Add(f, g), Add(h, k)) == Add(Add(f, h), Add(g, k))
  {
    hide Add;
    AddLaws(f, g, Add(h, k));
    AddLaws(g, h, k);
    AddLaws(h, g, k);
    AddLaws(f, h, Add(g, k));
  }

  lemma ScaleAdd(c: Fe, f: Poly, g: Poly)
    requires |f| == |g|
    ensures Scale(c, Add(f, g)) == Add(Scale(c, f), Scale(c, g))
  {
    hide Plus, Times;
    forall i | 0 <= i < |f| ensures Times(c, Plus(f[i], g[i])) == Plus(Times(c, f[i]), Times(c, g[i])) {
      TimesPlus(c, f[i], g[i]);
    }
  }

  lemma ScaleTimes(c: Fe, d: Fe, f: Poly)
    ensures Scale(c, Scale(d, f)) == Scale(Times(c, d), f) == Scale(d, Scale(c, f))
    ensures Scale(1, f) == f && Scale(c, Zero(|f|)) == Zero(|f|) && Scale(0, f) == Zero(|f|)
  {
    hide Plus, Times;
    TimesComm(c, 0);
    forall i | 0 <= i < |f|
      ensures Times(c, Times(d, f[i])) == Times(Times(c, d), f[i]) == Times(d, Times(c, f[i]))
      ensures Times(1, f[i]) == f[i] && Times(0, f[i]) == 0
    {
      TimesAssoc(c, d, f[i]);
      TimesAssoc(d, c, f[i]);
      TimesComm(c, d);
      TimesComm(f[i], 1);
      TimesComm(1, f[i]);
      TimesComm(0, f[i]);
    }
  }

  lemma ScalePlus(c: Fe, d: Fe, f: Poly)
    ensures Scale(Plus(c, d), f) == Add(Scale(c, f), Scale(d, f))
  {
    hide Plus, Times;
    forall i | 0 <= i < |f| ensures Times(Plus(c, d), f[i]) == Plus(Times(c, f[i]), Times(d, f[i])) {
      TimesComm(Plus(c, d), f[i]);
      TimesComm(c, f[i]);
      TimesComm(d, f[i]);
      TimesPlus(f[i], c, d);
    }
  }

  lemma ShiftLinear(c: Fe, f: Poly, g: Poly, m: Fe)
    requires |f| == |g| && f != []
    ensures Shift(Add(f, g), m) == Add(Shift(f, m), Shift(g, m))
    ensures Shift(Scale(c, f), m) == Scale(c, Shift(f, m))
    ensures Shift(Zero(|f|), m) == Zero(|f|)
  {
    hide Plus, Times;
    var n := |f| - 1;
    TimesPlus(m, f[n], g[n]);
    TimesComm(m, 0);
    TimesAssoc(m, c, f[n]);
    TimesAssoc(c, m, f[n]);
    TimesComm(m, c);
  }

  // ----- multiplication is bilinear -----

  lemma {:induction false} MulAddLeft(a: Poly, b: Poly, w: Poly, m: Fe)
    requires |a| == |b| && w != []
    ensures Mul(Add(a, b), w, m) == Add(Mul(a, w, m), Mul(b, w, m))
    decreases |a|
  {
    hide Plus, Times, Scale, Shift;
    if a == [] {
      AddLaws(Zero(|w|), Zero(|w|), Zero(|w|));
    } else {
      MulAddLeft(a[1..], b[1..], w, m);
      assert Add(a, b)[1..] == Add(a[1..], b[1..]);
      hide Add;
      var p, r := Mul(a[1..], w, m), Mul(b[1..], w, m);
      ScalePlus(a[0], b[0], w);
      ShiftLinear(0, p, r, m);
      AddSwap(Scale(a[0], w), Scale(b[0], w), Shift(p, m), Shift(r, m));
      assert Add(a, b)[0] == Plus(a[0], b[0]) by { AddAt(a, b, 0); }
    }
  }

  lemma AddAt(f: Poly, g: Poly, i: nat)
    requires |f| == |g| && i < |f|
    ensures Add(f, g)[i] == Plus(f[i], g[i])
  {
  }

  lemma {:induction false} MulScaleLeft(c: Fe, a: Poly, w: Poly, m: Fe)
    requires w != []
    ensures Mul(Scale(c, a), w, m) == Scale(c, Mul(a, w, m))
    decreases |a|
  {
    hide Plus, Times, Shift, Add;
    if a == [] {
      ScaleTimes(c, c, Zero(|w|));
    } else {
      MulScaleLeft(c, a[1..], w, m);
      assert Scale(c, a)[1..] == Scale(c, a[1..]);
      assert Scale(c, a)[0] == Times(c, a[0]);
      hide Scale;
      var p := Mul(a[1..], w, m);
      ShiftLinear(c, p, p, m);
      ScaleAdd(c, Scale(a[0], w), Shift(p, m));
      ScaleTimes(c, a[0], w);
    }
  }

  lemma {:induction false} MulAddRight(a: Poly, b: Poly, c: Poly, m: Fe)
    requires |b| == |c| && b != []
    ensures Mul(a, Add(b, c), m) == Add(Mul(a, b, m), Mul(a, c, m))
    decreases |a|
  {
    hide Plus, Times, Shift, Add, Scale;
    if a == [] {
      AddLaws(Zero(|b|), Zero(|b|), Zero(|b|));
    } else {
      MulAddRight(a[1..], b, c, m);
      var p, r := Mul(a[1..], b, m), Mul(a[1..], c, m);
      ScaleAdd(a[0], b, c);
      ShiftLinear(0, p, r, m);
      AddSwap(Scale(a[0], b), Scale(a[0], c), Shift(p, m), Shift(r, m));
    }
  }

  lemma {:induction false} MulScaleRight(c: Fe, a: Poly, b: Poly, m: Fe)
    requires b != []
    ensures Mul(a, Scale(c, b), m) == Scale(c, Mul(a, b, m))
    decreases |a|
  {
    hide Plus, Times, Shift, Add, Scale;
    if a == [] {
      ScaleTimes(c, c, Zero(|b|));
    } else {
      MulScaleRight(c, a[1..], b, m);
      var p := Mul(a[1..], b, m);
      ScaleTimes(a[0], c, b);
      ShiftLinear(c, p, p, m);
      ScaleAdd(c, Scale(a[0], b), Shift(p, m));
    }
  }

  lemma {:induction false} MulShiftRight(a: Poly, b: Poly, m: Fe)
    requires b != []
    ensures Mul(a, Shift(b, m), m) == Shift(Mul(a, b, m), m)
    decreases |a|
  {
    hide Plus, Times, Shift, Add, Scale;
    if a == [] {
      ShiftLinear(0, Zero(|b|), Zero(|b|), m);
    } else {
      MulShiftRight(a[1..], b, m);
      var p := Mul(a[1..], b, m);
      ShiftLinear(a[0], b, b, m);
      ShiftLinear(0, Scale(a[0], b), Shift(p, m), m);
    }
  }

  lemma {:induction false} MulZeroRight(a: Poly, n: nat, m: Fe)
    requires n > 0
    ensures Mul(a, Zero(n), m) == Zero(n)
    decreases |a|
  {
    hide Plus, Times, Shift, Add, Scale;
    if a != [] {
      MulZeroRight(a[1..], n, m);
      ScaleTimes(a[0], 0, Zero(n));
      ShiftLinear(0, Zero(n), Zero(n), m);
      AddLaws(Zero(n), Zero(n), Zero(n));
    }
  }

  /** Multiplying by a and by b in either order. */
  lemma {:induction false} MulsCommute(a: Poly, b: Poly, w: Poly, m: Fe)
    requires w != []
    ensures Mul(a, Mul(b, w, m), m) == Mul(b, Mul(a, w, m), m)
    decreases |a|
  {
    hide Plus, Times, Shift, Add, Scale;
    if a == [] {
      MulZeroRight(b, |w|, m);
    } else {
      MulsCommute(a[1..], b, w, m);
      var p := Mul(a[1..], w, m);
      MulAddRight(b, Scale(a[0], w), Shift(p, m), m);
      MulScaleRight(a[0], b, w, m);
      MulShiftRight(b, p, m);
    }
  }

  function One(n: nat): (f: Poly)
    requires n > 0
    ensures |f| == n
  {
    [1] + Zero(n - 1)
  }

  /** Multiplying one by the lowest coefficients gives those coefficients. */
  lemma {:induction false} MulOneRight(a: Poly, n: nat, m: Fe)
    requires |a| <= n && n > 0
    ensures Mul(a, One(n), m) == a + Zero(n - |a|)
    decreases |a|
  {
    hide Plus, Times, Scale, Add, One;
    if a == [] {
      assert Zero(n) == [] + Zero(n);
    } else {
      MulOneRight(a[1..], n, m);
      var p := a[1..] + Zero(n - |a| + 1);
      assert p[n - 1] == 0;
      TimesComm(m, 0);
      assert Shift(p, m) == [0] + p[..n - 1];
      ScaleOne(a[0], n);
      HeadAdd(a[0], p[..n - 1]);
    }
  }

  lemma ScaleOne(c: Fe, n: nat)
    requires n > 0
    ensures Scale(c, One(n)) == [c] + Zero(n - 1)
  {
    hide Times;
    TimesComm(c, 1);
    TimesComm(c, 0);
  }

  lemma HeadAdd(x: Fe, y: Poly)
    ensures Add([x] + Zero(|y|), [0] + y) == [x] + y
  {
    hide Plus;
    PlusLaws(x, 0, 0);
    forall i | 0 <= i < |y| ensures Plus(0, y[i]) == y[i] {
      PlusLaws(0, y[i], 0);
      PlusLaws(y[i], 0, 0);
    }
  }

  lemma MulComm(a: Poly, b: Poly, m: Fe)
    requires |a| == |b| && a != []
    ensures Mul(a, b, m) == Mul(b, a, m)
  {
    hide Mul, One;
    var n := |a|;
    MulOneRight(a, n, m);
    MulOneRight(b, n, m);
    assert a + Zero(0) == a && b + Zero(0) == b;
    MulsCommute(a, b, One(n), m);
  }

  lemma MulAssoc(a: Poly, b: Poly, c: Poly, m: Fe)
    requires |a| == |b| == |c| && a != []
    ensures Mul(a, Mul(b, c, m), m) == Mul(Mul(a, b, m), c, m)
  {
    hide Mul;
    MulComm(b, c, m);
    MulsCommute(a, c, b, m);
    MulComm(c, Mul(a, b, m), m);
  }

  // ----- the coefficients of a product -----

  /** Coefficient k of x^i b modulo x^n - m. */
  function Term(b: Poly, m: Fe, k: nat, i: nat): (c: Fe)
    requires k < |b| && i <= |b|
  {
    if i <= k then b[k - i] else Times(m, b[|b| + k - i])
  }

  /** The sum of a[j] times coefficient k of x^(i + j) b. */
  function Conv(a: Poly, b: Poly, m: Fe, k: nat, i: nat): (c: Fe)
    requires k < |b| && i + |a| <= |b|
  {
    if a == [] then 0 else Plus(Times(a[0], Term(b, m, k, i)), Conv(a[1..], b, m, k, i + 1))
  }

  lemma {:induction false} ConvShift(a: Poly, b: Poly, m: Fe, k: nat, i: nat)
    requires k < |b| && i + |a| < |b|
    ensures Conv(a, b, m, k, i + 1)
         == if k > 0 then Conv(a, b, m, k - 1, i) else Times(m, Conv(a, b, m, |b| - 1, i))
    decreases |a|
  {
    hide Plus, Times;
    if a == [] {
      TimesComm(m, 0);
    } else {
      ConvShift(a[1..], b, m, k, i + 1);
      if k == 0 {
        var last := |b| - 1;
        TimesPlus(m, Times(a[0], Term(b, m, last, i)), Conv(a[1..], b, m, last, i + 1));
        TimesAssoc(m, a[0], b[last - i]);
        TimesAssoc(a[0], m, b[last - i]);
        TimesComm(m, a[0]);
      }
    }
  }

  lemma ConvUnfold(a: Poly, b: Poly, m: Fe, k: nat)
    requires k < |b| && |a| <= |b|
    ensures Conv(a, b, m, k, 0) == if a == [] then 0 else Plus(Times(a[0], b[k]), Conv(a[1..], b, m, k, 1))
  {
  }

  lemma MulUnfold(a: Poly, b: Poly, m: Fe)
    requires b != []
    ensures Mul(a, b, m) == if a == [] then Zero(|b|) else Add(Scale(a[0], b), Shift(Mul(a[1..], b, m), m))
  {
  }

  /** The product is the convolution, wrapped around with a factor m. */
  lemma {:induction false} MulCoefficient(a: Poly, b: Poly, m: Fe, k: nat)
    requires k < |b| && |a| <= |b|
    ensures Mul(a, b, m)[k] == Conv(a, b, m, k, 0)
    decreases |a|
  {
    hide Plus, Times, Conv, Mul;
    ConvUnfold(a, b, m, k);
    MulUnfold(a, b, m);
    if a != [] {
      ConvShift(a[1..], b, m, k, 0);
      MulCoefficient(a[1..], b, m, if k > 0 then k - 1 else |b| - 1);
    }
  }

  // ----- splitting the modulus -----

  /** f modulo x^n - z, for f modulo x^(2n) - z^2. */
  function Lo(f: Poly, z: Fe): (h: Poly)
    requires |f| % 2 == 0
    ensures |h| == |f| / 2
  {
    Add(f[..|f| / 2], Scale(z, f[|f| / 2..]))
  }

  lemma LoAdd(f: Poly, g: Poly, z: Fe)
    requires |f| == |g| && |f| % 2 == 0
    ensures Lo(Add(f, g), z) == Add(Lo(f, z), Lo(g, z))
  {
    var n := |f| / 2;
    assert Add(f, g)[..n] == Add(f[..n], g[..n]) && Add(f, g)[n..] == Add(f[n..], g[n..]);
    hide Add, Scale, Plus, Times;
    ScaleAdd(z, f[n..], g[n..]);
    AddSwap(f[..n], g[..n], Scale(z, f[n..]), Scale(z, g[n..]));
  }

  lemma LoScale(c: Fe, f: Poly, z: Fe)
    requires |f| % 2 == 0
    ensures Lo(Scale(c, f), z) == Scale(c, Lo(f, z)) && Lo(Zero(|f|), z) == Zero(|f| / 2)
  {
    var n := |f| / 2;
    assert Scale(c, f)[..n] == Scale(c, f[..n]) && Scale(c, f)[n..] == Scale(c, f[n..]);
    assert Zero(|f|)[..n] == Zero(n) == Zero(|f|)[n..];
    hide Add, Scale, Plus, Times;
    ScaleTimes(z, c, f[n..]);
    ScaleTimes(z, c, Zero(n));
    ScaleAdd(c, f[..n], Scale(z, f[n..]));
    AddLaws(Zero(n), Zero(n), Zero(n));
  }

  /** Splitting commutes with multiplication by x. */
  lemma LoShift(f: Poly, z: Fe)
    requires |f| % 2 == 0 && f != []
    ensures Lo(Shift(f, Times(z, z)), z) == Shift(Lo(f, z), z)
  {
    hide Plus, Times;
    var n := |f| / 2;
    var lo, hi := f[..n], f[n..];
    var s := Shift(f, Times(z, z));
    assert s[..n] == [Times(Times(z, z), hi[n - 1])] + lo[..n - 1];
    assert s[n..] == [lo[n - 1]] + hi[..n - 1];
    TimesAssoc(z, z, hi[n - 1]);
    TimesPlus(z, lo[n - 1], Times(z, hi[n - 1]));
    PlusLaws(Times(z, lo[n - 1]), Times(z, Times(z, hi[n - 1])), 0);
  }

  /** Splitting the second factor of a product. */
  lemma {:induction false} LoMulRight(a: Poly, b: Poly, z: Fe)
    requires |b| % 2 == 0 && b != []
    ensures Lo(Mul(a, b, Times(z, z)), z) == Mul(a, Lo(b, z), z)
    decreases |a|
  {
    hide Plus, Times, Scale, Shift, Add, Lo;
    if a == [] {
      LoScale(0, b, z);
    } else {
      LoMulRight(a[1..], b, z);
      var p := Mul(a[1..], b, Times(z, z));
      LoAdd(Scale(a[0], b), Shift(p, Times(z, z)), z);
      LoScale(a[0], b, z);
      LoShift(p, z);
    }
  }

  function ShiftBy(f: Poly, m: Fe, n: nat): (h: Poly)
    requires f != []
    ensures |h| == |f|
  {
    if n == 0 then f else Shift(ShiftBy(f, m, n - 1), m)
  }

  /** After i shifts the top i coefficients have come around. */
  lemma {:induction false} ShiftByIs(f: Poly, m: Fe, i: nat)
    requires f != [] && i <= |f|
    ensures ShiftBy(f, m, i) == Scale(m, f[|f| - i..]) + f[..|f| - i]
    decreases i
  {
    hide Times;
    if i > 0 {
      ShiftByIs(f, m, i - 1);
    }
  }

  lemma ShiftAll(f: Poly, m: Fe)
    requires f != []
    ensures ShiftBy(f, m, |f|) == Scale(m, f)
  {
    ShiftByIs(f, m, |f|);
    assert f[|f| - |f|..] == f && f[..|f| - |f|] == [];
    assert Scale(m, f) + [] == Scale(m, f);
  }

  lemma {:induction false} MulAppend(a: Poly, b: Poly, w: Poly, m: Fe)
    requires w != []
    ensures Mul(a + b, w, m) == Add(Mul(a, w, m), ShiftBy(Mul(b, w, m), m, |a|))
    decreases |a|
  {
    hide Plus, Times, Shift, Add, Scale;
    if a == [] {
      assert a + b == b;
      AddLaws(Mul(b, w, m), Zero(|w|), Zero(|w|));
    } else {
      MulAppend(a[1..], b, w, m);
      assert (a + b)[1..] == a[1..] + b;
      var p, r := Mul(a[1..], w, m), ShiftBy(Mul(b, w, m), m, |a| - 1);
      ShiftLinear(0, p, r, m);
      AddLaws(Scale(a[0], w), Shift(p, m), Shift(r, m));
    }
  }

  /** Splitting the first factor of a product. */
  lemma LoMulLeft(a: Poly, w: Poly, z: Fe)
    requires |a| == 2 * |w| && w != []
    ensures Mul(a, w, z) == Mul(Lo(a, z), w, z)
  {
    hide Plus, Times, Shift, Add, Scale, Mul;
    var n := |w|;
    assert a == a[..n] + a[n..];
    MulAppend(a[..n], a[n..], w, z);
    ShiftAll(Mul(a[n..], w, z), z);
    MulScaleLeft(z, a[n..], w, z);
    MulAddLeft(a[..n], Scale(z, a[n..]), w, z);
  }

  /** Splitting is a ring homomorphism from modulo x^(2n) - z^2 to modulo x^n - z. */
  lemma LoMul(a: Poly, b: Poly, z: Fe)
    requires |a| == |b| && |a| % 2 == 0 && a != []
    ensures Lo(Mul(a, b, Times(z, z)), z) == Mul(Lo(a, z), Lo(b, z), z)
  {
    hide Mul, Lo, Times;
    LoMulRight(a, b, z);
    LoMulLeft(a, Lo(b, z), z);
  }

  // ----- putting the halves back -----

  function Sub(f: Poly, g: Poly): (h: Poly)
    requires |f| == |g|
    ensures |h| == |f|
  {
    seq(|f|, i requires 0 <= i < |f| => Minus(f[i], g[i]))
  }

  /** f modulo x^n + z, for f modulo x^(2n) - z^2. */
  function Hi(f: Poly, z: Fe): (h: Poly)
    requires |f| % 2 == 0
    ensures |h| == |f| / 2
  {
    Sub(f[..|f| / 2], Scale(z, f[|f| / 2..]))
  }

  lemma HiIsLo(f: Poly, z: Fe)
    requires |f| % 2 == 0
    ensures Hi(f, z) == Lo(f, Neg(z))
  {
    hide Plus, Times, Minus, Neg;
    forall i | 0 <= i < |f| / 2
      ensures Minus(f[i], Times(z, f[|f| / 2 + i])) == Plus(f[i], Times(Neg(z), f[|f| / 2 + i]))
    {
      TimesNeg(z, f[|f| / 2 + i]);
      PlusLaws(f[i], Times(z, f[|f| / 2 + i]), 0);
    }
  }

  /** Twice the polynomial with the given halves modulo x^n - z and x^n + z, where y = -1/z. */
  function Join(lo: Poly, hi: Poly, y: Fe): (f: Poly)
    requires |lo| == |hi|
    ensures |f| == 2 * |lo|
  {
    Add(lo, hi) + Scale(y, Sub(hi, lo))
  }

  lemma JoinOfSplit(z: Fe, y: Fe, a: Fe, b: Fe)
    requires Times(z, y) == Q - 1
    ensures var t := Times(z, b); Plus(Plus(a, t), Minus(a, t)) == Times(2, a)
    ensures var t := Times(z, b); Times(y, Minus(Minus(a, t), Plus(a, t))) == Times(2, b)
  {
    hide Times, Plus, Minus, Neg;
    var t := Times(z, b);
    SumAndDifference(a, t);
    TimesAssoc(y, 2, t);
    TimesComm(y, 2);
    TimesAssoc(2, y, t);
    TimesAssoc(y, z, b);
    TimesComm(y, z);
    TimesAssoc(z, y, b);
    TimesMinusOne(z, y, b);
    TimesNegRight(y, Times(2, t));
    TimesNegRight(2, b);
    NegNeg(Times(2, b));
  }

  lemma TimesNegRight(a: Fe, b: Fe)
    ensures Times(a, Neg(b)) == Neg(Times(a, b))
  {
    hide Times, Neg;
    TimesComm(a, b);
    TimesComm(a, Neg(b));
    TimesNeg(b, a);
  }

  lemma SumAndDifference(a: Fe, t: Fe)
    ensures Plus(Plus(a, t), Minus(a, t)) == Times(2, a)
    ensures Minus(Minus(a, t), Plus(a, t)) == Neg(Times(2, t))
  {
    hide Mod;
    OnResidues(a + t, a - t);
    OnResidues(a - t, a + t);
    OnResidues(0, 2 * t);
    ModSmall(0);
  }

  lemma SplitOfJoin(z: Fe, y: Fe, a: Fe, b: Fe)
    requires Times(z, y) == Q - 1
    ensures var t := Times(z, Times(y, Minus(b, a))); Plus(Plus(a, b), t) == Times(2, a)
    ensures var t := Times(z, Times(y, Minus(b, a))); Minus(Plus(a, b), t) == Times(2, b)
  {
    hide Times, Plus, Minus, Neg;
    TimesMinusOne(z, y, Minus(b, a));
    SumMinusDifference(a, b);
  }

  lemma SumMinusDifference(a: Fe, b: Fe)
    ensures Plus(Plus(a, b), Neg(Minus(b, a))) == Times(2, a)
    ensures Minus(Plus(a, b), Neg(Minus(b, a))) == Times(2, b)
  {
    hide Mod;
    OnResidues(0, b - a);
    ModSmall(0);
    OnResidues(a + b, a - b);
  }

  /** Joining the two halves of a polynomial gives twice the polynomial. */
  lemma JoinSplit(f: Poly, z: Fe, y: Fe)
    requires |f| % 2 == 0 && Times(z, y) == Q - 1
    ensures Join(Lo(f, z), Hi(f, z), y) == Scale(2, f)
  {
    hide Plus, Times, Minus;
    var n, g := |f| / 2, Join(Lo(f, z), Hi(f, z), y);
    forall i | 0 <= i < 2 * n ensures g[i] == Scale(2, f)[i] {
      var k := if i < n then i else i - n;
      JoinOfSplit(z, y, f[k], f[n + k]);
    }
  }

  /** Splitting what was joined gives twice each half. */
  lemma SplitJoin(lo: Poly, hi: Poly, z: Fe, y: Fe)
    requires |lo| == |hi| && Times(z, y) == Q - 1
    ensures Lo(Join(lo, hi, y), z) == Scale(2, lo) && Hi(Join(lo, hi, y), z) == Scale(2, hi)
  {
    hide Plus, Times, Minus;
    forall i | 0 <= i < |lo|
      ensures Lo(Join(lo, hi, y), z)[i] == Times(2, lo[i]) && Hi(Join(lo, hi, y), z)[i] == Times(2, hi[i])
    {
      SplitOfJoin(z, y, lo[i], hi[i]);
    }
  }

  lemma JoinScale(c: Fe, lo: Poly, hi: Poly, y: Fe)
    requires |lo| == |hi|
    ensures Join(Scale(c, lo), Scale(c, hi), y) == Scale(c, Join(lo, hi, y))
  {
    hide Plus, Times, Minus, Neg;
    forall i | 0 <= i < |lo|
      ensures Plus(Times(c, lo[i]), Times(c, hi[i])) == Times(c, Plus(lo[i], hi[i]))
      ensures Times(y, Minus(Times(c, hi[i]), Times(c, lo[i]))) == Times(c, Times(y, Minus(hi[i], lo[i])))
    {
      TimesPlus(c, lo[i], hi[i]);
      TimesMinus(c, hi[i], lo[i]);
      TimesAssoc(y, c, Minus(hi[i], lo[i]));
      TimesAssoc(c, y, Minus(hi[i], lo[i]));
      TimesComm(y, c);
    }
  }

  lemma TimesMinus(c: Fe, a: Fe, b: Fe)
    ensures Times(c, Minus(a, b)) == Minus(Times(c, a), Times(c, b))
  {
    hide Times, Plus, Minus, Neg;
    PlusLaws(a, b, 0);
    TimesPlus(c, a, Neg(b));
    TimesNegRight(c, b);
    PlusLaws(Times(c, a), Times(c, b), 0);
  }
}
