/**
 Polynomials over GF(2^16) with the constant term first: Horner evaluation and
 Lagrange interpolation as the chunked transport performs them, and the uniqueness of
 the interpolating polynomial.
 */
module Lagrange {
  import opened Gf16

  type Poly = seq<Gf>

  /** A data point; points are told apart by their x. */
  datatype Pt = Pt(x: Gf, y: Gf)

  function Eval(p: Poly, x: Gf): (y: Gf) {
    if p == [] then ZERO else Add(p[0], Times(x, Eval(p[1..], x)))
  }

  function PolyAdd(p: Poly, q: Poly): (r: Poly)
    requires |p| == |q|
    ensures |r| == |p| && forall i | 0 <= i < |p| :: r[i] == Add(p[i], q[i])
  {
    seq(|p|, i requires 0 <= i < |p| => Add(p[i], q[i]))
  }

  function PolyScale(p: Poly, c: Gf): (r: Poly)
    ensures |r| == |p| && forall i | 0 <= i < |p| :: r[i] == Times(p[i], c)
  {
    seq(|p|, i requires 0 <= i < |p| => Times(p[i], c))
  }

  /** The zero polynomial written with `n` coefficients. */
  function Nought(n: nat): (r: Poly)
    ensures |r| == n && forall i | 0 <= i < n :: r[i] == ZERO
  {
    seq(n, i => ZERO)
  }

  /** p(x) * (x - root). */
  function MulLinear(p: Poly, root: Gf): (r: Poly)
    ensures |r| == |p| + 1
  {
    PolyAdd([ZERO] + p, PolyScale(p, root) + [ZERO])
  }

  function Pad(p: Poly, n: nat): (r: Poly)
    ensures |r| == if |p| < n then n else |p|
  {
    if |p| < n then p + Nought(n - |p|) else p
  }

  /** dst + c * src. */
  function AddScaled(dst: Poly, src: Poly, c: Gf): (r: Poly)
    ensures |r| == if |dst| < |src| then |src| else |dst|
  {
    PolyAdd(Pad(dst, |src|), Pad(PolyScale(src, c), |dst|))
  }

  /** The product of (x - pts[j].x) over j < n other than i, as a value. */
  function Factor(pts: seq<Pt>, i: nat, x: Gf, n: nat): (y: Gf)
    requires n <= |pts|
  {
    if n == 0 then ONE
    else if n - 1 == i then Factor(pts, i, x, n - 1)
    else Times(Factor(pts, i, x, n - 1), Add(x, pts[n - 1].x))
  }

  /** The same product as a polynomial. */
  function Basis(pts: seq<Pt>, i: nat, n: nat): (p: Poly)
    requires n <= |pts|
    ensures |p| == if i < n then n else n + 1
  {
    if n == 0 then [ONE]
    else if n - 1 == i then Basis(pts, i, n - 1)
    else MulLinear(Basis(pts, i, n - 1), pts[n - 1].x)
  }

  function Weight(pts: seq<Pt>, i: nat): (y: Gf)
    requires i < |pts|
  {
    Over(pts[i].y, Factor(pts, i, pts[i].x, |pts|))
  }

  /** Lagrange's formula restricted to the first `n` points of `pts`. */
  function PartialSum(pts: seq<Pt>, x: Gf, n: nat): (y: Gf)
    requires n <= |pts|
  {
    if n == 0 then ZERO
    else Add(PartialSum(pts, x, n - 1), Times(Weight(pts, n - 1), Factor(pts, n - 1, x, |pts|)))
  }

  /** The value at `x` of Lagrange's formula for `pts`. */
  function LagrangeAt(pts: seq<Pt>, x: Gf): (y: Gf) {
    PartialSum(pts, x, |pts|)
  }

  function InterpolantTo(pts: seq<Pt>, n: nat): (p: Poly)
    requires n <= |pts|
    ensures n > 0 ==> |p| == |pts|
    ensures n == 0 ==> |p| == 1
  {
    if n == 0 then [ZERO]
    else AddScaled(InterpolantTo(pts, n - 1), Basis(pts, n - 1, |pts|), Weight(pts, n - 1))
  }

  /** The coefficients the interpolation loops arrive at. */
  function Interpolant(pts: seq<Pt>): (p: Poly)
    ensures |p| == |pts|
  {
    if pts == [] then [] else InterpolantTo(pts, |pts|)
  }

  ghost predicate DistinctX(pts: seq<Pt>) {
    forall i, j | 0 <= i < j < |pts| :: pts[i].x != pts[j].x
  }

  // ----- the loops of the source -----

  /** Horner evaluation from the top coefficient down. */
  method EvalAt(p: Poly, x: Gf) returns (acc: Gf)
    ensures acc == Eval(p, x)
  {
    hide Add, Times;
    acc := ZERO;
    var i := |p|;
    while i > 0
      invariant 0 <= i <= |p|
      invariant acc == Eval(p[i..], x)
    {
      i := i - 1;
      assert p[i..][1..] == p[i + 1..];
      TimesComm(acc, x);
      AddLaws(Times(x, acc), p[i], ZERO);
      var t := GfMul(acc, x);
      acc := Add(t, p[i]);
    }
    assert p[0..] == p;
  }

  method PolyMulLinear(p: Poly, root: Gf) returns (r: Poly)
    ensures r == MulLinear(p, root)
  {
    hide Add, Times;
    ghost var goal := MulLinear(p, root);
    var out := new Gf[|p| + 1](_ => ZERO);
    for i := 0 to |p|
      invariant forall k | 0 <= k < i :: out[k] == goal[k]
      invariant out[i] == if i == 0 then ZERO else p[i - 1]
      invariant forall k | i < k <= |p| :: out[k] == ZERO
    {
      AddLaws(ZERO, p[i], ZERO);
      AddLaws(p[i], ZERO, ZERO);
      out[i + 1] := Add(out[i + 1], p[i]);
      var t := GfMul(p[i], root);
      out[i] := Add(out[i], t);
      assert goal[i] == Add(([ZERO] + p)[i], (PolyScale(p, root) + [ZERO])[i]);
    }
    AddLaws(out[|p|], ZERO, ZERO);
    assert goal[|p|] == Add(([ZERO] + p)[|p|], ZERO);
    r := out[..];
  }

  method PolyAddScaled(dst: Poly, src: Poly, scale: Gf) returns (r: Poly)
    ensures r == AddScaled(dst, src, scale)
  {
    hide Add, Times;
    var grown := if |src| > |dst| then dst + Nought(|src| - |dst|) else dst;
    var out := new Gf[|grown|](i requires 0 <= i < |grown| => grown[i]);
    for i := 0 to |src|
      invariant forall k | 0 <= k < i :: out[k] == Add(grown[k], Times(src[k], scale))
      invariant forall k | i <= k < |grown| :: out[k] == grown[k]
    {
      var t := GfMul(src[i], scale);
      out[i] := Add(out[i], t);
    }
    forall k | |src| <= k < |grown| ensures Add(grown[k], ZERO) == grown[k] {
      AddLaws(grown[k], ZERO, ZERO);
    }
    r := out[..];
    assert r == AddScaled(dst, src, scale);
  }

  /** Accumulates the scaled basis polynomials, one per point. */
  method LagrangeInterpolate(pts: seq<Pt>) returns (p: Poly)
    ensures p == Interpolant(pts)
    ensures forall x: Gf :: Eval(p, x) == LagrangeAt(pts, x)
  {
    hide Add, Times, Over, MulLinear, AddScaled;
    if pts == [] {
      return [];
    }
    p := [ZERO];
    for i := 0 to |pts|
      invariant p == InterpolantTo(pts, i)
    {
      var num: Poly := [ONE];
      var denom: Gf := ONE;
      for j := 0 to |pts|
        invariant num == Basis(pts, i, j)
        invariant denom == Factor(pts, i, pts[i].x, j)
      {
        if j != i {
          num := PolyMulLinear(num, pts[j].x);
          denom := GfMul(denom, Add(pts[i].x, pts[j].x));
        }
      }
      var scale := GfDiv(pts[i].y, denom);
      assert scale == Weight(pts, i);
      p := PolyAddScaled(p, num, scale);
    }
    forall x: Gf ensures Eval(p, x) == LagrangeAt(pts, x) {
      EvalInterpolant(pts, x);
    }
  }

  // ----- evaluation is a ring homomorphism -----

  lemma {:induction false} EvalAdd(p: Poly, q: Poly, x: Gf)
    requires |p| == |q|
    ensures Eval(PolyAdd(p, q), x) == Add(Eval(p, x), Eval(q, x))
    decreases |p|
  {
    hide Add, Times;
    if p == [] {
      AddLaws(ZERO, ZERO, ZERO);
    } else {
      EvalAdd(p[1..], q[1..], x);
      assert PolyAdd(p, q)[1..] == PolyAdd(p[1..], q[1..]);
      var u, v := Eval(p[1..], x), Eval(q[1..], x);
      TimesAdd(x, u, v);
      AddFour(p[0], q[0], Times(x, u), Times(x, v));
    }
  }

  lemma AddFour(a: Gf, b: Gf, c: Gf, d: Gf)
    ensures Add(Add(a, b), Add(c, d)) == Add(Add(a, c), Add(b, d))
  {
  }

  lemma {:induction false} EvalScale(p: Poly, c: Gf, x: Gf)
    ensures Eval(PolyScale(p, c), x) == Times(Eval(p, x), c)
    decreases |p|
  {
    hide Add, Times;
    if p == [] {
      TimesOne(c);
    } else {
      EvalScale(p[1..], c, x);
      assert PolyScale(p, c)[1..] == PolyScale(p[1..], c);
      var u := Eval(p[1..], x);
      TimesAssoc(x, u, c);
      TimesAdd(c, p[0], Times(x, u));
    }
  }

  lemma {:induction false} EvalPad(p: Poly, k: nat, x: Gf)
    ensures Eval(p + Nought(k), x) == Eval(p, x)
    decreases |p|, k
  {
    hide Add, Times;
    if p != [] {
      EvalPad(p[1..], k, x);
      assert (p + Nought(k))[1..] == p[1..] + Nought(k);
    } else if k > 0 {
      EvalPad([], k - 1, x);
      assert ([] + Nought(k))[1..] == [] + Nought(k - 1);
      TimesOne(x);
      AddLaws(ZERO, ZERO, ZERO);
    } else {
      assert p + Nought(0) == p;
    }
  }

  lemma EvalMulLinear(p: Poly, root: Gf, x: Gf)
    ensures Eval(MulLinear(p, root), x) == Times(Eval(p, x), Add(x, root))
  {
    hide Add, Times;
    var e := Eval(p, x);
    EvalAdd([ZERO] + p, PolyScale(p, root) + [ZERO], x);
    EvalScale(p, root, x);
    EvalPad(PolyScale(p, root), 1, x);
    assert PolyScale(p, root) + Nought(1) == PolyScale(p, root) + [ZERO];
    assert ([ZERO] + p)[1..] == p;
    AddLaws(ZERO, Times(x, e), ZERO);
    AddLaws(Times(x, e), ZERO, ZERO);
    TimesComm(x, e);
    TimesAdd(e, x, root);
  }

  lemma EvalAddScaled(dst: Poly, src: Poly, c: Gf, x: Gf)
    ensures Eval(AddScaled(dst, src, c), x) == Add(Eval(dst, x), Times(c, Eval(src, x)))
  {
    hide Add, Times, Eval;
    var d, s := Pad(dst, |src|), Pad(PolyScale(src, c), |dst|);
    EvalAdd(d, s, x);
    EvalScale(src, c, x);
    TimesComm(c, Eval(src, x));
    if |dst| < |src| {
      EvalPad(dst, |src| - |dst|, x);
    } else {
      EvalPad(PolyScale(src, c), |dst| - |src|, x);
      assert |src| == |dst| ==> PolyScale(src, c) + Nought(0) == s;
    }
  }

  lemma EvalConstant(c: Gf, x: Gf)
    ensures Eval([c], x) == c
  {
    hide Add, Times;
    assert [c][1..] == [];
    assert Eval([c], x) == Add(c, Times(x, ZERO));
    TimesOne(x);
    AddLaws(c, ZERO, ZERO);
  }

  lemma {:induction false} EvalBasis(pts: seq<Pt>, i: nat, x: Gf, n: nat)
    requires n <= |pts|
    ensures Eval(Basis(pts, i, n), x) == Factor(pts, i, x, n)
    decreases n
  {
    hide Add, Times, MulLinear;
    if n == 0 {
      EvalConstant(ONE, x);
    } else {
      EvalBasis(pts, i, x, n - 1);
      EvalMulLinear(Basis(pts, i, n - 1), pts[n - 1].x, x);
    }
  }

  lemma {:induction false} EvalInterpolantTo(pts: seq<Pt>, x: Gf, n: nat)
    requires n <= |pts|
    ensures Eval(InterpolantTo(pts, n), x) == PartialSum(pts, x, n)
    decreases n
  {
    hide Add, Times, AddScaled, Basis, Factor, Weight, Eval;
    if n == 0 {
      EvalConstant(ZERO, x);
    } else {
      EvalInterpolantTo(pts, x, n - 1);
      EvalAddScaled(InterpolantTo(pts, n - 1), Basis(pts, n - 1, |pts|), Weight(pts, n - 1), x);
      EvalBasis(pts, n - 1, x, |pts|);
    }
  }

  /** The computed coefficients evaluate to Lagrange's formula. */
  lemma EvalInterpolant(pts: seq<Pt>, x: Gf)
    ensures Eval(Interpolant(pts), x) == LagrangeAt(pts, x)
  {
    if pts != [] {
      EvalInterpolantTo(pts, x, |pts|);
    }
  }

  // ----- the formula passes through every point -----

  lemma {:induction false} FactorVanishes(pts: seq<Pt>, i: nat, k: nat, n: nat)
    requires k < n <= |pts| && k != i
    ensures Factor(pts, i, pts[k].x, n) == ZERO
    decreases n
  {
    hide Add, Times;
    if n - 1 == k {
      AddLaws(pts[k].x, pts[k].x, ZERO);
      TimesOne(Factor(pts, i, pts[k].x, n - 1));
    } else {
      FactorVanishes(pts, i, k, n - 1);
      TimesOne(Add(pts[k].x, pts[n - 1].x));
    }
  }

  lemma OneIsNotZero()
    ensures ONE != ZERO
  {
    assert ONE[0] && !ZERO[0];
  }

  lemma {:induction false} FactorNonzero(pts: seq<Pt>, i: nat, n: nat)
    requires i < |pts| && n <= |pts| && DistinctX(pts)
    ensures Factor(pts, i, pts[i].x, n) != ZERO
    decreases n
  {
    hide Add, Times;
    OneIsNotZero();
    if n > 0 && n - 1 != i {
      FactorNonzero(pts, i, n - 1);
      AddLaws(pts[i].x, pts[n - 1].x, ZERO);
      NoZeroDivisors(Factor(pts, i, pts[i].x, n - 1), Add(pts[i].x, pts[n - 1].x));
    } else if n > 0 {
      FactorNonzero(pts, i, n - 1);
    }
  }

  lemma {:induction false} PartialSumAt(pts: seq<Pt>, k: nat, n: nat)
    requires k < |pts| && n <= |pts| && DistinctX(pts)
    ensures PartialSum(pts, pts[k].x, n) == if k < n then pts[k].y else ZERO
    decreases n
  {
    hide Add, Times, Over, Factor;
    if n > 0 {
      var i, x := n - 1, pts[k].x;
      PartialSumAt(pts, k, i);
      if i == k {
        FactorNonzero(pts, k, |pts|);
        OverTimes(pts[k].y, Factor(pts, k, x, |pts|));
        AddLaws(ZERO, pts[k].y, ZERO);
        AddLaws(pts[k].y, ZERO, ZERO);
      } else {
        FactorVanishes(pts, i, k, |pts|);
        TimesOne(Weight(pts, i));
        AddLaws(PartialSum(pts, x, i), ZERO, ZERO);
      }
    }
  }

  /** Interpolation passes through every point it was given. */
  lemma LagrangeThrough(pts: seq<Pt>, k: nat)
    requires k < |pts| && DistinctX(pts)
    ensures LagrangeAt(pts, pts[k].x) == pts[k].y
  {
    PartialSumAt(pts, k, |pts|);
  }

  // ----- uniqueness -----

  /** The quotient of p(x) - p(r) by (x - r). */
  function Quotient(p: Poly, r: Gf): (q: Poly)
    ensures |q| == if p == [] then 0 else |p| - 1
  {
    if |p| <= 1 then [] else [Eval(p[1..], r)] + Quotient(p[1..], r)
  }

  lemma {:induction false} FactorTheorem(p: Poly, r: Gf, x: Gf)
    ensures Add(Eval(p, x), Eval(p, r)) == Times(Add(x, r), Eval(Quotient(p, r), x))
    decreases |p|
  {
    hide Add, Times;
    var s := Add(x, r);
    if |p| <= 1 {
      TimesOne(s);
      TimesOne(x);
      TimesOne(r);
      AddLaws(Eval(p, x), Eval(p, r), ZERO);
      assert |p| == 1 ==> p[1..] == [];
    } else {
      var t := p[1..];
      FactorTheorem(t, r, x);
      var q := Quotient(t, r);
      assert Quotient(p, r)[0] == Eval(t, r) && Quotient(p, r)[1..] == q;
      FactorTheoremStep(p[0], x, r, Eval(t, x), Eval(t, r), Eval(q, x));
    }
  }

  /** (c + x*u) + (c + r*v) = (x + r)*(v + x*w) when u + v = (x + r)*w. */
  lemma FactorTheoremStep(c: Gf, x: Gf, r: Gf, u: Gf, v: Gf, w: Gf)
    requires Add(u, v) == Times(Add(x, r), w)
    ensures Add(Add(c, Times(x, u)), Add(c, Times(r, v))) == Times(Add(x, r), Add(v, Times(x, w)))
  {
    var s := Add(x, r);
    assert Times(s, Add(v, Times(x, w))) == Add(Times(s, v), Times(x, Times(s, w))) by {
      TimesAdd(s, v, Times(x, w));
      hide Add, Times;
      TimesAssoc(s, x, w);
      TimesComm(s, x);
      TimesAssoc(x, s, w);
    }
    TimesAdd(x, u, v);
    TimesAdd(v, x, r);
    CancelOut(c, Times(x, u), Times(r, v), Times(x, v));
  }

  lemma CancelOut(c: Gf, a: Gf, b: Gf, d: Gf)
    ensures Add(Add(c, a), Add(c, b)) == Add(Add(d, b), Add(a, d))
  {
  }

  /** A polynomial with more distinct roots than its degree allows vanishes everywhere. */
  lemma {:induction false} Vanishes(p: Poly, roots: seq<Gf>, x: Gf)
    requires |p| <= |roots|
    requires forall i, j | 0 <= i < j < |roots| :: roots[i] != roots[j]
    requires forall i | 0 <= i < |roots| :: Eval(p, roots[i]) == ZERO
    ensures Eval(p, x) == ZERO
    decreases |p|
  {
    if p != [] {
      hide Add, Times, Eval;
      var r, rest := roots[0], roots[1..];
      var q := Quotient(p, r);
      forall i | 0 <= i < |rest| ensures Eval(q, rest[i]) == ZERO {
        FactorTheorem(p, r, rest[i]);
        assert rest[i] == roots[i + 1];
        AddLaws(ZERO, ZERO, ZERO);
        AddLaws(rest[i], r, ZERO);
        NoZeroDivisors(Add(rest[i], r), Eval(q, rest[i]));
      }
      Vanishes(q, rest, x);
      FactorTheorem(p, r, x);
      AddLaws(Eval(p, x), ZERO, ZERO);
      TimesOne(Add(x, r));
    }
  }

  /** Two polynomials of degree < n that agree in n places agree everywhere. */
  lemma InterpolationUnique(p: Poly, q: Poly, roots: seq<Gf>, x: Gf)
    requires |p| == |q| <= |roots|
    requires forall i, j | 0 <= i < j < |roots| :: roots[i] != roots[j]
    requires forall i | 0 <= i < |roots| :: Eval(p, roots[i]) == Eval(q, roots[i])
    ensures Eval(p, x) == Eval(q, x)
  {
    hide Add, Eval;
    var d := PolyAdd(p, q);
    forall i | 0 <= i < |roots| ensures Eval(d, roots[i]) == ZERO {
      EvalAdd(p, q, roots[i]);
      AddLaws(Eval(p, roots[i]), Eval(q, roots[i]), ZERO);
    }
    Vanishes(d, roots, x);
    EvalAdd(p, q, x);
    AddLaws(Eval(p, x), Eval(q, x), ZERO);
  }

  /** Any `n` points of the curve through `n` given points interpolate to the same curve. */
  lemma Reinterpolation(data: seq<Pt>, pts: seq<Pt>, x: Gf)
    requires |pts| == |data| && DistinctX(pts)
    requires forall i | 0 <= i < |pts| :: pts[i].y == LagrangeAt(data, pts[i].x)
    ensures LagrangeAt(pts, x) == LagrangeAt(data, x)
  {
    hide Eval, LagrangeAt, Interpolant;
    var p, q := Interpolant(pts), Interpolant(data);
    var roots := seq(|pts|, i requires 0 <= i < |pts| => pts[i].x);
    forall i | 0 <= i < |roots| ensures Eval(p, roots[i]) == Eval(q, roots[i]) {
      EvalInterpolant(pts, roots[i]);
      EvalInterpolant(data, roots[i]);
      LagrangeThrough(pts, i);
    }
    InterpolationUnique(p, q, roots, x);
    EvalInterpolant(pts, x);
    EvalInterpolant(data, x);
  }
}
