/**
 The number-theoretic transform: the tree of splittings of x^256 + 1, numbered like a
 heap, computed layer by layer in place.
 */
module Ntt {
  import opened Zq
  import opened Rq
  import opened NttTables

  const N := 256

  /** The number of coefficients at node k. */
  function Size(k: nat): (n: nat)
    requires 1 <= k < 256
  {
    if k < 2 then 256 else if k < 4 then 128 else if k < 8 then 64 else if k < 16 then 32
    else if k < 32 then 16 else if k < 64 then 8 else if k < 128 then 4 else 2
  }

  lemma SizeHalves(k: nat)
    requires 1 <= k < 128
    ensures Size(k) == 2 * Size(2 * k) == 2 * Size(2 * k + 1)
  {
  }

  /** The factor the joined layers below node k have gained, and the one those above it. */
  function GainBelow(k: nat): (c: Fe)
    requires 1 <= k < 256
  {
    if k < 2 then 128 else if k < 4 then 64 else if k < 8 then 32 else if k < 16 then 16
    else if k < 32 then 8 else if k < 64 then 4 else if k < 128 then 2 else 1
  }

  function GainAbove(k: nat): (c: Fe)
    requires 1 <= k < 256
  {
    if k < 2 then 1 else if k < 4 then 2 else if k < 8 then 4 else if k < 16 then 8
    else if k < 32 then 16 else if k < 64 then 32 else if k < 128 then 64 else 128
  }

  lemma Gains(k: nat)
    requires 1 <= k < 128
    ensures GainBelow(2 * k) == GainBelow(2 * k + 1) && Times(GainBelow(2 * k), 2) == GainBelow(k)
    ensures GainAbove(2 * k) == GainAbove(2 * k + 1) == Times(GainAbove(k), 2)
  {
  }

  /** f modulo x^Size(k) - Root(k). */
  function Node(f: Poly, k: nat): (h: Poly)
    requires |f| == N && 1 <= k < 256
    ensures |h| == Size(k)
    decreases k, |f|
  {
    if k == 1 then f
    else
      SizeHalves(k / 2);
      if k % 2 == 0 then Lo(Node(f, k / 2), Zeta(k / 2)) else Hi(Node(f, k / 2), Zeta(k / 2))
  }

  lemma Children(f: Poly, k: nat)
    requires |f| == N && 1 <= k < 128
    ensures Size(k) == 2 * Size(2 * k) == 2 * Size(2 * k + 1)
    ensures Node(f, 2 * k) == Lo(Node(f, k), Zeta(k)) && Node(f, 2 * k + 1) == Hi(Node(f, k), Zeta(k))
  {
    hide Zeta, Lo, Hi;
    assert (2 * k) / 2 == k == (2 * k + 1) / 2 && (2 * k) % 2 == 0 && (2 * k + 1) % 2 == 1;
  }

  /** The transform: the 128 remainders modulo the quadratic factors. */
  function Transform(f: Poly): (g: Poly)
    requires |f| == N
    ensures |g| == N
  {
    seq(N, i requires 0 <= i < N => Node(f, 128 + i / 2)[i % 2])
  }

  function Pair(g: Poly, j: nat): (h: Poly)
    requires |g| == N && j < 128
    ensures |h| == 2
  {
    [g[2 * j], g[2 * j + 1]]
  }

  lemma PairOfTransform(f: Poly, j: nat)
    requires |f| == N && j < 128
    ensures Pair(Transform(f), j) == Node(f, 128 + j)
  {
    hide Node;
    assert (2 * j) / 2 == j == (2 * j + 1) / 2;
    assert Size(128 + j) == 2;
  }

  lemma PairsDetermine(f: Poly, g: Poly)
    requires |f| == N == |g|
    requires forall j | 0 <= j < 128 :: Pair(f, j) == Pair(g, j)
    ensures f == g
  {
    forall i | 0 <= i < N ensures f[i] == g[i] {
      assert Pair(f, i / 2) == Pair(g, i / 2);
      assert f[i] == Pair(f, i / 2)[i % 2] && g[i] == Pair(g, i / 2)[i % 2];
    }
  }

  // ----- the transform is a ring homomorphism -----

  lemma {:induction false} NodeMul(a: Poly, b: Poly, k: nat)
    requires |a| == N == |b| && 1 <= k < 256
    ensures Node(Mul(a, b, Q - 1), k) == Mul(Node(a, k), Node(b, k), Root(k))
    decreases k
  {
    hide Mul, Zeta, Lo, Hi, Times, Neg;
    if k > 1 {
      var i := k / 2;
      var z := Zeta(i);
      NodeMul(a, b, i);
      Children(a, i);
      ZetaSquared(i);
      if k % 2 == 0 {
        LoMul(Node(a, i), Node(b, i), z);
      } else {
        HiIsLo(Node(a, i), z);
        HiIsLo(Node(b, i), z);
        HiIsLo(Mul(Node(a, i), Node(b, i), Root(i)), z);
        TimesNeg(z, z);
        LoMul(Node(a, i), Node(b, i), Neg(z));
      }
    }
  }

  /** Pairwise products modulo the quadratic factors. */
  function PointMul(f: Poly, g: Poly): (h: Poly)
    requires |f| == N == |g|
    ensures |h| == N
  {
    seq(N, i requires 0 <= i < N => Mul(Pair(f, i / 2), Pair(g, i / 2), Gamma(i / 2))[i % 2])
  }

  lemma PairOfPointMul(f: Poly, g: Poly, j: nat)
    requires |f| == N == |g| && j < 128
    ensures Pair(PointMul(f, g), j) == Mul(Pair(f, j), Pair(g, j), Gamma(j))
  {
    hide Mul, Gamma, Pair;
    var h := PointMul(f, g);
    assert (2 * j) / 2 == j == (2 * j + 1) / 2;
    assert Pair(h, j) == [h[2 * j], h[2 * j + 1]] by { PairIs(h, j); }
  }

  lemma PairIs(g: Poly, j: nat)
    requires |g| == N && j < 128
    ensures Pair(g, j) == [g[2 * j], g[2 * j + 1]]
  {
  }

  /** Multiplication modulo x^256 + 1 becomes pairwise multiplication. */
  lemma TransformOfProduct(a: Poly, b: Poly)
    requires |a| == N == |b|
    ensures Transform(Mul(a, b, Q - 1)) == PointMul(Transform(a), Transform(b))
  {
    hide Mul, Gamma, Transform, PointMul, Pair, Root, Node;
    forall j | 0 <= j < 128
      ensures Pair(Transform(Mul(a, b, Q - 1)), j) == Pair(PointMul(Transform(a), Transform(b)), j)
    {
      NodeMul(a, b, 128 + j);
      PairOfTransform(a, j);
      PairOfTransform(b, j);
      PairOfTransform(Mul(a, b, Q - 1), j);
      PairOfPointMul(Transform(a), Transform(b), j);
      GammaIsRoot(j);
    }
    PairsDetermine(Transform(Mul(a, b, Q - 1)), PointMul(Transform(a), Transform(b)));
  }

  // ----- and it has an inverse -----

  /** The joined subtree below node k: GainBelow(k) times the polynomial it came from. */
  function Up(g: Poly, k: nat): (h: Poly)
    requires |g| == N && 1 <= k < 256
    ensures |h| == Size(k)
    decreases 256 - k, |g|
  {
    if k >= 128 then Pair(g, k - 128)
    else
      SizeHalves(k);
      Join(Up(g, 2 * k), Up(g, 2 * k + 1), Zeta(Mirror(k)))
  }

  function Inverse(g: Poly): (f: Poly)
    requires |g| == N
    ensures |f| == N
  {
    Scale(3303, Up(g, 1))
  }

  lemma {:induction false} UpOfTransform(f: Poly, k: nat)
    requires |f| == N && 1 <= k < 256
    ensures Up(Transform(f), k) == Scale(GainBelow(k), Node(f, k))
    decreases 256 - k
  {
    hide Zeta, Lo, Hi, Times, Join, Scale, Node, Mirror, Transform, Pair, Up, Size, GainBelow;
    var p := Node(f, k);
    if k >= 128 {
      PairOfTransform(f, k - 128);
      UpLeaf(Transform(f), k - 128);
      ScaleTimes(1, 1, p);
    } else {
      var s, z, y := GainBelow(2 * k), Zeta(k), Zeta(Mirror(k));
      Gains(k);
      UpIs(Transform(f), k);
      UpOfTransform(f, 2 * k);
      UpOfTransform(f, 2 * k + 1);
      Children(f, k);
      ZetaMirror(k);
      JoinScale(s, Lo(p, z), Hi(p, z), y);
      JoinSplit(p, z, y);
      ScaleTimes(s, 2, p);
    }
  }

  lemma {:induction false} NodeScale(c: Fe, f: Poly, k: nat)
    requires |f| == N && 1 <= k < 256
    ensures Node(Scale(c, f), k) == Scale(c, Node(f, k))
    decreases k
  {
    hide Zeta, Lo, Hi, Scale, Neg;
    if k > 1 {
      var i := k / 2;
      NodeScale(c, f, i);
      Children(f, i);
      LoScale(c, Node(f, i), Zeta(i));
      LoScale(c, Node(f, i), Neg(Zeta(i)));
      HiIsLo(Node(f, i), Zeta(i));
      HiIsLo(Scale(c, Node(f, i)), Zeta(i));
    }
  }

  lemma {:induction false} NodeOfUp(g: Poly, k: nat)
    requires |g| == N && 1 <= k < 256
    ensures Node(Up(g, 1), k) == Scale(GainAbove(k), Up(g, k))
    decreases k
  {
    hide Zeta, Lo, Hi, Times, Join, Scale, Node, Up, Mirror, Neg;
    if k == 1 {
      ScaleTimes(1, 1, Up(g, 1));
      NodeOne(Up(g, 1));
    } else {
      var i := k / 2;
      var c, z, y := GainAbove(i), Zeta(i), Zeta(Mirror(i));
      NodeOfUp(g, i);
      Gains(i);
      Children(Up(g, 1), i);
      UpIs(g, i);
      ZetaMirror(i);
      var l, h := Up(g, 2 * i), Up(g, 2 * i + 1);
      SplitJoin(l, h, z, y);
      LoScale(c, Up(g, i), z);
      HiScale(c, Up(g, i), z);
      ScaleTimes(c, 2, l);
      ScaleTimes(c, 2, h);
      assert k == 2 * i || k == 2 * i + 1;
    }
  }

  lemma NodeOne(f: Poly)
    requires |f| == N
    ensures Node(f, 1) == f
  {
  }

  lemma UpIs(g: Poly, k: nat)
    requires |g| == N && 1 <= k < 128
    ensures Size(k) == 2 * Size(2 * k) == 2 * Size(2 * k + 1)
    ensures Up(g, k) == Join(Up(g, 2 * k), Up(g, 2 * k + 1), Zeta(Mirror(k)))
  {
    hide Zeta, Join, Mirror;
  }

  lemma HiScale(c: Fe, f: Poly, z: Fe)
    requires |f| % 2 == 0
    ensures Hi(Scale(c, f), z) == Scale(c, Hi(f, z))
  {
    hide Lo, Hi, Scale, Neg;
    HiIsLo(f, z);
    HiIsLo(Scale(c, f), z);
    LoScale(c, f, Neg(z));
  }

  lemma HalfOfTwo()
    ensures Times(3303, 128) == 1
  {
  }

  lemma InverseOfTransform(f: Poly)
    requires |f| == N
    ensures Inverse(Transform(f)) == f
  {
    hide Up, Transform, Scale, Times;
    UpOfTransform(f, 1);
    NodeOne(f);
    HalfOfTwo();
    ScaleTimes(3303, 128, f);
  }

  lemma TransformOfInverse(g: Poly)
    requires |g| == N
    ensures Transform(Inverse(g)) == g
  {
    hide Up, Transform, Scale, Times, Pair, Node;
    forall j | 0 <= j < 128 ensures Pair(Transform(Inverse(g)), j) == Pair(g, j) {
      var k := 128 + j;
      PairOfTransform(Inverse(g), j);
      NodeScale(3303, Up(g, 1), k);
      NodeOfUp(g, k);
      UpLeaf(g, j);
      HalfOfTwo();
      ScaleTimes(3303, 128, Pair(g, j));
    }
    PairsDetermine(Transform(Inverse(g)), g);
  }

  lemma UpLeaf(g: Poly, j: nat)
    requires |g| == N && j < 128
    ensures Up(g, 128 + j) == Pair(g, j) && GainBelow(128 + j) == 1
  {
  }

  /** Multiplying in the transformed domain is multiplying modulo x^256 + 1. */
  lemma ProductThroughTransform(a: Poly, b: Poly)
    requires |a| == N == |b|
    ensures Inverse(PointMul(Transform(a), Transform(b))) == Mul(a, b, Q - 1)
  {
    hide Inverse, PointMul, Transform, Mul;
    TransformOfProduct(a, b);
    InverseOfTransform(Mul(a, b, Q - 1));
  }

  // ----- both directions are linear -----

  lemma {:induction false} NodeAdd(f: Poly, g: Poly, k: nat)
    requires |f| == N == |g| && 1 <= k < 256
    ensures Node(Add(f, g), k) == Add(Node(f, k), Node(g, k))
    decreases k
  {
    hide Zeta, Lo, Hi, Add, Neg;
    if k > 1 {
      var i := k / 2;
      NodeAdd(f, g, i);
      Children(f, i);
      LoAdd(Node(f, i), Node(g, i), Zeta(i));
      LoAdd(Node(f, i), Node(g, i), Neg(Zeta(i)));
      HiIsLo(Node(f, i), Zeta(i));
      HiIsLo(Node(g, i), Zeta(i));
      HiIsLo(Add(Node(f, i), Node(g, i)), Zeta(i));
    }
  }

  lemma TransformAdd(f: Poly, g: Poly)
    requires |f| == N == |g|
    ensures Transform(Add(f, g)) == Add(Transform(f), Transform(g))
  {
    hide Node, Plus;
    forall i | 0 <= i < N ensures Transform(Add(f, g))[i] == Add(Transform(f), Transform(g))[i] {
      NodeAdd(f, g, 128 + i / 2);
    }
  }

  lemma InverseAdd(f: Poly, g: Poly)
    requires |f| == N == |g|
    ensures Inverse(Add(f, g)) == Add(Inverse(f), Inverse(g))
  {
    hide Transform, Inverse, Add;
    TransformOfInverse(f);
    TransformOfInverse(g);
    TransformAdd(Inverse(f), Inverse(g));
    InverseOfTransform(Add(Inverse(f), Inverse(g)));
  }

  /** The product of two transformed elements, taken back. */
  lemma InverseOfProduct(f: Poly, g: Poly)
    requires |f| == N == |g|
    ensures Inverse(PointMul(f, g)) == Mul(Inverse(f), Inverse(g), Q - 1)
  {
    hide Transform, Inverse, PointMul, Mul;
    TransformOfInverse(f);
    TransformOfInverse(g);
    ProductThroughTransform(Inverse(f), Inverse(g));
  }

  lemma InverseOfZero()
    ensures Inverse(Zero(N)) == Zero(N)
  {
    hide Up, Scale, Times, Transform, Inverse, Node;
    ScaleTimes(0, 0, Zero(N));
    forall i | 0 <= i < N ensures Transform(Zero(N))[i] == 0 {
      ZeroAt(i);
    }
    assert Transform(Zero(N)) == Zero(N);
    InverseOfTransform(Zero(N));
  }

  lemma ZeroAt(i: nat)
    requires i < N
    ensures Transform(Zero(N))[i] == 0
  {
    hide Node, Scale;
    NodeScale(0, Zero(N), 128 + i / 2);
    ScaleTimes(0, 0, Zero(N));
    ScaleTimes(0, 0, Node(Zero(N), 128 + i / 2));
  }
}
