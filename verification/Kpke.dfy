/**
 The public-key encryption under ML-KEM-768: keys and ciphertexts as the core computes
 them in the transformed domain, and exactly when decryption gives back the message.
 */
module Kpke {
  import opened Words
  import opened Zq
  import opened Rq
  import opened Ntt
  import opened BitPacking
  import opened RingCodec

  const K := 3

  /** A vector of ring or transformed elements. */
  predicate IsVec(v: seq<Poly>, n: nat) {
    |v| == n && forall i | 0 <= i < n :: |v[i]| == N
  }

  /** start + x[0] y[0] + ... in the transformed domain, as the loops accumulate it. */
  function Accumulate(start: Poly, x: seq<Poly>, y: seq<Poly>): (s: Poly)
    requires |start| == N && IsVec(x, |y|) && IsVec(y, |y|)
    ensures |s| == N
    decreases |x|
  {
    if x == [] then start
    else
      var n := |x| - 1;
      Add(Accumulate(start, x[..n], y[..n]), PointMul(x[n], y[n]))
  }

  function MatrixRow(a: seq<Poly>, i: nat): (r: seq<Poly>)
    requires IsVec(a, 9) && i < K
    ensures IsVec(r, K)
  {
    [a[3 * i], a[3 * i + 1], a[3 * i + 2]]
  }

  function MatrixColumn(a: seq<Poly>, i: nat): (r: seq<Poly>)
    requires IsVec(a, 9) && i < K
    ensures IsVec(r, K)
  {
    [a[i], a[3 + i], a[6 + i]]
  }

  /** Entry i of the public vector: row i of A times s, plus e. */
  function PublicEntry(a: seq<Poly>, s: seq<Poly>, e: Poly, i: nat): (t: Poly)
    requires IsVec(a, 9) && IsVec(s, K) && |e| == N && i < K
    ensures |t| == N
  {
    Accumulate(e, MatrixRow(a, i), s)
  }

  /** Entry i of u: column i of A times r, taken back, plus e1. */
  function CipherU(a: seq<Poly>, r: seq<Poly>, e1: Poly, i: nat): (u: Poly)
    requires IsVec(a, 9) && IsVec(r, K) && |e1| == N && i < K
    ensures |u| == N
  {
    Add(e1, Inverse(Accumulate(Zero(N), MatrixColumn(a, i), r)))
  }

  function CipherV(t: seq<Poly>, r: seq<Poly>, e2: Poly, mu: Poly): (v: Poly)
    requires IsVec(t, K) && IsVec(r, K) && |e2| == N == |mu|
    ensures |v| == N
  {
    Add(Add(Inverse(Accumulate(Zero(N), t, r)), e2), mu)
  }

  /** v minus s times u: the message coefficients with the noise on them. */
  function Unmask(s: seq<Poly>, u: seq<Poly>, v: Poly): (w: Poly)
    requires IsVec(s, K) && IsVec(u, K) && |v| == N
    ensures |w| == N
  {
    Sub(v, Inverse(Accumulate(Zero(N), s, Transforms(u))))
  }

  function Transforms(v: seq<Poly>): (w: seq<Poly>)
    requires IsVec(v, |v|)
    ensures IsVec(w, |v|) && forall i | 0 <= i < |v| :: w[i] == Transform(v[i])
  {
    seq(|v|, i requires 0 <= i < |v| => Transform(v[i]))
  }

  // ----- in the ring -----

  function RMul(a: Poly, b: Poly): (c: Poly)
    requires |a| == N == |b|
    ensures |c| == N
  {
    Mul(a, b, Q - 1)
  }

  function Sum3(a: Poly, b: Poly, c: Poly): (s: Poly)
    requires |a| == N == |b| && |c| == N
    ensures |s| == N
  {
    Add(Add(a, b), c)
  }

  lemma AccumulateThree(start: Poly, x: seq<Poly>, y: seq<Poly>)
    requires |start| == N && IsVec(x, K) && IsVec(y, K)
    ensures Accumulate(start, x, y)
         == Add(Add(Add(start, PointMul(x[0], y[0])), PointMul(x[1], y[1])), PointMul(x[2], y[2]))
  {
    hide Add, PointMul;
    assert x[..2][..1] == x[..1] && y[..2][..1] == y[..1];
    assert x[..1][..0] == [] && y[..1][..0] == [];
    assert Accumulate(start, x[..1], y[..1]) == Add(start, PointMul(x[0], y[0]));
  }

  /** x[0] y[0] + x[1] y[1] + x[2] y[2] in the ring, for transformed x and y. */
  ghost function RingDot(x: seq<Poly>, y: seq<Poly>): (s: Poly)
    requires IsVec(x, K) && IsVec(y, K)
    ensures |s| == N
  {
    Sum3(RMul(Inverse(x[0]), Inverse(y[0])), RMul(Inverse(x[1]), Inverse(y[1])), RMul(Inverse(x[2]), Inverse(y[2])))
  }

  /** An accumulated product taken back to the ring. */
  lemma InverseOfSum(start: Poly, x: seq<Poly>, y: seq<Poly>)
    requires |start| == N && IsVec(x, K) && IsVec(y, K)
    ensures Inverse(Accumulate(start, x, y)) == Add(Inverse(start), RingDot(x, y))
  {
    hide Add, PointMul, Inverse, Accumulate, Mul;
    AccumulateThree(start, x, y);
    var p, q, r := PointMul(x[0], y[0]), PointMul(x[1], y[1]), PointMul(x[2], y[2]);
    InverseAdd(start, p);
    InverseAdd(Add(start, p), q);
    InverseAdd(Add(Add(start, p), q), r);
    InverseOfProduct(x[0], y[0]);
    InverseOfProduct(x[1], y[1]);
    InverseOfProduct(x[2], y[2]);
    FourSum(Inverse(start), Inverse(p), Inverse(q), Inverse(r));
  }

  lemma FourSum(a: Poly, b: Poly, c: Poly, d: Poly)
    requires |a| == N == |b| && |c| == N == |d|
    ensures Add(Add(Add(a, b), c), d) == Add(a, Sum3(b, c, d))
  {
    hide Add;
    AddLaws(Add(a, b), c, d);
    AddLaws(a, b, Add(c, d));
    AddLaws(b, c, d);
  }

  /** (z + x0 + x1 + x2) y, term by term. */
  lemma SumTimes(z: Poly, x: seq<Poly>, y: Poly)
    requires |z| == N == |y| && IsVec(x, K)
    ensures RMul(Add(z, Sum3(x[0], x[1], x[2])), y)
         == Add(RMul(z, y), Sum3(RMul(x[0], y), RMul(x[1], y), RMul(x[2], y)))
  {
    hide Add, Mul;
    MulAddLeft(z, Sum3(x[0], x[1], x[2]), y, Q - 1);
    MulAddLeft(Add(x[0], x[1]), x[2], y, Q - 1);
    MulAddLeft(x[0], x[1], y, Q - 1);
  }

  lemma TimesSum(y: Poly, z: Poly, x: seq<Poly>)
    requires |z| == N == |y| && IsVec(x, K)
    ensures RMul(y, Add(z, Sum3(x[0], x[1], x[2])))
         == Add(RMul(y, z), Sum3(RMul(y, x[0]), RMul(y, x[1]), RMul(y, x[2])))
  {
    hide Add, Mul;
    MulAddRight(y, z, Sum3(x[0], x[1], x[2]), Q - 1);
    MulAddRight(y, Add(x[0], x[1]), x[2], Q - 1);
    MulAddRight(y, x[0], x[1], Q - 1);
  }

  /** s (a r) == (a s) r */
  lemma Regroup(s: Poly, a: Poly, r: Poly)
    requires |s| == N == |a| && |r| == N
    ensures RMul(s, RMul(a, r)) == RMul(RMul(a, s), r)
  {
    hide Mul;
    MulAssoc(s, a, r, Q - 1);
    MulComm(s, a, Q - 1);
  }

  // ----- sums of coefficients -----

  function Sum3Fe(a: Fe, b: Fe, c: Fe): (s: Fe) {
    Plus(Plus(a, b), c)
  }

  lemma Sum3Is(a: Fe, b: Fe, c: Fe)
    ensures Sum3Fe(a, b, c) == Mod(a + b + c)
  {
    hide Mod;
    ModPlus(a + b, c);
  }

  /** Summing a square table by rows or by columns. */
  lemma RowsAndColumns(t: seq<Fe>)
    requires |t| == 9
    ensures Sum3Fe(Sum3Fe(t[0], t[1], t[2]), Sum3Fe(t[3], t[4], t[5]), Sum3Fe(t[6], t[7], t[8]))
         == Sum3Fe(Sum3Fe(t[0], t[3], t[6]), Sum3Fe(t[1], t[4], t[7]), Sum3Fe(t[2], t[5], t[8]))
  {
    hide Mod;
    Sum9(t[0], t[1], t[2], t[3], t[4], t[5], t[6], t[7], t[8]);
    Sum9(t[0], t[3], t[6], t[1], t[4], t[7], t[2], t[5], t[8]);
  }

  lemma Sum9(a: Fe, b: Fe, c: Fe, d: Fe, e: Fe, f: Fe, g: Fe, h: Fe, i: Fe)
    ensures Sum3Fe(Sum3Fe(a, b, c), Sum3Fe(d, e, f), Sum3Fe(g, h, i)) == Mod(a + b + c + d + e + f + g + h + i)
  {
    hide Mod, Plus;
    Sum3Is(a, b, c);
    Sum3Is(d, e, f);
    Sum3Is(g, h, i);
    OnResidues(a + b + c, d + e + f);
    OnResidues(a + b + c + d + e + f, g + h + i);
  }

  /** What is left when the common part c cancels. */
  lemma Cancels(e: Fe, c: Fe, e2: Fe, mu: Fe, cv: Fe, d: Fe)
    ensures Minus(Plus(Plus(Plus(Plus(e, c), e2), mu), cv), Plus(d, c)) == Plus(mu, Minus(Plus(Plus(e, e2), cv), d))
  {
    hide Mod;
    OnResidues(e + c, e2);
    OnResidues(e + c + e2, mu);
    OnResidues(e + c + e2 + mu, cv);
    ModSmall(e2);
    ModSmall(mu);
    ModSmall(cv);
    ModSmall(d);
    OnResidues(e + c + e2 + mu + cv, d + c);
    OnResidues(e + e2, cv);
    OnResidues(e + e2 + cv, d);
    OnResidues(mu, e + e2 + cv - d);
  }

  // ----- decryption undoes encryption up to noise -----

  /** The term a[i, j] s[j] r[i] that both sides contain. */
  ghost function Cross(a: seq<Poly>, s: seq<Poly>, r: seq<Poly>, i: nat, j: nat): (p: Poly)
    requires IsVec(a, 9) && IsVec(s, K) && IsVec(r, K) && i < K && j < K
    ensures |p| == N
  {
    RMul(RMul(Inverse(a[3 * i + j]), Inverse(s[j])), Inverse(r[i]))
  }

  lemma PublicProduct(a: seq<Poly>, s: seq<Poly>, e: Poly, r: seq<Poly>, i: nat)
    requires IsVec(a, 9) && IsVec(s, K) && |e| == N && IsVec(r, K) && i < K
    ensures RMul(Inverse(PublicEntry(a, s, e, i)), Inverse(r[i]))
         == Add(RMul(Inverse(e), Inverse(r[i])), Sum3(Cross(a, s, r, i, 0), Cross(a, s, r, i, 1), Cross(a, s, r, i, 2)))
  {
    hide Inverse, Mul, Add, Accumulate;
    var row := MatrixRow(a, i);
    InverseOfSum(e, row, s);
    var x := [RMul(Inverse(row[0]), Inverse(s[0])), RMul(Inverse(row[1]), Inverse(s[1])),
      RMul(Inverse(row[2]), Inverse(s[2]))];
    SumTimes(Inverse(e), x, Inverse(r[i]));
  }

  lemma AddZero(f: Poly)
    requires |f| == N
    ensures Add(Zero(N), f) == f
  {
    hide Add;
    AddLaws(f, Zero(N), Zero(N));
  }

  lemma AddSub(f: Poly, g: Poly)
    requires |f| == N == |g|
    ensures Add(f, Sub(g, f)) == g
  {
    hide Plus, Minus;
    forall i | 0 <= i < N ensures Plus(f[i], Minus(g[i], f[i])) == g[i] {
      PlusLaws(g[i], f[i], 0);
      PlusLaws(f[i], Minus(g[i], f[i]), 0);
    }
  }

  /** The part of u that a recipient sees beyond column i of A times r. */
  ghost function USeen(a: seq<Poly>, r: seq<Poly>, e1: Poly, u: Poly, i: nat): (f: Poly)
    requires IsVec(a, 9) && IsVec(r, K) && |e1| == N == |u| && i < K
    ensures |f| == N
  {
    Add(e1, Sub(u, CipherU(a, r, e1, i)))
  }

  lemma SeenIs(a: seq<Poly>, r: seq<Poly>, e1: Poly, u: Poly, i: nat)
    requires IsVec(a, 9) && IsVec(r, K) && |e1| == N == |u| && i < K
    ensures u == Add(USeen(a, r, e1, u, i), RingDot(MatrixColumn(a, i), r))
  {
    hide Inverse, Mul, Add, Accumulate, Sub, RingDot;
    var col := MatrixColumn(a, i);
    var c := Sub(u, CipherU(a, r, e1, i));
    InverseOfSum(Zero(N), col, r);
    InverseOfZero();
    AddZero(RingDot(col, r));
    AddSub(CipherU(a, r, e1, i), u);
    AddLaws(e1, RingDot(col, r), c);
    AddLaws(RingDot(col, r), c, c);
    AddLaws(e1, c, RingDot(col, r));
  }

  lemma MaskProduct(a: seq<Poly>, s: seq<Poly>, r: seq<Poly>, e1: Poly, u: Poly, i: nat)
    requires IsVec(a, 9) && IsVec(s, K) && IsVec(r, K) && |e1| == N == |u| && i < K
    ensures RMul(Inverse(s[i]), u)
         == Add(RMul(Inverse(s[i]), USeen(a, r, e1, u, i)),
           Sum3(Cross(a, s, r, 0, i), Cross(a, s, r, 1, i), Cross(a, s, r, 2, i)))
  {
    hide Inverse, Mul, Add, Accumulate, USeen;
    var col, si := MatrixColumn(a, i), Inverse(s[i]);
    SeenIs(a, r, e1, u, i);
    var x := [RMul(Inverse(col[0]), Inverse(r[0])), RMul(Inverse(col[1]), Inverse(r[1])),
      RMul(Inverse(col[2]), Inverse(r[2]))];
    TimesSum(si, USeen(a, r, e1, u, i), x);
    Regroup(si, Inverse(col[0]), Inverse(r[0]));
    Regroup(si, Inverse(col[1]), Inverse(r[1]));
    Regroup(si, Inverse(col[2]), Inverse(r[2]));
  }

  function PublicVector(a: seq<Poly>, s: seq<Poly>, e: seq<Poly>): (t: seq<Poly>)
    requires IsVec(a, 9) && IsVec(s, K) && IsVec(e, K)
    ensures IsVec(t, K)
  {
    [PublicEntry(a, s, e[0], 0), PublicEntry(a, s, e[1], 1), PublicEntry(a, s, e[2], 2)]
  }

  /** One encryption: what was drawn, and the u and v the recipient decompressed. */
  datatype Exchange = Exchange(
    a: seq<Poly>, s: seq<Poly>, e: seq<Poly>,
    r: seq<Poly>, e1: seq<Poly>, e2: Poly, mu: Poly,
    u: seq<Poly>, v: Poly)
  {
    predicate Ok() {
      && IsVec(a, 9) && IsVec(s, K) && IsVec(e, K) && IsVec(r, K) && IsVec(e1, K) && IsVec(u, K)
      && |e2| == N == |mu| && |v| == N
    }

    /** How far v is from what was computed before compression. */
    ghost function VError(): (f: Poly)
      requires Ok()
      ensures |f| == N
    {
      Sub(v, CipherV(PublicVector(a, s, e), r, e2, mu))
    }

    /** s times the errors in u: those drawn and those of compression. */
    ghost function UNoise(): (f: Poly)
      requires Ok()
      ensures |f| == N
    {
      Sum3(RMul(Inverse(s[0]), USeen(a, r, e1[0], u[0], 0)),
           RMul(Inverse(s[1]), USeen(a, r, e1[1], u[1], 1)),
           RMul(Inverse(s[2]), USeen(a, r, e1[2], u[2], 2)))
    }

    /** Key and ciphertext errors and compression errors together: e r + e2 + cv - s (e1 + cu). */
    ghost function Noise(): (f: Poly)
      requires Ok()
      ensures |f| == N
    {
      Sub(Add(Add(RingDot(e, r), e2), VError()), UNoise())
    }
  }

  ghost function RowSum(x: Exchange, i: nat): (f: Poly)
    requires x.Ok() && i < K
    ensures |f| == N
  {
    Sum3(Cross(x.a, x.s, x.r, i, 0), Cross(x.a, x.s, x.r, i, 1), Cross(x.a, x.s, x.r, i, 2))
  }

  ghost function ColumnSum(x: Exchange, i: nat): (f: Poly)
    requires x.Ok() && i < K
    ensures |f| == N
  {
    Sum3(Cross(x.a, x.s, x.r, 0, i), Cross(x.a, x.s, x.r, 1, i), Cross(x.a, x.s, x.r, 2, i))
  }

  ghost function RowTotal(x: Exchange): (f: Poly)
    requires x.Ok()
    ensures |f| == N
  {
    Sum3(RowSum(x, 0), RowSum(x, 1), RowSum(x, 2))
  }

  lemma Sum3At(a: Poly, b: Poly, c: Poly, k: nat)
    requires |a| == N == |b| && |c| == N && k < N
    ensures Sum3(a, b, c)[k] == Sum3Fe(a[k], b[k], c[k])
  {
    hide Plus;
  }

  lemma TotalsAgree(x: Exchange)
    requires x.Ok()
    ensures RowTotal(x) == Sum3(ColumnSum(x, 0), ColumnSum(x, 1), ColumnSum(x, 2))
  {
    hide Cross, Sum3, Sum3Fe;
    var t := [Cross(x.a, x.s, x.r, 0, 0), Cross(x.a, x.s, x.r, 0, 1), Cross(x.a, x.s, x.r, 0, 2),
              Cross(x.a, x.s, x.r, 1, 0), Cross(x.a, x.s, x.r, 1, 1), Cross(x.a, x.s, x.r, 1, 2),
              Cross(x.a, x.s, x.r, 2, 0), Cross(x.a, x.s, x.r, 2, 1), Cross(x.a, x.s, x.r, 2, 2)];
    var columns := Sum3(ColumnSum(x, 0), ColumnSum(x, 1), ColumnSum(x, 2));
    forall k | 0 <= k < N ensures RowTotal(x)[k] == columns[k] {
      Sum3At(RowSum(x, 0), RowSum(x, 1), RowSum(x, 2), k);
      Sum3At(ColumnSum(x, 0), ColumnSum(x, 1), ColumnSum(x, 2), k);
      Sum3At(t[0], t[1], t[2], k);
      Sum3At(t[3], t[4], t[5], k);
      Sum3At(t[6], t[7], t[8], k);
      Sum3At(t[0], t[3], t[6], k);
      Sum3At(t[1], t[4], t[7], k);
      Sum3At(t[2], t[5], t[8], k);
      RowsAndColumns([t[0][k], t[1][k], t[2][k], t[3][k], t[4][k], t[5][k], t[6][k], t[7][k], t[8][k]]);
    }
  }

  lemma SumOfSums(a: seq<Poly>, b: seq<Poly>)
    requires IsVec(a, K) && IsVec(b, K)
    ensures Sum3(Add(a[0], b[0]), Add(a[1], b[1]), Add(a[2], b[2]))
      == Add(Sum3(a[0], a[1], a[2]), Sum3(b[0], b[1], b[2]))
  {
    hide Add;
    AddSwap(a[0], b[0], a[1], b[1]);
    AddSwap(Add(a[0], a[1]), Add(b[0], b[1]), a[2], b[2]);
  }

  /** t times r is e times r plus the common terms. */
  lemma PublicSide(x: Exchange)
    requires x.Ok()
    ensures Inverse(Accumulate(Zero(N), PublicVector(x.a, x.s, x.e), x.r)) == Add(RingDot(x.e, x.r), RowTotal(x))
  {
    hide Inverse, Mul, Add, Accumulate, Cross, PublicEntry;
    var t := PublicVector(x.a, x.s, x.e);
    InverseOfSum(Zero(N), t, x.r);
    InverseOfZero();
    AddZero(RingDot(t, x.r));
    PublicProduct(x.a, x.s, x.e[0], x.r, 0);
    PublicProduct(x.a, x.s, x.e[1], x.r, 1);
    PublicProduct(x.a, x.s, x.e[2], x.r, 2);
    SumOfSums([RMul(Inverse(x.e[0]), Inverse(x.r[0])), RMul(Inverse(x.e[1]), Inverse(x.r[1])),
      RMul(Inverse(x.e[2]), Inverse(x.r[2]))],
              [RowSum(x, 0), RowSum(x, 1), RowSum(x, 2)]);
  }

  /** s times u is s times the errors plus the same common terms. */
  lemma SecretSide(x: Exchange)
    requires x.Ok()
    ensures Inverse(Accumulate(Zero(N), x.s, Transforms(x.u))) == Add(x.UNoise(), RowTotal(x))
  {
    hide Inverse, Mul, Add, Accumulate, Cross, USeen, Transform;
    var w := Transforms(x.u);
    InverseOfSum(Zero(N), x.s, w);
    InverseOfZero();
    AddZero(RingDot(x.s, w));
    InverseOfTransform(x.u[0]);
    InverseOfTransform(x.u[1]);
    InverseOfTransform(x.u[2]);
    MaskProduct(x.a, x.s, x.r, x.e1[0], x.u[0], 0);
    MaskProduct(x.a, x.s, x.r, x.e1[1], x.u[1], 1);
    MaskProduct(x.a, x.s, x.r, x.e1[2], x.u[2], 2);
    SumOfSums([RMul(Inverse(x.s[0]), USeen(x.a, x.r, x.e1[0], x.u[0], 0)),
               RMul(Inverse(x.s[1]), USeen(x.a, x.r, x.e1[1], x.u[1], 1)),
               RMul(Inverse(x.s[2]), USeen(x.a, x.r, x.e1[2], x.u[2], 2))],
              [ColumnSum(x, 0), ColumnSum(x, 1), ColumnSum(x, 2)]);
    TotalsAgree(x);
  }

  /** Unmasking leaves the message polynomial plus the noise. */
  lemma UnmaskedIsNoisy(x: Exchange)
    requires x.Ok()
    ensures Unmask(x.s, x.u, x.v) == Add(x.mu, x.Noise())
  {
    hide Inverse, Accumulate, RowTotal, RingDot, Exchange.UNoise, PublicVector, Plus, Minus, Transforms;
    PublicSide(x);
    SecretSide(x);
    var e, c, d, cv := RingDot(x.e, x.r), RowTotal(x), x.UNoise(), x.VError();
    var clean := CipherV(PublicVector(x.a, x.s, x.e), x.r, x.e2, x.mu);
    AddSub(clean, x.v);
    assert x.v == Add(Add(Add(Add(e, c), x.e2), x.mu), cv);
    forall k | 0 <= k < N ensures Unmask(x.s, x.u, x.v)[k] == Add(x.mu, x.Noise())[k] {
      Cancels(e[k], c[k], x.e2[k], x.mu[k], cv[k], d[k]);
    }
  }
}
