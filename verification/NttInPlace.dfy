/** The transform and its inverse as loops over one array, layer by layer. */
module NttInPlace {
  import opened Zq
  import opened Rq
  import opened NttTables
  import opened Ntt

  /** A layer of `c` nodes whose halves have `length` coefficients. */
  predicate Layer(c: nat, length: nat) {
    || (c == 1 && length == 128) || (c == 2 && length == 64) || (c == 4 && length == 32)
    || (c == 8 && length == 16) || (c == 16 && length == 8) || (c == 32 && length == 4)
    || (c == 64 && length == 2)
  }

  lemma LayerSize(c: nat, length: nat, k: nat)
    requires Layer(c, length) && c <= k < 2 * c
    ensures Size(k) == 2 * length && Base(k) == c
  {
  }

  /** The nodes k, ..., k + n - 1 of a tree one after the other. */
  ghost function Row(t: seq<Poly>, k: nat, n: nat): (h: Poly)
    requires |t| == 256 && k + n <= 256
    decreases n
  {
    if n == 0 then [] else Row(t, k, n - 1) + t[k + n - 1]
  }

  lemma RowStep(t: seq<Poly>, k: nat, n: nat)
    requires |t| == 256 && k + n < 256
    ensures Row(t, k, n + 1) == Row(t, k, n) + t[k + n] && Row(t, k, 0) == []
  {
  }

  lemma {:induction false} RowFront(t: seq<Poly>, k: nat, n: nat)
    requires |t| == 256 && k + n <= 256 && n > 0
    ensures Row(t, k, n) == t[k] + Row(t, k + 1, n - 1)
    decreases n
  {
    if n == 1 {
      assert Row(t, k, 0) == [];
    } else {
      RowFront(t, k, n - 1);
      assert t[k] + Row(t, k + 1, n - 2) + t[k + n - 1] == t[k] + (Row(t, k + 1, n - 2) + t[k + n - 1]);
    }
  }

  lemma EmptyRow(t: seq<Poly>, k: nat)
    requires |t| == 256 && k <= 256
    ensures Row(t, k, 0) == []
  {
  }

  /** Replacing a block between two parts. */
  lemma Replace(a: Poly, front: Poly, block: Poly, back: Poly)
    requires a == front + (block + back)
    ensures a[..|front|] == front && a[|front|..|front| + |block|] == block && a[|front| + |block|..] == back
  {
    assert a == front + block + back;
  }

  lemma ReplaceTwo(a: Poly, front: Poly, lo: Poly, hi: Poly, back: Poly)
    requires a == front + (lo + (hi + back)) && |lo| == |hi|
    ensures var s, n := |front|, |lo|;
      a[..s] == front && a[s..s + n] == lo && a[s + n..s + 2 * n] == hi && a[s + 2 * n..] == back
  {
    assert a == front + lo + hi + back;
  }

  // ----- forward -----

  ghost predicate IsNodeTree(t: seq<Poly>, f: Poly) {
    |f| == N && |t| == 256 && forall k | 1 <= k < 256 :: t[k] == Node(f, k)
  }

  lemma NodeTree(f: Poly) returns (t: seq<Poly>)
    requires |f| == N
    ensures IsNodeTree(t, f) && forall k | 1 <= k < 256 :: t[k] != []
  {
    hide Node;
    t := [[]] + seq(255, k requires 0 <= k < 255 => Node(f, k + 1));
  }

  ghost function SplitAt(a: Poly, start: nat, length: nat, z: Fe): (r: Poly)
    requires start + 2 * length <= |a|
  {
    var b := a[start..start + 2 * length];
    a[..start] + (Lo(b, z) + Hi(b, z)) + a[start + 2 * length..]
  }

  /** The first j of `length` pairs at `start` have been split; w is the array before. */
  ghost predicate Split(w: Poly, r: Poly, start: nat, length: nat, j: nat, zeta: Fe)
    requires |r| == |w| && start + 2 * length <= |w| && j <= length
  {
    && (forall i | start <= i < start + j :: r[i] == Plus(w[i], Times(zeta, w[i + length])))
    && (forall i | start + length <= i < start + length + j :: r[i] == Minus(w[i - length], Times(zeta, w[i])))
    && (forall i | 0 <= i < |w| && !(start <= i < start + j) && !(start + length <= i < start + length + j) ::
          r[i] == w[i])
  }

  lemma HalvesAt(b: Poly, z: Fe, i: nat)
    requires |b| % 2 == 0 && i < |b| / 2
    ensures Lo(b, z)[i] == Plus(b[i], Times(z, b[|b| / 2 + i]))
    ensures Hi(b, z)[i] == Minus(b[i], Times(z, b[|b| / 2 + i]))
  {
    hide Plus, Minus, Times;
  }

  lemma SplitDone(w: Poly, r: Poly, start: nat, length: nat, zeta: Fe)
    requires |r| == |w| && start + 2 * length <= |w| && Split(w, r, start, length, length, zeta)
    ensures r == SplitAt(w, start, length, zeta)
  {
    hide Plus, Minus, Times, Lo, Hi;
    var b, s := w[start..start + 2 * length], SplitAt(w, start, length, zeta);
    forall i | 0 <= i < |w| ensures r[i] == s[i] {
      if start <= i < start + length {
        assert s[i] == Lo(b, zeta)[i - start];
        HalvesAt(b, zeta, i - start);
      } else if start + length <= i < start + 2 * length {
        assert s[i] == Hi(b, zeta)[i - start - length];
        HalvesAt(b, zeta, i - start - length);
      }
    }
  }

  lemma NothingSplit(w: Poly, start: nat, length: nat, zeta: Fe)
    requires start + 2 * length <= |w|
    ensures Split(w, w, start, length, 0, zeta)
  {
  }

  lemma SplitStep(w: Poly, r: Poly, start: nat, length: nat, j: nat, zeta: Fe)
    requires |r| == |w| && start + 2 * length <= |w| && j < length && Split(w, r, start, length, j, zeta)
    ensures var t := Times(zeta, r[start + length + j]);
      Split(w, r[start + length + j := Minus(r[start + j], t)][start + j := Plus(r[start + j], t)], start, length,
        j + 1, zeta)
  {
    hide Plus, Minus, Times;
  }

  /** One block of butterflies splits it in place. */
  method SplitBlock(a: array<Fe>, start: nat, length: nat, zeta: Fe)
    requires start + 2 * length <= a.Length
    modifies a
    ensures a[..] == SplitAt(old(a[..]), start, length, zeta)
  {
    hide Plus, Minus, Times, Lo, Hi, SplitAt, Split;
    NothingSplit(a[..], start, length, zeta);
    ghost var w := a[..];
    for j := 0 to length
      invariant Split(w, a[..], start, length, j, zeta)
    {
      ghost var r := a[..];
      SplitStep(w, r, start, length, j, zeta);
      var t := FieldMul(zeta, a[start + length + j]);
      a[start + length + j] := FieldSub(a[start + j], t);
      a[start + j] := FieldAdd(a[start + j], t);
      assert a[..] == r[start + length + j := Minus(r[start + j], t)][start + j := Plus(r[start + j], t)];
    }
    SplitDone(w, a[..], start, length, zeta);
  }

  /** The array within a layer: blocks before node kk are split, those from it on are not. */
  ghost predicate SplitUpTo(t: seq<Poly>, c: nat, kk: nat, a: Poly, start: nat)
    requires |t| == 256 && 1 <= c <= kk <= 2 * c <= 128
  {
    a == Row(t, 2 * c, 2 * (kk - c)) + Row(t, kk, 2 * c - kk) && start == |Row(t, 2 * c, 2 * (kk - c))|
  }

  /** Node kk is split by z into its two children. */
  ghost predicate SplitsInto(t: seq<Poly>, kk: nat, length: nat, z: Fe)
    requires |t| == 256 && 1 <= kk < 128
  {
    |t[kk]| == 2 * length && t[2 * kk] == Lo(t[kk], z) && t[2 * kk + 1] == Hi(t[kk], z)
  }

  lemma TreeSplits(t: seq<Poly>, f: Poly, c: nat, length: nat, kk: nat)
    requires IsNodeTree(t, f) && Layer(c, length) && c <= kk < 2 * c
    ensures SplitsInto(t, kk, length, Zeta(kk))
  {
    hide Node, Zeta, Lo, Hi, Size;
    LayerSize(c, length, kk);
    Children(f, kk);
  }

  lemma SplitNext(t: seq<Poly>, c: nat, length: nat, kk: nat, a: Poly, start: nat, z: Fe)
    requires |t| == 256 && 1 <= c <= kk < 2 * c <= 128 && SplitsInto(t, kk, length, z)
    requires SplitUpTo(t, c, kk, a, start)
    ensures start + 2 * length <= |a|
    ensures SplitUpTo(t, c, kk + 1, SplitAt(a, start, length, z), start + 2 * length)
  {
    hide Lo, Hi, Row;
    RowFront(t, kk, 2 * c - kk);
    Replace(a, Row(t, 2 * c, 2 * (kk - c)), t[kk], Row(t, kk + 1, 2 * c - kk - 1));
    RowStep(t, 2 * c, 2 * (kk - c));
    RowStep(t, 2 * c, 2 * (kk - c) + 1);
  }

  /** A layer is done when its nodes fill the array. */
  lemma SplitEnd(t: seq<Poly>, c: nat, kk: nat, a: Poly, start: nat)
    requires |t| == 256 && 1 <= c <= kk <= 2 * c <= 128
    requires forall k | 1 <= k < 256 :: t[k] != []
    requires SplitUpTo(t, c, kk, a, start)
    ensures start < |a| <==> kk < 2 * c
    ensures kk == 2 * c ==> a == Row(t, kk, kk)
  {
    hide Row;
    EmptyRow(t, kk);
    if kk < 2 * c {
      RowFront(t, kk, 2 * c - kk);
    }
  }

  method NttForward(f: Poly) returns (g: Poly)
    requires |f| == N
    ensures g == Transform(f)
  {
    hide Node, Zeta, Transform, Size, Base, Row, SplitAt, SplitsInto;
    var a := new Fe[N](i requires 0 <= i < N => f[i]);
    ghost var t := NodeTree(f);
    assert a[..] == Row(t, 1, 1) by { TopRow(t); NodeOne(f); }
    var kk: nat, length: nat := 1, 128;
    while length >= 2
      invariant Layer(kk, length) || (kk == 128 && length == 1)
      invariant a[..] == Row(t, kk, kk)
    {
      ghost var c := kk;
      var start: nat := 0;
      EmptyRow(t, 2 * c);
      while start < 256
        invariant c <= kk <= 2 * c && Layer(c, length)
        invariant SplitUpTo(t, c, kk, a[..], start)
        decreases 2 * c - kk
      {
        SplitEnd(t, c, kk, a[..], start);
        TreeSplits(t, f, c, length, kk);
        var zeta := Zeta(kk);
        SplitNext(t, c, length, kk, a[..], start, zeta);
        kk := kk + 1;
        SplitBlock(a, start, length, zeta);
        start := start + 2 * length;
      }
      SplitEnd(t, c, kk, a[..], start);
      length := length / 2;
    }
    BottomRow(t, f);
    g := a[..];
  }

  lemma TopRow(t: seq<Poly>)
    requires |t| == 256
    ensures Row(t, 1, 1) == t[1]
  {
    assert Row(t, 1, 0) == [];
  }

  lemma {:induction false} BottomRowAt(t: seq<Poly>, n: nat, i: nat)
    requires |t| == 256 && n <= 128 && i < 2 * n
    requires forall k | 128 <= k < 256 :: |t[k]| == 2
    ensures |Row(t, 128, n)| == 2 * n && Row(t, 128, n)[i] == t[128 + i / 2][i % 2]
    decreases n
  {
    if n > 1 {
      BottomRowAt(t, n - 1, if i < 2 * (n - 1) then i else 0);
    } else {
      EmptyRow(t, 128);
    }
  }

  lemma BottomRow(t: seq<Poly>, f: Poly)
    requires IsNodeTree(t, f)
    ensures Row(t, 128, 128) == Transform(f)
  {
    hide Node, Row;
    forall i | 0 <= i < N ensures |Row(t, 128, 128)| == N && Row(t, 128, 128)[i] == Transform(f)[i] {
      BottomRowAt(t, 128, i);
    }
    BottomRowAt(t, 128, 0);
  }

  // ----- inverse -----

  ghost predicate IsUpTree(t: seq<Poly>, g: Poly) {
    |g| == N && |t| == 256 && forall k | 1 <= k < 256 :: t[k] == Up(g, k)
  }

  lemma UpTree(g: Poly) returns (t: seq<Poly>)
    requires |g| == N
    ensures IsUpTree(t, g) && forall k | 1 <= k < 256 :: t[k] != []
  {
    hide Up;
    t := [[]] + seq(255, k requires 0 <= k < 255 => Up(g, k + 1));
  }

  ghost function JoinAt(a: Poly, start: nat, length: nat, y: Fe): (r: Poly)
    requires start + 2 * length <= |a|
  {
    a[..start] + Join(a[start..start + length], a[start + length..start + 2 * length], y) + a[start + 2 * length..]
  }

  /** The first j of `length` pairs at `start` have been joined; w is the array before. */
  ghost predicate Joined(w: Poly, r: Poly, start: nat, length: nat, j: nat, zeta: Fe)
    requires |r| == |w| && start + 2 * length <= |w| && j <= length
  {
    && (forall i | start <= i < start + j :: r[i] == Plus(w[i], w[i + length]))
    && (forall i | start + length <= i < start + length + j :: r[i] == Times(zeta, Minus(w[i], w[i - length])))
    && (forall i | 0 <= i < |w| && !(start <= i < start + j) && !(start + length <= i < start + length + j) ::
          r[i] == w[i])
  }

  lemma JoinDone(w: Poly, r: Poly, start: nat, length: nat, zeta: Fe)
    requires |r| == |w| && start + 2 * length <= |w| && Joined(w, r, start, length, length, zeta)
    ensures r == JoinAt(w, start, length, zeta)
  {
    hide Plus, Minus, Times;
    var b := Join(w[start..start + length], w[start + length..start + 2 * length], zeta);
    var s := JoinAt(w, start, length, zeta);
    forall i | 0 <= i < |w| ensures r[i] == s[i] {
      if start <= i < start + 2 * length {
        assert s[i] == b[i - start];
      }
    }
  }

  lemma NothingJoined(w: Poly, start: nat, length: nat, zeta: Fe)
    requires start + 2 * length <= |w|
    ensures Joined(w, w, start, length, 0, zeta)
  {
  }

  lemma JoinStep(w: Poly, r: Poly, start: nat, length: nat, j: nat, zeta: Fe)
    requires |r| == |w| && start + 2 * length <= |w| && j < length && Joined(w, r, start, length, j, zeta)
    ensures var t, u := r[start + j], r[start + length + j];
      Joined(w, r[start + j := Plus(t, u)][start + length + j := Times(zeta, Minus(u, t))], start, length, j + 1, zeta)
  {
    hide Plus, Minus, Times;
  }

  /** One block of inverse butterflies joins its halves in place. */
  method JoinBlock(a: array<Fe>, start: nat, length: nat, zeta: Fe)
    requires start + 2 * length <= a.Length
    modifies a
    ensures a[..] == JoinAt(old(a[..]), start, length, zeta)
  {
    hide Plus, Minus, Times, Join, JoinAt, Joined;
    NothingJoined(a[..], start, length, zeta);
    ghost var w := a[..];
    for j := 0 to length
      invariant Joined(w, a[..], start, length, j, zeta)
    {
      ghost var r := a[..];
      JoinStep(w, r, start, length, j, zeta);
      var t := a[start + j];
      a[start + j] := FieldAdd(t, a[start + length + j]);
      a[start + length + j] := FieldMulSub(zeta, a[start + length + j], t);
      ghost var u := r[start + length + j];
      assert a[..] == r[start + j := Plus(t, u)][start + length + j := Times(zeta, Minus(u, t))];
    }
    JoinDone(w, a[..], start, length, zeta);
  }

  /** The array within a layer: nodes before i are joined, the children from node i on are not. */
  ghost predicate JoinedUpTo(t: seq<Poly>, c: nat, i: nat, a: Poly, start: nat)
    requires |t| == 256 && 1 <= c <= i <= 2 * c <= 128
  {
    a == Row(t, c, i - c) + Row(t, 2 * i, 2 * (2 * c - i)) && start == |Row(t, c, i - c)|
  }

  /** Node i is its two children joined by y. */
  ghost predicate JoinsFrom(t: seq<Poly>, i: nat, length: nat, y: Fe)
    requires |t| == 256 && 1 <= i < 128
  {
    |t[2 * i]| == length == |t[2 * i + 1]| && t[i] == Join(t[2 * i], t[2 * i + 1], y)
  }

  lemma TreeJoins(t: seq<Poly>, g: Poly, c: nat, length: nat, i: nat)
    requires IsUpTree(t, g) && Layer(c, length) && c <= i < 2 * c
    ensures JoinsFrom(t, i, length, Zeta(3 * c - 1 - i))
  {
    hide Up, Zeta, Join, Size, Base;
    LayerSize(c, length, i);
    UpIs(g, i);
  }

  lemma JoinNext(t: seq<Poly>, c: nat, length: nat, i: nat, a: Poly, start: nat, y: Fe)
    requires |t| == 256 && 1 <= c <= i < 2 * c <= 128 && JoinsFrom(t, i, length, y)
    requires JoinedUpTo(t, c, i, a, start)
    ensures start + 2 * length <= |a|
    ensures JoinedUpTo(t, c, i + 1, JoinAt(a, start, length, y), start + 2 * length)
  {
    hide Join, Row;
    RowFront(t, 2 * i, 2 * (2 * c - i));
    RowFront(t, 2 * i + 1, 2 * (2 * c - i) - 1);
    ReplaceTwo(a, Row(t, c, i - c), t[2 * i], t[2 * i + 1], Row(t, 2 * i + 2, 2 * (2 * c - i) - 2));
    RowStep(t, c, i - c);
  }

  lemma JoinEnd(t: seq<Poly>, c: nat, i: nat, a: Poly, start: nat)
    requires |t| == 256 && 1 <= c <= i <= 2 * c <= 128
    requires forall k | 1 <= k < 256 :: t[k] != []
    requires JoinedUpTo(t, c, i, a, start)
    ensures start < |a| <==> i < 2 * c
    ensures i == 2 * c ==> a == Row(t, c, c)
  {
    hide Row;
    EmptyRow(t, 2 * i);
    if i < 2 * c {
      RowFront(t, 2 * i, 2 * (2 * c - i));
    }
  }

  lemma UpBottomRow(t: seq<Poly>, g: Poly)
    requires IsUpTree(t, g)
    ensures Row(t, 128, 128) == g
  {
    hide Row, Up;
    forall i | 0 <= i < N ensures |Row(t, 128, 128)| == N && Row(t, 128, 128)[i] == g[i] {
      BottomRowAt(t, 128, i);
      UpLeaf(g, i / 2);
    }
    BottomRowAt(t, 128, 0);
  }

  method NttInverse(g: Poly) returns (f: Poly)
    requires |g| == N
    ensures f == Inverse(g)
  {
    hide Up, Zeta, Size, Base, Row, Times, JoinAt, JoinsFrom;
    var a := new Fe[N](i requires 0 <= i < N => g[i]);
    ghost var t := UpTree(g);
    assert a[..] == g;
    UpBottomRow(t, g);
    var kk: nat, length: nat := 127, 2;
    ghost var c: nat := 64;
    while length <= 128
      invariant (Layer(c, length) && kk == 2 * c - 1) || (c == 0 && length == 256)
      invariant a[..] == if c > 0 then Row(t, 2 * c, 2 * c) else Row(t, 1, 1)
      decreases c
    {
      var start: nat := 0;
      ghost var i := c;
      EmptyRow(t, c);
      while start < 256
        invariant c <= i <= 2 * c && kk == 3 * c - 1 - i && Layer(c, length)
        invariant JoinedUpTo(t, c, i, a[..], start)
        decreases 2 * c - i
      {
        JoinEnd(t, c, i, a[..], start);
        TreeJoins(t, g, c, length, i);
        var zeta := Zeta(kk);
        JoinNext(t, c, length, i, a[..], start, zeta);
        kk := kk - 1;
        JoinBlock(a, start, length, zeta);
        start := start + 2 * length;
        i := i + 1;
      }
      JoinEnd(t, c, i, a[..], start);
      length := length * 2;
      c := c / 2;
    }
    TopRow(t);
    ghost var u := a[..];
    for i := 0 to N
      invariant forall k | 0 <= k < i :: a[k] == Times(3303, u[k])
      invariant forall k | i <= k < N :: a[k] == u[k]
    {
      a[i] := FieldMul(a[i], 3303);
      TimesComm(u[i], 3303);
    }
    f := a[..];
  }

  // ----- products -----

  lemma PairProduct(a: Poly, b: Poly, m: Fe)
    requires |a| == 2 == |b|
    ensures Mul(a, b, m) == [Plus(Times(a[0], b[0]), Times(Times(a[1], b[1]), m)),
      Plus(Times(a[0], b[1]), Times(a[1], b[0]))]
  {
    hide Plus, Times;
    assert Mul(a[1..][1..], b, m) == Zero(2);
    ShiftLinear(0, Zero(2), Zero(2), m);
    AddLaws(Scale(a[1], b), Zero(2), Zero(2));
    assert Mul(a[1..], b, m) == Scale(a[1], b);
    TimesComm(m, Times(a[1], b[1]));
  }

  lemma PointMulAt(f: Poly, g: Poly, j: nat)
    requires |f| == N == |g| && j < 128
    ensures var (a0, a1, b0, b1) := (f[2 * j], f[2 * j + 1], g[2 * j], g[2 * j + 1]);
      && PointMul(f, g)[2 * j] == Plus(Times(a0, b0), Times(Times(a1, b1), Gamma(j)))
      && PointMul(f, g)[2 * j + 1] == Plus(Times(a0, b1), Times(a1, b0))
  {
    hide Plus, Times, Mul, Gamma, PointMul;
    PairProduct(Pair(f, j), Pair(g, j), Gamma(j));
    PairOfPointMul(f, g, j);
  }

  method NttMul(f: Poly, g: Poly) returns (h: Poly)
    requires |f| == N == |g|
    ensures h == PointMul(f, g)
  {
    hide Plus, Times, Gamma, PointMul;
    h := [];
    var i := 0;
    ghost var p, j := PointMul(f, g), 0;
    while i < 256
      invariant 0 <= j <= 128 && i == 2 * j
      invariant h == p[..i]
    {
      assert i / 2 == j;
      var a0, a1 := f[i], f[i + 1];
      var b0, b1 := g[i], g[i + 1];
      PointMulAt(f, g, j);
      var h0 := FieldAddMul(a0, b0, FieldMul(a1, b1), Gamma(i / 2));
      var h1 := FieldAddMul(a0, b1, a1, b0);
      assert p[i] == h0 && p[i + 1] == h1;
      h := h + [h0] + [h1];
      i, j := i + 2, j + 1;
    }
  }
}
