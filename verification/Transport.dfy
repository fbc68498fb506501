/**
 The mutable encoder and decoder of the chunked transport. Each method is proved against
 the functions of `Streams` and `Chunked`.
 */
module Transport {
  import opened Words
  import opened Gf16
  import opened Lagrange
  import opened Chunked
  import opened Streams

  class Encoder {
    var values: seq<seq<Gf>>
    var polys: seq<Poly>
    var idx: ChunkIndex
    var switched: bool

    function Model(): (s: Stream)
      reads this
    {
      Stream(values, polys, idx, switched)
    }

    /** Takes over decoded fields, or starts empty. */
    constructor (values: seq<seq<Gf>>, polys: seq<Poly>, idx: ChunkIndex, switched: bool)
      ensures Model() == Stream(values, polys, idx, switched)
    {
      this.values := values;
      this.polys := polys;
      this.idx := idx;
      this.switched := switched;
    }

    /** Interpolates every polynomial and stops serving raw values. */
    method Switch()
      requires !switched && Model().Ok()
      modifies this`polys, this`switched
      ensures Model() == old(Model()).Switch()
    {
      hide Elem, Interpolant, LagrangeAt, Eval;
      polys := [];
      for q := 0 to NUM_POLYS
        invariant !switched && |polys| == q
        invariant forall p | 0 <= p < q :: polys[p] == Interpolant(DataPoints(values[p]))
      {
        var pts := ListPoints(values[q]);
        var poly := LagrangeInterpolate(pts);
        polys := polys + [poly];
      }
      switched := true;
    }

    method PointAt(p: nat, index: ChunkIndex) returns (y: Gf)
      requires p < NUM_POLYS && Model().Ok()
      modifies this`polys, this`switched
      ensures (y, Model()) == old(Model()).PointAt(p, index)
    {
      hide Elem, Eval, Stream.Switch;
      if !switched && index < |values[p]| {
        return values[p][index];
      }
      if !switched {
        Switch();
      } else {
        SwitchedStays(Model());
      }
      y := EvalAt(polys[p], Elem(index));
    }

    /** One big-endian value of each polynomial. */
    method ChunkAt(index: ChunkIndex) returns (c: Chunk)
      requires Model().Ok()
      modifies this`polys, this`switched
      ensures (c, Model()) == old(Model()).ChunkAt(index)
    {
      hide Stream.PointAt, High, Low;
      ghost var before := Model();
      var data: Bytes := [];
      for i := 0 to NUM_POLYS
        invariant Model().Ok() && Model() == before.PointsTo(i, index).1
        invariant data == PackTo(before.PointsTo(i, index).0)
      {
        var v := PointAt(i, index);
        data := data + [High(v), Low(v)];
        ghost var ys := before.PointsTo(i, index).0;
        assert before.PointsTo(i + 1, index).0 == ys + [v];
        assert (ys + [v])[..i] == ys;
      }
      c := Chunked.Chunk(index, data);
    }

    /** The next chunk in sequence; the index wraps at 2^16. */
    method NextChunk() returns (c: Chunk)
      requires Model().Ok()
      modifies this
      ensures c == old(Model()).Chunk() && Model() == old(Model()).Next()
    {
      hide Stream.ChunkAt;
      c := ChunkAt(idx);
      idx := (idx + 1) % INDICES;
    }
  }

  lemma SwitchedStays(s: Stream)
    requires s.Ok() && s.switched
    ensures s.Switch() == s
  {
  }

  /** Lists the data points of one polynomial. */
  method ListPoints(vs: seq<Gf>) returns (pts: seq<Pt>)
    ensures pts == DataPoints(vs)
  {
    hide Elem;
    pts := [];
    for j := 0 to |vs|
      invariant pts == DataPoints(vs)[..j]
    {
      pts := pts + [Pt(Elem(j), vs[j])];
    }
  }

  /** Distributes the 16-bit values of an even-length message round-robin. */
  method NewEncoder(msg: Bytes) returns (e: Option<Encoder>)
    ensures e.None? <==> |msg| % 2 != 0
    ensures e.Some? ==> fresh(e.value) && e.value.Model() == StreamOf(msg)
  {
    if |msg| % 2 != 0 {
      return None;
    }
    var values: seq<seq<Gf>> := seq(NUM_POLYS, p => []);
    var i := 0;
    while 2 * i < |msg|
      invariant 0 <= 2 * i <= |msg| && |values| == NUM_POLYS
      invariant forall p | 0 <= p < NUM_POLYS :: values[p] == DealtTo(msg, p, i)
    {
      var v := Join(msg[2 * i], msg[2 * i + 1]);
      var p := i % NUM_POLYS;
      forall q | 0 <= q < NUM_POLYS
        ensures DealtTo(msg, q, i + 1) == if q == p then DealtTo(msg, q, i) + [v] else DealtTo(msg, q, i)
      {
        DealStep(msg, q, i);
      }
      values := values[p := values[p] + [v]];
      i := i + 1;
    }
    forall p | 0 <= p < NUM_POLYS ensures DealtTo(msg, p, i) == ValuesOf(msg, p) {
      assert DealtTo(msg, p, |msg| / 2) == ValuesOf(msg, p);
    }
    assert values == StreamOf(msg).values;
    var enc := new Encoder(values, [], 0, false);
    e := Some(enc);
  }

  /** The values of polynomial `p` among the first `n` of a message. */
  ghost function DealtTo(msg: Bytes, p: nat, n: nat): (vs: seq<Gf>)
    requires p < NUM_POLYS && 2 * n <= |msg|
    ensures |vs| == Necessary(n, p)
  {
    seq(Necessary(n, p), j requires 0 <= j < Necessary(n, p) =>
      ValueInRange(n, p, j);
      ValueAt(msg, NUM_POLYS * j + p))
  }

  lemma DealStep(msg: Bytes, p: nat, n: nat)
    requires p < NUM_POLYS && 2 * n + 1 < |msg|
    ensures DealtTo(msg, p, n + 1)
         == if p == n % NUM_POLYS then DealtTo(msg, p, n) + [ValueAt(msg, n)] else DealtTo(msg, p, n)
  {
    hide ValueAt;
    if p == n % NUM_POLYS {
      assert Necessary(n, p) == n / NUM_POLYS && Necessary(n + 1, p) == n / NUM_POLYS + 1;
      assert NUM_POLYS * (n / NUM_POLYS) + p == n;
    } else {
      NecessaryStep(n, p);
    }
  }

  lemma NecessaryStep(n: nat, p: nat)
    requires p < NUM_POLYS && p != n % NUM_POLYS
    ensures Necessary(n + 1, p) == Necessary(n, p)
  {
  }

  class Decoder {
    var needed: nat
    var pts: seq<seq<Pt>>

    function Model(): (d: Received)
      reads this
    {
      Received(needed, pts)
    }

    constructor (needed: nat, pts: seq<seq<Pt>>)
      ensures Model() == Received(needed, pts)
    {
      this.needed := needed;
      this.pts := pts;
    }

    /** Keeps the points of polynomial `p` distinct by x. */
    method PushPoint(p: nat, pt: Pt)
      requires Model().Ok() && p < NUM_POLYS
      modifies this`pts
      ensures Model() == old(Model()).Push(p, pt)
    {
      for k := 0 to |pts[p]|
        invariant forall i | 0 <= i < k :: pts[p][i].x != pt.x
      {
        if pts[p][k].x == pt.x {
          return;
        }
      }
      pts := pts[p := pts[p] + [pt]];
    }

    method AddChunk(c: Chunk)
      requires Model().Ok() && WellFormed(c)
      modifies this`pts
      ensures Model() == old(Model()).Add(c)
    {
      hide Elem, Join, Necessary;
      ghost var before := Model();
      for i := 0 to NUM_POLYS
        invariant Model().Ok()
        invariant Model() == before.AddTo(c, i)
      {
        if c.index < Necessary(needed, i) || |pts[i]| < Necessary(needed, i) {
          PushPoint(i, Pt(Elem(c.index), Join(c.data[2 * i], c.data[2 * i + 1])));
        }
      }
    }

    /** The received y at x, if there is one. */
    method FindPoint(p: nat, x: Gf) returns (y: Option<Gf>)
      requires Model().Ok() && p < NUM_POLYS
      ensures y.Some? <==> exists k | 0 <= k < |pts[p]| :: pts[p][k].x == x
      ensures y.Some? ==> y.value == DirectPoint(pts[p], x)
    {
      for k := 0 to |pts[p]|
        invariant forall i | 0 <= i < k :: pts[p][i].x != x
      {
        if pts[p][k].x == x {
          FirstPoint(pts[p], x, k);
          return Some(pts[p][k].y);
        }
      }
      return None;
    }

    /** The message, once every polynomial has as many points as values. */
    method DecodedMessage() returns (m: Option<Bytes>)
      requires Model().Ok()
      ensures m == Model().Decoded()
    {
      hide Elem, High, Low, LagrangeAt, Received.Recover;
      for i := 0 to NUM_POLYS
        invariant forall p | 0 <= p < i :: |pts[p]| >= Necessary(needed, p)
      {
        if |pts[i]| < Necessary(needed, i) {
          return None;
        }
      }
      ghost var ys := Model().RecoverTo(needed);
      var polys: seq<Option<Poly>> := seq(NUM_POLYS, p => None);
      var out: Bytes := [];
      for i := 0 to needed
        invariant Cached(polys)
        invariant out == PackTo(ys[..i])
      {
        var y: Gf;
        y, polys := ReadValue(i % NUM_POLYS, Elem(i / NUM_POLYS), polys);
        out := out + [High(y), Low(y)];
        assert ys[..i + 1][..i] == ys[..i];
      }
      assert ys[..needed] == ys;
      m := Some(out);
    }

    /** Polynomials interpolated so far. */
    ghost predicate Cached(polys: seq<Option<Poly>>)
      requires Model().Ok() && Model().Enough()
      reads this
    {
      && |polys| == NUM_POLYS
      && forall p | 0 <= p < NUM_POLYS && polys[p].Some? ::
           polys[p].value == Interpolant(pts[p][..Necessary(needed, p)])
    }

    /** One value of the message, interpolating its polynomial only when it has to. */
    method ReadValue(p: nat, x: Gf, polys: seq<Option<Poly>>) returns (y: Gf, polys': seq<Option<Poly>>)
      requires Model().Ok() && Model().Enough() && p < NUM_POLYS && Cached(polys)
      ensures y == Model().Recover(p, x)
      ensures Cached(polys')
    {
      hide Eval, LagrangeAt, Interpolant, Necessary;
      polys' := polys;
      var direct := FindPoint(p, x);
      if direct.Some? {
        y := direct.value;
      } else {
        if polys[p].None? {
          var poly := LagrangeInterpolate(pts[p][..Necessary(needed, p)]);
          polys' := polys[p := Some(poly)];
        }
        y := EvalAt(polys'[p].value, x);
        EvalInterpolant(pts[p][..Necessary(needed, p)], x);
      }
    }
  }

  lemma {:induction false} FirstPoint(pts: seq<Pt>, x: Gf, k: nat)
    requires k < |pts| && pts[k].x == x && forall i | 0 <= i < k :: pts[i].x != x
    ensures DirectPoint(pts, x) == pts[k].y
    decreases k
  {
    if k > 0 {
      assert pts[1..][k - 1].x == x;
      FirstPoint(pts[1..], x, k - 1);
    }
  }

  method NewDecoder(len: nat) returns (d: Option<Decoder>)
    ensures d.None? <==> len % 2 != 0
    ensures d.Some? ==> fresh(d.value) && d.value.Model() == NewReceived(len)
  {
    if len % 2 != 0 {
      return None;
    }
    var dec := new Decoder(len / 2, seq(NUM_POLYS, p => []));
    d := Some(dec);
  }
}
