/**
 The chunked transport: a message is spread over sixteen polynomials over GF(2^16) and
 sent as numbered 32-byte chunks, and any sufficient set of chunks rebuilds it.
 */
module Chunked {
  import opened Words
  import opened Gf16
  import opened Lagrange

  const NUM_POLYS := 16
  const CHUNK_SIZE := 32
  const INDICES := 65536

  type ChunkIndex = n: nat | n < 65536

  datatype Chunk = Chunk(index: ChunkIndex, data: Bytes)

  predicate WellFormed(c: Chunk) {
    |c.data| == CHUNK_SIZE
  }

  // ----- 16-bit values, big-endian -----

  /** The field element with a given 16-bit value; larger numbers wrap. */
  function Elem(n: nat): (w: Gf) {
    ToBits(n, 16)
  }

  function Value(w: Gf): (n: ChunkIndex)
    ensures Elem(n) == w
  {
    Pow16();
    ToFromBits(w);
    FromBits(w)
  }

  function Join(hi: byte, lo: byte): (w: Gf) {
    Elem(256 * hi + lo)
  }

  function High(w: Gf): (b: byte) {
    Value(w) / 256
  }

  function Low(w: Gf): (b: byte) {
    Value(w) % 256
  }

  lemma Pow16()
    ensures Pow2(16) == 65536
  {
    assert Pow2(8) == 256;
  }

  lemma ValueOfElem(n: ChunkIndex)
    ensures Value(Elem(n)) == n
  {
    Pow16();
    FromToBits(n, 16);
  }

  lemma JoinSplit(w: Gf, hi: byte, lo: byte)
    ensures Join(High(w), Low(w)) == w
    ensures High(Join(hi, lo)) == hi && Low(Join(hi, lo)) == lo
  {
    hide Elem;
    ValueOfElem(256 * hi + lo);
  }

  // ----- how a message is laid out -----

  /** How many of `needed` values fall to polynomial `p`. */
  function Necessary(needed: nat, p: nat): (n: nat) {
    if p < needed % NUM_POLYS then needed / NUM_POLYS + 1 else needed / NUM_POLYS
  }

  /** The i-th 16-bit value of a message. */
  function ValueAt(msg: Bytes, i: nat): (w: Gf)
    requires 2 * i + 1 < |msg|
  {
    Join(msg[2 * i], msg[2 * i + 1])
  }

  lemma ValueInRange(needed: nat, p: nat, j: nat)
    requires p < NUM_POLYS
    ensures j < Necessary(needed, p) <==> NUM_POLYS * j + p < needed
  {
  }

  /** The values of polynomial `p`: every sixteenth value of the message. */
  function ValuesOf(msg: Bytes, p: nat): (vs: seq<Gf>)
    requires p < NUM_POLYS && |msg| % 2 == 0
    ensures |vs| == Necessary(|msg| / 2, p)
    ensures forall j | 0 <= j < |vs| :: 2 * (NUM_POLYS * j + p) + 1 < |msg| && vs[j] == ValueAt(msg, NUM_POLYS * j + p)
  {
    seq(Necessary(|msg| / 2, p), j requires 0 <= j < Necessary(|msg| / 2, p) =>
      ValueInRange(|msg| / 2, p, j);
      ValueAt(msg, NUM_POLYS * j + p))
  }

  /** The data points of a polynomial: its j-th value sits at x = j. */
  function DataPoints(vs: seq<Gf>): (pts: seq<Pt>)
    ensures |pts| == |vs|
    ensures forall j | 0 <= j < |vs| :: pts[j] == Pt(Elem(j), vs[j])
  {
    seq(|vs|, j requires 0 <= j < |vs| => Pt(Elem(j), vs[j]))
  }

  /** The value of polynomial `p` of a message at a chunk index. */
  function PointOf(msg: Bytes, p: nat, index: ChunkIndex): (y: Gf)
    requires p < NUM_POLYS && |msg| % 2 == 0
  {
    var vs := ValuesOf(msg, p);
    if index < |vs| then vs[index] else LagrangeAt(DataPoints(vs), Elem(index))
  }

  function PackTo(ys: seq<Gf>): (data: Bytes)
    ensures |data| == 2 * |ys|
    ensures forall i | 0 <= i < |ys| :: data[2 * i] == High(ys[i]) && data[2 * i + 1] == Low(ys[i])
  {
    if ys == [] then []
    else
      var front := PackTo(ys[..|ys| - 1]);
      front + [High(ys[|ys| - 1]), Low(ys[|ys| - 1])]
  }

  /** The chunk of a message at an index: one point of each polynomial. */
  function ChunkOf(msg: Bytes, index: ChunkIndex): (c: Chunk)
    requires |msg| % 2 == 0
    ensures WellFormed(c)
  {
    Chunk(index, PackTo(seq(NUM_POLYS, p requires 0 <= p < NUM_POLYS => PointOf(msg, p, index))))
  }

  lemma DataDistinct(vs: seq<Gf>)
    requires |vs| <= INDICES
    ensures DistinctX(DataPoints(vs))
  {
    hide Elem, Value;
    forall i, j | 0 <= i < j < |vs| ensures DataPoints(vs)[i].x != DataPoints(vs)[j].x {
      ValueOfElem(i);
      ValueOfElem(j);
    }
  }

  /** Literal values and polynomial evaluation agree wherever both are defined. */
  lemma PointOnCurve(msg: Bytes, p: nat, index: ChunkIndex)
    requires p < NUM_POLYS && |msg| % 2 == 0
    requires |ValuesOf(msg, p)| <= INDICES
    ensures PointOf(msg, p, index) == LagrangeAt(DataPoints(ValuesOf(msg, p)), Elem(index))
  {
    var vs := ValuesOf(msg, p);
    if index < |vs| {
      DataDistinct(vs);
      LagrangeThrough(DataPoints(vs), index);
    }
  }

  // ----- the decoder as a value -----

  /** What a decoder holds: how many values it needs and the points per polynomial. */
  datatype Received = Received(needed: nat, pts: seq<seq<Pt>>) {
    predicate Ok() {
      |pts| == NUM_POLYS
    }

    function Push(p: nat, pt: Pt): (d: Received)
      requires Ok() && p < NUM_POLYS
      ensures d.Ok() && d.needed == needed
    {
      if exists k | 0 <= k < |pts[p]| :: pts[p][k].x == pt.x then this
      else this.(pts := pts[p := pts[p] + [pt]])
    }

    /** Keep a point if its index is one of the data points or more points are needed. */
    function Offer(p: nat, c: Chunk): (d: Received)
      requires Ok() && p < NUM_POLYS && WellFormed(c)
      ensures d.Ok() && d.needed == needed
    {
      if c.index < Necessary(needed, p) || |pts[p]| < Necessary(needed, p)
      then Push(p, Pt(Elem(c.index), Join(c.data[2 * p], c.data[2 * p + 1])))
      else this
    }

    /** The points of polynomials below `n` of a chunk folded in. */
    function AddTo(c: Chunk, n: nat): (d: Received)
      requires Ok() && WellFormed(c) && n <= NUM_POLYS
      ensures d.Ok() && d.needed == needed
    {
      if n == 0 then this else AddTo(c, n - 1).Offer(n - 1, c)
    }

    function Add(c: Chunk): (d: Received)
      requires Ok() && WellFormed(c)
      ensures d.Ok() && d.needed == needed
    {
      AddTo(c, NUM_POLYS)
    }

    predicate Enough()
      requires Ok()
    {
      forall p | 0 <= p < NUM_POLYS :: |pts[p]| >= Necessary(needed, p)
    }

    /** The value of polynomial `p` at x: a received point if there is one. */
    function Recover(p: nat, x: Gf): (y: Gf)
      requires Ok() && p < NUM_POLYS && |pts[p]| >= Necessary(needed, p)
    {
      if exists k | 0 <= k < |pts[p]| :: pts[p][k].x == x then DirectPoint(pts[p], x)
      else LagrangeAt(pts[p][..Necessary(needed, p)], x)
    }

    function RecoverTo(n: nat): (ys: seq<Gf>)
      requires Ok() && Enough()
      ensures |ys| == n
      ensures forall i | 0 <= i < n :: ys[i] == Recover(i % NUM_POLYS, Elem(i / NUM_POLYS))
    {
      seq(n, i requires 0 <= i < n => Recover(i % NUM_POLYS, Elem(i / NUM_POLYS)))
    }

    function Decoded(): (m: Option<Bytes>)
      requires Ok()
    {
      if Enough() then Some(PackTo(RecoverTo(needed))) else None
    }
  }

  /** The y of the first point at x. */
  function DirectPoint(pts: seq<Pt>, x: Gf): (y: Gf)
    requires exists k | 0 <= k < |pts| :: pts[k].x == x
  {
    if pts[0].x == x then pts[0].y else DirectPoint(pts[1..], x)
  }

  lemma {:induction false} DirectPointIs(pts: seq<Pt>, k: nat)
    requires k < |pts| && DistinctX(pts)
    ensures DirectPoint(pts, pts[k].x) == pts[k].y
    decreases k
  {
    if k > 0 {
      assert pts[k].x == pts[1..][k - 1].x;
      DirectPointIs(pts[1..], k - 1);
    }
  }

  function NewReceived(len: nat): (d: Received)
    ensures d.Ok()
  {
    Received(len / 2, seq(NUM_POLYS, p => []))
  }

  // ----- any sufficient set of chunks rebuilds the message -----

  /** Every point lies on the message's polynomial `p`, and no x occurs twice. */
  ghost predicate OnMessage(pts: seq<Pt>, msg: Bytes, p: nat)
    requires p < NUM_POLYS && |msg| % 2 == 0
  {
    && DistinctX(pts)
    && forall k | 0 <= k < |pts| :: pts[k].y == PointOf(msg, p, Value(pts[k].x))
  }

  /** The decoder has received nothing but chunks of `msg`. */
  ghost predicate Holds(d: Received, msg: Bytes) {
    && d.Ok() && |msg| % 2 == 0 && d.needed == |msg| / 2
    && forall p | 0 <= p < NUM_POLYS :: OnMessage(d.pts[p], msg, p)
  }

  ghost function Indices(pts: seq<Pt>): set<nat> {
    set k | 0 <= k < |pts| :: Value(pts[k].x)
  }

  /** The points of one polynomial, against the chunk indices received so far. */
  ghost predicate Covers(pts: seq<Pt>, got: set<nat>, need: nat) {
    && Indices(pts) <= got
    && (|pts| < need ==> Indices(pts) == got)
  }

  ghost predicate CoversAll(d: Received, got: set<nat>)
    requires d.Ok()
  {
    forall p | 0 <= p < NUM_POLYS :: Covers(d.pts[p], got, Necessary(d.needed, p))
  }

  lemma {:induction false} IndicesSize(pts: seq<Pt>)
    requires DistinctX(pts)
    ensures |Indices(pts)| == |pts|
    decreases |pts|
  {
    hide Elem, Value;
    if pts != [] {
      var n := |pts| - 1;
      IndicesSize(pts[..n]);
      forall k | 0 <= k < n ensures Value(pts[k].x) != Value(pts[n].x) {
        assert Elem(Value(pts[k].x)) == pts[k].x && Elem(Value(pts[n].x)) == pts[n].x;
      }
      assert forall k | 0 <= k < n :: pts[..n][k] == pts[k];
      assert Indices(pts) == Indices(pts[..n]) + {Value(pts[n].x)};
    }
  }

  lemma OfferLocal(d: Received, e: Received, c: Chunk, p: nat, q: nat)
    requires d.Ok() && e.Ok() && WellFormed(c) && p < NUM_POLYS && q < NUM_POLYS
    requires d.needed == e.needed && d.pts[p] == e.pts[p]
    ensures d.Offer(p, c).pts[p] == e.Offer(p, c).pts[p]
    ensures p != q ==> d.Offer(p, c).pts[q] == d.pts[q]
  {
    hide Elem, Join, Necessary;
  }

  /** A chunk changes each polynomial's points on its own. */
  lemma {:induction false} AddToAt(d: Received, c: Chunk, n: nat, p: nat)
    requires d.Ok() && WellFormed(c) && n <= NUM_POLYS && p < NUM_POLYS
    ensures d.AddTo(c, n).pts[p] == if p < n then d.Offer(p, c).pts[p] else d.pts[p]
    decreases n
  {
    hide Received.Offer;
    if n > 0 {
      var e := d.AddTo(c, n - 1);
      AddToAt(d, c, n - 1, p);
      AddToAt(d, c, n - 1, n - 1);
      OfferLocal(e, d, c, n - 1, p);
      assert d.AddTo(c, n) == e.Offer(n - 1, c);
    }
  }

  lemma ChunkPoint(msg: Bytes, p: nat, index: ChunkIndex)
    requires |msg| % 2 == 0 && p < NUM_POLYS
    ensures var c := ChunkOf(msg, index); Join(c.data[2 * p], c.data[2 * p + 1]) == PointOf(msg, p, index)
  {
    hide PointOf, High, Low, Join;
    JoinSplit(PointOf(msg, p, index), 0, 0);
  }

  lemma OfferKeeps(d: Received, msg: Bytes, got: set<nat>, index: ChunkIndex, p: nat)
    requires Holds(d, msg) && p < NUM_POLYS
    ensures var e := d.Offer(p, ChunkOf(msg, index)).pts[p];
      && OnMessage(e, msg, p)
      && (Covers(d.pts[p], got, Necessary(d.needed, p)) ==> Covers(e, got + {index}, Necessary(d.needed, p)))
  {
    hide PointOf, Join, Elem, Value, ChunkOf, Necessary;
    var pts, c := d.pts[p], ChunkOf(msg, index);
    assert c.index == index by { ChunkIndexIs(msg, index); }
    ChunkPoint(msg, p, index);
    ValueOfElem(index);
    var pt := Pt(Elem(index), PointOf(msg, p, index));
    var e := d.Offer(p, c).pts[p];
    if e == pts {
      if exists k | 0 <= k < |pts| :: pts[k].x == pt.x {
        var k :| 0 <= k < |pts| && pts[k].x == pt.x;
        assert index in Indices(pts);
      }
    } else {
      assert e == pts + [pt];
      assert forall k | 0 <= k < |pts| :: e[k] == pts[k];
      assert e[|pts|] == pt;
      assert Indices(e) == Indices(pts) + {index};
    }
  }

  lemma ChunkIndexIs(msg: Bytes, index: ChunkIndex)
    requires |msg| % 2 == 0
    ensures ChunkOf(msg, index).index == index
  {
  }

  /** Folding in one more chunk of the message. */
  lemma AddKeeps(d: Received, msg: Bytes, got: set<nat>, index: ChunkIndex)
    requires Holds(d, msg)
    ensures var e := d.Add(ChunkOf(msg, index));
      Holds(e, msg) && (CoversAll(d, got) ==> CoversAll(e, got + {index}))
  {
    hide OnMessage, Covers;
    var c := ChunkOf(msg, index);
    var e := d.Add(c);
    forall p | 0 <= p < NUM_POLYS
      ensures OnMessage(e.pts[p], msg, p)
      ensures Covers(d.pts[p], got, Necessary(d.needed, p)) ==> Covers(e.pts[p], got + {index}, Necessary(e.needed, p))
    {
      AddToAt(d, c, NUM_POLYS, p);
      OfferKeeps(d, msg, got, index, p);
    }
  }

  /** Enough points of a polynomial give back each of its data values. */
  lemma RecoverIsValue(d: Received, msg: Bytes, p: nat, j: nat)
    requires Holds(d, msg) && p < NUM_POLYS && j < |ValuesOf(msg, p)| <= |d.pts[p]|
    ensures d.Recover(p, Elem(j)) == ValuesOf(msg, p)[j]
  {
    hide Elem, Value, LagrangeAt;
    var vs, pts := ValuesOf(msg, p), d.pts[p];
    var data := DataPoints(vs);
    PointsFit(pts);
    ValueOfElem(j);
    if k :| 0 <= k < |pts| && pts[k].x == Elem(j) {
      DirectPointIs(pts, k);
    } else {
      var some := pts[..|vs|];
      forall i | 0 <= i < |some| ensures some[i].y == LagrangeAt(data, some[i].x) {
        assert some[i] == pts[i];
        PointOnCurve(msg, p, Value(pts[i].x));
      }
      Reinterpolation(data, some, Elem(j));
      DataDistinct(vs);
      LagrangeThrough(data, j);
    }
  }

  /** There are only 65536 chunk indices. */
  lemma PointsFit(pts: seq<Pt>)
    requires DistinctX(pts)
    ensures |pts| <= INDICES
  {
    IndicesSize(pts);
    RangeIs(0, INDICES);
    SubsetSize(Indices(pts), Range(0, INDICES));
  }

  lemma PackIsMessage(msg: Bytes, ys: seq<Gf>)
    requires |msg| == 2 * |ys|
    requires forall i | 0 <= i < |ys| :: ys[i] == ValueAt(msg, i)
    ensures PackTo(ys) == msg
  {
    hide High, Low, Join, PackTo;
    forall k | 0 <= k < |msg| ensures PackTo(ys)[k] == msg[k] {
      var i := k / 2;
      JoinSplit(ys[i], msg[2 * i], msg[2 * i + 1]);
      assert ys[i] == Join(msg[2 * i], msg[2 * i + 1]);
    }
  }

  /** The decoder answers exactly when it has seen as many indices as the longest polynomial needs. */
  lemma DecodedIs(d: Received, msg: Bytes, got: set<nat>)
    requires Holds(d, msg) && CoversAll(d, got)
    ensures d.Decoded() == if |got| >= Necessary(|msg| / 2, 0) then Some(msg) else None
  {
    forall p | 0 <= p < NUM_POLYS
      ensures |d.pts[p]| >= Necessary(d.needed, p) <==> |got| >= Necessary(d.needed, p)
    {
      IndicesSize(d.pts[p]);
      SubsetSize(Indices(d.pts[p]), got);
    }
    if d.Enough() {
      EnoughIsMessage(d, msg);
      assert |d.pts[0]| >= Necessary(d.needed, 0);
    }
  }

  lemma EnoughIsMessage(d: Received, msg: Bytes)
    requires Holds(d, msg) && d.Enough()
    ensures d.Decoded() == Some(msg)
  {
    hide Elem, Value, PointOf, Join, DistinctX, PackTo, Received.Recover, OnMessage;
    var ys := d.RecoverTo(d.needed);
    forall i | 0 <= i < d.needed ensures ys[i] == ValueAt(msg, i) {
      var p, j := i % NUM_POLYS, i / NUM_POLYS;
      assert i == NUM_POLYS * j + p;
      ValueInRange(d.needed, p, j);
      RecoverIsValue(d, msg, p, j);
    }
    PackIsMessage(msg, ys);
  }

  ghost function IndexSet(indices: seq<ChunkIndex>): set<nat> {
    set i | 0 <= i < |indices| :: indices[i]
  }

  /** A decoder fed by one message never yields anything else. */
  lemma FoldChunk(d: Received, msg: Bytes, index: ChunkIndex)
    requires Holds(d, msg)
    ensures var e := d.Add(ChunkOf(msg, index));
      Holds(e, msg) && (e.Decoded() == None || e.Decoded() == Some(msg))
  {
    hide OnMessage, Received.AddTo, Received.Recover;
    AddKeeps(d, msg, {}, index);
    var e := d.Add(ChunkOf(msg, index));
    if e.Enough() {
      EnoughIsMessage(e, msg);
    }
  }

  function AddAll(d: Received, msg: Bytes, indices: seq<ChunkIndex>): (e: Received)
    requires d.Ok() && |msg| % 2 == 0
    ensures e.Ok()
  {
    if indices == [] then d
    else AddAll(d, msg, indices[..|indices| - 1]).Add(ChunkOf(msg, indices[|indices| - 1]))
  }

  lemma NothingReceived(msg: Bytes)
    requires |msg| % 2 == 0
    ensures Holds(NewReceived(|msg|), msg) && CoversAll(NewReceived(|msg|), {})
  {
    assert Indices([]) == {};
  }

  lemma {:induction false} AddAllKeeps(msg: Bytes, indices: seq<ChunkIndex>)
    requires |msg| % 2 == 0
    ensures var e := AddAll(NewReceived(|msg|), msg, indices);
      Holds(e, msg) && CoversAll(e, IndexSet(indices))
    decreases |indices|
  {
    hide Received.Add, ChunkOf, Holds, CoversAll;
    if indices == [] {
      NothingReceived(msg);
      assert IndexSet(indices) == {};
    } else {
      var n := |indices| - 1;
      AddAllKeeps(msg, indices[..n]);
      AddKeeps(AddAll(NewReceived(|msg|), msg, indices[..n]), msg, IndexSet(indices[..n]), indices[n]);
      assert indices == indices[..n] + [indices[n]];
      assert IndexSet(indices[..n]) + {indices[n]} == IndexSet(indices);
    }
  }

  /**
   For every even-length message and every sequence of its chunks, with repeats and in
   any order: the message comes back exactly if the sequence holds at least
   ceil((len / 2) / 16) distinct indices, and otherwise nothing does.
   */
  lemma AnySufficientChunksDecode(msg: Bytes, indices: seq<ChunkIndex>)
    requires |msg| % 2 == 0
    ensures AddAll(NewReceived(|msg|), msg, indices).Decoded()
         == if |IndexSet(indices)| >= (|msg| / 2 + 15) / 16 then Some(msg) else None
  {
    hide Received.Decoded, Holds, CoversAll, AddAll;
    AddAllKeeps(msg, indices);
    DecodedIs(AddAll(NewReceived(|msg|), msg, indices), msg, IndexSet(indices));
  }
}
