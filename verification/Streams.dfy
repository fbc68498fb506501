/**
 The encoder of the chunked transport as a value: raw values until a chunk beyond them is
 asked for, interpolated polynomials from then on. A stream for a message emits the chunks
 of that message in either form.
 */
module Streams {
  import opened Words
  import opened Gf16
  import opened Lagrange
  import opened Chunked

  datatype Stream = Stream(values: seq<seq<Gf>>, polys: seq<Poly>, idx: ChunkIndex, switched: bool) {
    /** The live form has its sixteen rows. */
    predicate Ok() {
      if switched then |polys| == NUM_POLYS else |values| == NUM_POLYS
    }

    /** Every polynomial interpolated; raw values are no longer served. */
    function Switch(): (s: Stream)
      requires Ok()
      ensures s.Ok() && s.switched && s.idx == idx
    {
      if switched then this
      else
        var ps := seq(NUM_POLYS, p requires 0 <= p < NUM_POLYS => Interpolant(DataPoints(values[p])));
        Stream(values, ps, idx, true)
    }

    function PointAt(p: nat, index: ChunkIndex): (r: (Gf, Stream))
      requires Ok() && p < NUM_POLYS
      ensures r.1.Ok() && r.1.idx == idx
    {
      if !switched && index < |values[p]| then (values[p][index], this)
      else (Eval(Switch().polys[p], Elem(index)), Switch())
    }

    /** The points of polynomials below `n`, in turn. */
    function PointsTo(n: nat, index: ChunkIndex): (r: (seq<Gf>, Stream))
      requires Ok() && n <= NUM_POLYS
      ensures |r.0| == n && r.1.Ok() && r.1.idx == idx
      decreases n, |values|
    {
      if n == 0 then ([], this)
      else
        var (ys, s) := PointsTo(n - 1, index);
        var (y, t) := s.PointAt(n - 1, index);
        (ys + [y], t)
    }

    function ChunkAt(index: ChunkIndex): (r: (Chunk, Stream))
      requires Ok()
      ensures WellFormed(r.0) && r.1.Ok() && r.1.idx == idx
    {
      var (ys, s) := PointsTo(NUM_POLYS, index);
      (Chunked.Chunk(index, PackTo(ys)), s)
    }

    /** The chunk sent next. */
    function Chunk(): (c: Chunk)
      requires Ok()
      ensures WellFormed(c)
    {
      ChunkAt(idx).0
    }

    /** The stream after sending it; the index wraps at 2^16. */
    function Next(): (s: Stream)
      requires Ok()
      ensures s.Ok() && s.idx == (idx + 1) % INDICES
    {
      ChunkAt(idx).1.(idx := (idx + 1) % INDICES)
    }

    /** The stream emits chunks of `msg`; only the live form matters. */
    ghost predicate Encodes(msg: Bytes)
      ensures Encodes(msg) ==> Ok() && |msg| % 2 == 0
    {
      && |msg| % 2 == 0
      && if switched then HasPolys(polys, msg) else HasValues(values, msg)
    }

    /** No row of the live form is empty. */
    predicate Lasts() {
      && Ok()
      && if switched then forall p | 0 <= p < NUM_POLYS :: |polys[p]| > 0
         else forall p | 0 <= p < NUM_POLYS :: |values[p]| > 0
    }
  }

  /** A new stream for an even-length message. */
  function StreamOf(msg: Bytes): (s: Stream)
    requires |msg| % 2 == 0
    ensures s.Encodes(msg) && s.Ok() && s.idx == 0 && !s.switched
  {
    Stream(seq(NUM_POLYS, p requires 0 <= p < NUM_POLYS => ValuesOf(msg, p)), [], 0, false)
  }

  ghost predicate HasValues(values: seq<seq<Gf>>, msg: Bytes)
    requires |msg| % 2 == 0
  {
    |values| == NUM_POLYS && forall p | 0 <= p < NUM_POLYS :: values[p] == ValuesOf(msg, p)
  }

  ghost predicate HasPolys(polys: seq<Poly>, msg: Bytes)
    requires |msg| % 2 == 0
  {
    && |polys| == NUM_POLYS && Indexable(msg)
    && forall p | 0 <= p < NUM_POLYS :: polys[p] == Interpolant(DataPoints(ValuesOf(msg, p)))
  }

  /** Every data point of the message has its own 16-bit x. */
  ghost predicate Indexable(msg: Bytes) {
    |msg| / 2 <= NUM_POLYS * INDICES
  }

  lemma IndexableRow(msg: Bytes, p: nat)
    requires |msg| % 2 == 0 && p < NUM_POLYS && Indexable(msg)
    ensures |ValuesOf(msg, p)| <= INDICES
  {
  }

  lemma IndexableIfShort(msg: Bytes, p: nat, index: ChunkIndex)
    requires |msg| % 2 == 0 && p < NUM_POLYS && |ValuesOf(msg, p)| <= index
    ensures Indexable(msg)
  {
  }

  lemma PointIsValue(msg: Bytes, p: nat, index: ChunkIndex)
    requires |msg| % 2 == 0 && p < NUM_POLYS && index < |ValuesOf(msg, p)|
    ensures PointOf(msg, p, index) == ValuesOf(msg, p)[index]
  {
  }

  lemma SwitchKeeps(s: Stream, msg: Bytes)
    requires s.Encodes(msg) && s.Ok() && Indexable(msg)
    ensures s.Switch().Encodes(msg)
  {
    hide Interpolant, ValuesOf, DataPoints;
  }

  /** A point is the message's in either form, and one past the raw values of its row switches. */
  lemma PointAtIs(s: Stream, msg: Bytes, p: nat, index: ChunkIndex)
    requires s.Encodes(msg) && s.Ok() && p < NUM_POLYS
    ensures var (y, t) := s.PointAt(p, index);
      && y == PointOf(msg, p, index) && t.Encodes(msg)
      && t.switched == (s.switched || Necessary(|msg| / 2, p) <= index)
  {
    hide PointOf, Interpolant, DataPoints, Eval, Elem, LagrangeAt;
    if !s.switched && index < |s.values[p]| {
      PointIsValue(msg, p, index);
    } else {
      if !s.switched {
        IndexableIfShort(msg, p, index);
      }
      SwitchKeeps(s, msg);
      IndexableRow(msg, p);
      PointOnCurve(msg, p, index);
      EvalInterpolant(DataPoints(ValuesOf(msg, p)), Elem(index));
    }
  }

  /** Whether one of the rows below `n` ends at or before an index. */
  predicate EndsBelow(msg: Bytes, n: nat, index: ChunkIndex) {
    exists p | 0 <= p < n :: Necessary(|msg| / 2, p) <= index
  }

  lemma {:induction false} PointsToAre(s: Stream, msg: Bytes, n: nat, index: ChunkIndex)
    requires s.Encodes(msg) && s.Ok() && n <= NUM_POLYS
    ensures var (ys, t) := s.PointsTo(n, index);
      && (forall p | 0 <= p < n :: ys[p] == PointOf(msg, p, index))
      && t.Encodes(msg) && t.switched == (s.switched || EndsBelow(msg, n, index))
    decreases n
  {
    hide PointOf, Stream.PointAt, Stream.Encodes, Necessary;
    if n > 0 {
      PointsToAre(s, msg, n - 1, index);
      var t := s.PointsTo(n - 1, index).1;
      PointAtIs(t, msg, n - 1, index);
    }
  }

  /** The last row is the shortest. */
  lemma ShortestRow(msg: Bytes, index: ChunkIndex)
    ensures EndsBelow(msg, NUM_POLYS, index) <==> |msg| / CHUNK_SIZE <= index
  {
    var n := |msg| / 2;
    assert Necessary(n, 15) == n / NUM_POLYS == |msg| / CHUNK_SIZE;
  }

  /**
   A stream for a message sends that message's chunk and goes on encoding it; it leaves
   the raw values with the first index past the message's whole chunks, and for good.
   */
  lemma NextIs(s: Stream, msg: Bytes)
    requires s.Encodes(msg)
    ensures s.Ok() && s.Chunk() == ChunkOf(msg, s.idx)
    ensures s.Next().Encodes(msg)
    ensures s.Next().switched == (s.switched || |msg| / CHUNK_SIZE <= s.idx)
  {
    hide PointOf, Stream.PointsTo, Necessary;
    PointsToAre(s, msg, NUM_POLYS, s.idx);
    ShortestRow(msg, s.idx);
    var ys := s.PointsTo(NUM_POLYS, s.idx).0;
    assert ys == seq(NUM_POLYS, p requires 0 <= p < NUM_POLYS => PointOf(msg, p, s.idx));
  }

  // ----- streams whose rows are all occupied -----

  lemma SwitchLasts(s: Stream)
    requires s.Lasts()
    ensures s.Switch().Lasts()
  {
    hide Interpolant, DataPoints;
  }

  lemma {:induction false} PointsToLast(s: Stream, n: nat, index: ChunkIndex)
    requires s.Lasts() && n <= NUM_POLYS
    ensures s.PointsTo(n, index).1.Lasts()
    decreases n
  {
    hide Stream.Lasts, Stream.Switch;
    LastsIsOk(s);
    if n > 0 {
      PointsToLast(s, n - 1, index);
      var t := s.PointsTo(n - 1, index).1;
      SwitchLasts(t);
    }
  }

  lemma LastsIsOk(s: Stream)
    requires s.Lasts()
    ensures s.Ok()
  {
  }

  /** Sending never empties a row. */
  lemma NextLasts(s: Stream)
    requires s.Lasts()
    ensures s.Next().Lasts()
  {
    hide Stream.PointsTo;
    PointsToLast(s, NUM_POLYS, s.idx);
  }

  /** Every row is occupied exactly when the message fills a chunk. */
  lemma LastsIffWholeChunk(s: Stream, msg: Bytes)
    requires s.Encodes(msg)
    ensures s.Lasts() <==> |msg| >= CHUNK_SIZE
  {
    hide Interpolant, ValuesOf, DataPoints;
    assert Necessary(|msg| / 2, 15) == |msg| / CHUNK_SIZE;
    assert s.switched ==> |s.polys[15]| == |ValuesOf(msg, 15)|;
    assert !s.switched ==> |s.values[15]| == |ValuesOf(msg, 15)|;
  }
}
