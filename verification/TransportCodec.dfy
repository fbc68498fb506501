/** The stored form of encoders and decoders, and what a save and reload preserves. */
module TransportCodec {
  import opened Words
  import opened Gf16
  import opened Lagrange
  import opened Chunked
  import opened Streams
  import opened Transport

  const UINT32 := 0x1_0000_0000

  datatype EncoderPb = EncoderPb(idx: nat, pts: seq<Bytes>, polys: seq<Bytes>)

  datatype DecoderPb = DecoderPb(ptsNeeded: nat, polys: nat, isComplete: bool, pts: seq<Bytes>)

  /** Concatenated big-endian 16-bit values read back; the input length is even. */
  function Unpack(b: Bytes): (vs: seq<Gf>)
    requires |b| % 2 == 0
    ensures |vs| == |b| / 2
    ensures forall i | 0 <= i < |vs| :: vs[i] == Join(b[2 * i], b[2 * i + 1])
  {
    seq(|b| / 2, i requires 0 <= i < |b| / 2 => Join(b[2 * i], b[2 * i + 1]))
  }

  lemma UnpackPack(vs: seq<Gf>)
    ensures Unpack(PackTo(vs)) == vs
  {
    hide Join, High, Low, PackTo;
    forall i | 0 <= i < |vs| ensures Unpack(PackTo(vs))[i] == vs[i] {
      JoinSplit(vs[i], 0, 0);
    }
  }

  method SerializeGf16s(vs: seq<Gf>) returns (out: Bytes)
    ensures out == PackTo(vs)
  {
    hide High, Low;
    out := [];
    for i := 0 to |vs|
      invariant out == PackTo(vs[..i])
    {
      out := out + [High(vs[i]), Low(vs[i])];
      assert vs[..i + 1][..i] == vs[..i];
    }
    assert vs[..|vs|] == vs;
  }

  method DeserializeGf16s(b: Bytes) returns (vs: Option<seq<Gf>>)
    ensures vs == if |b| % 2 != 0 then None else Some(Unpack(b))
  {
    hide Join;
    if |b| % 2 != 0 {
      return None;
    }
    var out: seq<Gf> := [];
    var i := 0;
    while i + 1 < |b|
      invariant 0 <= i <= |b| && i % 2 == 0
      invariant out == Unpack(b)[..i / 2]
    {
      assert Unpack(b)[i / 2] == Join(b[i], b[i + 1]);
      out := out + [Join(b[i], b[i + 1])];
      i := i + 2;
    }
    assert i == |b| && out == Unpack(b);
    vs := Some(out);
  }

  function PackRows(vss: seq<seq<Gf>>): (rows: seq<Bytes>) {
    seq(|vss|, p requires 0 <= p < |vss| => PackTo(vss[p]))
  }

  /** A list of sixteen rows in which every row decodes, and none is empty if that is asked. */
  predicate RowsOk(rows: seq<Bytes>, nonEmpty: bool) {
    && |rows| == NUM_POLYS
    && forall p | 0 <= p < NUM_POLYS :: |rows[p]| % 2 == 0 && (nonEmpty ==> |rows[p]| > 0)
  }

  function UnpackRows(rows: seq<Bytes>): (vss: seq<seq<Gf>>)
    requires RowsOk(rows, false)
    ensures |vss| == NUM_POLYS
  {
    seq(NUM_POLYS, p requires 0 <= p < NUM_POLYS => Unpack(rows[p]))
  }

  lemma UnpackPackRows(vss: seq<seq<Gf>>)
    requires |vss| == NUM_POLYS
    ensures RowsOk(PackRows(vss), false) && UnpackRows(PackRows(vss)) == vss
    ensures RowsOk(PackRows(vss), true) <==> forall p | 0 <= p < NUM_POLYS :: |vss[p]| > 0
  {
    hide PackTo, Unpack;
    forall p | 0 <= p < NUM_POLYS
      ensures Unpack(PackRows(vss)[p]) == vss[p] && |PackRows(vss)[p]| == 2 * |vss[p]|
    {
      UnpackPack(vss[p]);
    }
  }

  /** Raw values before the switch, coefficients after it; never both. */
  function EncoderPbOf(s: Stream): (pb: EncoderPb) {
    if s.switched then EncoderPb(s.idx, [], PackRows(s.polys)) else EncoderPb(s.idx, PackRows(s.values), [])
  }

  /** A stored encoder is accepted exactly when it has one of the two shapes. */
  function ReadEncoder(pb: EncoderPb): (s: Option<Stream>)
    ensures s.Some? ==> s.value.Ok()
  {
    if pb.pts != [] then
      if pb.polys == [] && RowsOk(pb.pts, false)
      then Some(Stream(UnpackRows(pb.pts), [], pb.idx % INDICES, false)) else None
    else if RowsOk(pb.polys, true) then Some(Stream([], UnpackRows(pb.polys), pb.idx % INDICES, true))
    else None
  }

  /** What the stored form keeps of a stream: the live rows. */
  function Kept(s: Stream): (t: Stream)
    ensures t.Ok() == s.Ok() && t.Lasts() == s.Lasts()
  {
    if s.switched then s.(values := []) else s.(polys := [])
  }

  /**
   Every stream reads back with its live rows, except a switched one with an empty
   polynomial, which the reader refuses.
   */
  lemma ReadBack(s: Stream)
    requires s.Ok()
    ensures ReadEncoder(EncoderPbOf(s)) == if s.switched && !s.Lasts() then None else Some(Kept(s))
  {
    hide PackRows, UnpackRows;
    UnpackPackRows(if s.switched then s.polys else s.values);
    assert |PackRows(s.polys)| == |s.polys| && |PackRows(s.values)| == |s.values| by { RowCount(s); }
  }

  lemma RowCount(s: Stream)
    ensures |PackRows(s.polys)| == |s.polys| && |PackRows(s.values)| == |s.values|
  {
  }

  method SerializeRows(vss: seq<seq<Gf>>) returns (rows: seq<Bytes>)
    requires |vss| == NUM_POLYS
    ensures rows == PackRows(vss)
  {
    hide PackTo;
    rows := [];
    for p := 0 to NUM_POLYS
      invariant rows == PackRows(vss)[..p]
    {
      var row := SerializeGf16s(vss[p]);
      rows := rows + [row];
    }
  }

  method EncoderToProto(e: Encoder) returns (pb: EncoderPb)
    requires e.Model().Ok()
    ensures pb == EncoderPbOf(e.Model())
  {
    if e.switched {
      var rows := SerializeRows(e.polys);
      pb := EncoderPb(e.idx, [], rows);
    } else {
      var rows := SerializeRows(e.values);
      pb := EncoderPb(e.idx, rows, []);
    }
  }

  method DecodeRows(rows: seq<Bytes>, nonEmpty: bool) returns (out: Option<seq<seq<Gf>>>)
    requires |rows| == NUM_POLYS
    ensures out == if RowsOk(rows, nonEmpty) then Some(UnpackRows(rows)) else None
  {
    hide Unpack;
    var vs: seq<seq<Gf>> := [];
    for p := 0 to NUM_POLYS
      invariant |vs| == p
      invariant forall q | 0 <= q < p :: |rows[q]| % 2 == 0 && (nonEmpty ==> |rows[q]| > 0)
      invariant forall q | 0 <= q < p :: vs[q] == Unpack(rows[q])
    {
      var row := DeserializeGf16s(rows[p]);
      if row.None? || (nonEmpty && |row.value| == 0) {
        return None;
      }
      vs := vs + [row.value];
    }
    assert vs == UnpackRows(rows);
    out := Some(vs);
  }

  method EncoderFromProto(pb: EncoderPb) returns (e: Option<Encoder>)
    ensures e.Some? ==> fresh(e.value)
    ensures (if e.Some? then Some(e.value.Model()) else None) == ReadEncoder(pb)
  {
    hide UnpackRows;
    if |pb.pts| != 0 {
      if |pb.polys| != 0 || |pb.pts| != NUM_POLYS {
        return None;
      }
      var rows := DecodeRows(pb.pts, false);
      if rows.None? {
        return None;
      }
      var enc := new Encoder(rows.value, [], pb.idx % INDICES, false);
      e := Some(enc);
    } else if |pb.polys| == NUM_POLYS {
      var rows := DecodeRows(pb.polys, true);
      if rows.None? {
        return None;
      }
      var enc := new Encoder([], rows.value, pb.idx % INDICES, true);
      e := Some(enc);
    } else {
      return None;
    }
  }

  /**
   Saving and reloading an encoder keeps the message it encodes and its position, so all
   later chunks are the same, although a switched encoder drops its raw values. The one
   exception is a switched encoder of a message shorter than 32 bytes, whose empty
   polynomials the reader refuses.
   */
  method ReloadEncoder(e: Encoder, ghost msg: Bytes) returns (e': Option<Encoder>)
    requires e.Model().Encodes(msg)
    ensures e'.None? <==> e.switched && |msg| < CHUNK_SIZE
    ensures e'.Some? ==> fresh(e'.value) && e'.value.Model().Encodes(msg)
    ensures e'.Some? ==> e'.value.idx == e.idx && e'.value.switched == e.switched
  {
    hide EncoderPbOf, ReadEncoder, ValuesOf, Interpolant;
    LastsIffWholeChunk(e.Model(), msg);
    ReadBack(e.Model());
    var pb := EncoderToProto(e);
    e' := EncoderFromProto(pb);
  }

  /**
   An encoder saved after its first chunk is refused on reload exactly when its message
   is shorter than 32 bytes: that chunk has already made it switch.
   */
  method ReloadAfterFirstChunk(msg: Bytes) returns (e': Option<Encoder>)
    requires |msg| % 2 == 0
    ensures e'.None? <==> |msg| < CHUNK_SIZE
    ensures e'.Some? ==> e'.value.Model().Encodes(msg) && e'.value.idx == 1
  {
    hide Stream.Next, Stream.Chunk, Stream.Encodes, StreamOf;
    var e := NewEncoder(msg);
    NextIs(StreamOf(msg), msg);
    var _ := e.value.NextChunk();
    e' := ReloadEncoder(e.value, msg);
  }

  // ----- decoders -----

  function PackPoints(pts: seq<Pt>): (b: Bytes)
    ensures |b| == 4 * |pts|
  {
    if pts == [] then []
    else
      var pt := pts[|pts| - 1];
      PackPoints(pts[..|pts| - 1]) + [High(pt.x), Low(pt.x), High(pt.y), Low(pt.y)]
  }

  function UnpackPoints(b: Bytes): (pts: seq<Pt>)
    requires |b| % 4 == 0
    ensures |pts| == |b| / 4
  {
    if b == [] then []
    else
      var n := |b| - 4;
      UnpackPoints(b[..n]) + [Pt(Join(b[n], b[n + 1]), Join(b[n + 2], b[n + 3]))]
  }

  lemma {:induction false} UnpackPackPoints(pts: seq<Pt>)
    ensures UnpackPoints(PackPoints(pts)) == pts
    decreases |pts|
  {
    hide High, Low, Join;
    if pts != [] {
      var n := |pts| - 1;
      var b := PackPoints(pts);
      UnpackPackPoints(pts[..n]);
      assert b[..|b| - 4] == PackPoints(pts[..n]);
      JoinSplit(pts[n].x, 0, 0);
      JoinSplit(pts[n].y, 0, 0);
      assert pts == pts[..n] + [pts[n]];
    }
  }

  function DecoderPbOf(d: Received): (pb: DecoderPb) {
    DecoderPb(d.needed % UINT32, NUM_POLYS, false,
              seq(|d.pts|, p requires 0 <= p < |d.pts| => PackPoints(d.pts[p])))
  }

  /** Sixteen rows of whole points are accepted; the other fields are not looked at. */
  function ReadDecoder(pb: DecoderPb): (d: Option<Received>)
    ensures d.Some? ==> d.value.Ok()
  {
    if |pb.pts| == NUM_POLYS && forall p | 0 <= p < NUM_POLYS :: |pb.pts[p]| % 4 == 0
    then Some(Received(pb.ptsNeeded, seq(NUM_POLYS, p requires 0 <= p < NUM_POLYS => UnpackPoints(pb.pts[p]))))
    else None
  }

  /** A decoder with a 32-bit need reads back whole. */
  lemma ReadDecoderBack(d: Received)
    requires d.Ok() && d.needed < UINT32
    ensures ReadDecoder(DecoderPbOf(d)) == Some(d)
  {
    hide PackPoints, UnpackPoints;
    var pb := DecoderPbOf(d);
    forall p | 0 <= p < NUM_POLYS ensures UnpackPoints(pb.pts[p]) == d.pts[p] {
      UnpackPackPoints(d.pts[p]);
    }
    assert ReadDecoder(pb).value.pts == d.pts;
  }

  method DecoderToProto(d: Decoder) returns (pb: DecoderPb)
    requires d.Model().Ok()
    ensures pb == DecoderPbOf(d.Model())
  {
    hide High, Low;
    var rows: seq<Bytes> := [];
    for p := 0 to NUM_POLYS
      invariant |rows| == p
      invariant forall q | 0 <= q < p :: rows[q] == PackPoints(d.pts[q])
    {
      var buf: Bytes := [];
      for i := 0 to |d.pts[p]|
        invariant buf == PackPoints(d.pts[p][..i])
      {
        var pt := d.pts[p][i];
        buf := buf + [High(pt.x), Low(pt.x), High(pt.y), Low(pt.y)];
        assert d.pts[p][..i + 1][..i] == d.pts[p][..i];
      }
      assert d.pts[p][..|d.pts[p]|] == d.pts[p];
      rows := rows + [buf];
    }
    pb := DecoderPb(d.needed % UINT32, NUM_POLYS, false, rows);
  }

  method DecoderFromProto(pb: DecoderPb) returns (d: Option<Decoder>)
    ensures d.Some? ==> fresh(d.value)
    ensures (if d.Some? then Some(d.value.Model()) else None) == ReadDecoder(pb)
  {
    hide Join;
    if |pb.pts| != NUM_POLYS {
      return None;
    }
    var rows: seq<seq<Pt>> := [];
    for p := 0 to NUM_POLYS
      invariant |rows| == p
      invariant forall q | 0 <= q < p :: |pb.pts[q]| % 4 == 0
      invariant forall q | 0 <= q < p :: rows[q] == UnpackPoints(pb.pts[q])
    {
      var raw := pb.pts[p];
      if |raw| % 4 != 0 {
        return None;
      }
      var pts: seq<Pt> := [];
      for i := 0 to |raw| / 4
        invariant pts == UnpackPoints(raw[..4 * i])
      {
        var off := 4 * i;
        pts := pts + [Pt(Join(raw[off], raw[off + 1]), Join(raw[off + 2], raw[off + 3]))];
        assert raw[..off + 4][..off] == raw[..off];
      }
      assert raw[..|raw|] == raw;
      rows := rows + [pts];
    }
    assert rows == ReadDecoder(pb).value.pts;
    var dec := new Decoder(pb.ptsNeeded, rows);
    d := Some(dec);
  }

  /** Saving and reloading a decoder loses nothing. */
  method ReloadDecoder(d: Decoder) returns (d': Option<Decoder>)
    requires d.Model().Ok() && d.needed < UINT32
    ensures d'.Some? && fresh(d'.value) && d'.value.Model() == d.Model()
  {
    hide DecoderPbOf, ReadDecoder;
    ReadDecoderBack(d.Model());
    var pb := DecoderToProto(d);
    d' := DecoderFromProto(pb);
  }
}
