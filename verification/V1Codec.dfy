/**
 The stored form of the v1 machine: one variant per state, holding an unchunked core and
 the bytes of the live encoder and decoder. The machine is stored and read back between
 any two steps. The reader refuses some stored encoders, but none that the machine can
 reach, and reading back changes no later message, key or error.
 */
module V1Codec {
  import opened Words
  import opened Chunked
  import opened Streams
  import opened TransportCodec
  import opened Primitives
  import opened Authenticator
  import opened V1Machine

  /** The unchunked cores, each with the fields its message has. */
  datatype Core =
    | EpochCore(epoch: nat, auth: Auth)
    | HeaderSentCore(epoch: nat, auth: Auth, ek: Bytes, dk: Bytes)
    | EkSentCore(epoch: nat, auth: Auth, dk: Bytes)
    | EkSentCt1ReceivedCore(epoch: nat, auth: Auth, dk: Bytes, ct1: Bytes)
    | HeaderReceivedCore(epoch: nat, auth: Auth, hdr: Bytes)
    | Ct1SentCore(epoch: nat, auth: Auth, hdr: Bytes, es: Bytes, ct1: Bytes)
    | Ct1SentEkReceivedCore(epoch: nat, auth: Auth, es: Bytes, ek: Bytes, ct1: Bytes)

  datatype Tag =
    | TKeysUnsampled | TKeysSampled | THeaderSent | TCt1Received | TEkSentCt1Received
    | TNoHeaderReceived | THeaderReceived | TCt1Sampled | TEkReceivedCt1Sampled | TCt1Acknowledged | TCt2Sampled

  /** A state taken apart; any part may be missing in what is read back. */
  datatype Parts = Parts(tag: Tag, core: Option<Core>, encoder: Option<Stream>, decoder: Option<Received>)

  /** A stored state: the parts with their encoder and decoder in bytes. */
  datatype Pb = NoInner | Pb(tag: Tag, core: Option<Core>, encoder: Option<EncoderPb>, decoder: Option<DecoderPb>)

  function PartsOf(s: State): (p: Parts) {
    match s
    case KeysUnsampled(e, a) => Parts(TKeysUnsampled, Some(EpochCore(e, a)), None, None)
    case KeysSampled(e, a, ek, dk, enc) => Parts(TKeysSampled, Some(HeaderSentCore(e, a, ek, dk)), Some(enc), None)
    case HeaderSent(e, a, _, dk, enc, d) => Parts(THeaderSent, Some(EkSentCore(e, a, dk)), Some(enc), Some(d))
    case Ct1Received(e, a, _, dk, ct1, enc) =>
      Parts(TCt1Received, Some(EkSentCt1ReceivedCore(e, a, dk, ct1)), Some(enc), None)
    case EkSentCt1Received(e, a, dk, ct1, d) =>
      Parts(TEkSentCt1Received, Some(EkSentCt1ReceivedCore(e, a, dk, ct1)), None, Some(d))
    case NoHeaderReceived(e, a, d) => Parts(TNoHeaderReceived, Some(EpochCore(e, a)), None, Some(d))
    case HeaderReceived(e, a, hdr, d) => Parts(THeaderReceived, Some(HeaderReceivedCore(e, a, hdr)), None, Some(d))
    case Ct1Sampled(e, a, hdr, es, ct1, enc, d) =>
      Parts(TCt1Sampled, Some(Ct1SentCore(e, a, hdr, es, ct1)), Some(enc), Some(d))
    case EkReceivedCt1Sampled(e, a, es, ek, ct1, enc) =>
      Parts(TEkReceivedCt1Sampled, Some(Ct1SentEkReceivedCore(e, a, es, ek, ct1)), Some(enc), None)
    case Ct1Acknowledged(e, a, hdr, es, ct1, d) =>
      Parts(TCt1Acknowledged, Some(Ct1SentCore(e, a, hdr, es, ct1)), None, Some(d))
    case Ct2Sampled(e, a, enc) => Parts(TCt2Sampled, Some(EpochCore(e, a)), Some(enc), None)
  }

  /** A missing core, encoder or decoder that the variant needs is refused. */
  function Assemble(p: Parts): (s: Option<State>)
    requires (p.encoder.Some? ==> p.encoder.value.Ok()) && (p.decoder.Some? ==> p.decoder.value.Ok())
    ensures s.Some? ==> s.value.Wf()
  {
    match p
    case Parts(TKeysUnsampled, Some(EpochCore(e, a)), _, _) => Some(KeysUnsampled(e, a))
    case Parts(TKeysSampled, Some(HeaderSentCore(e, a, ek, dk)), Some(enc), _) => Some(KeysSampled(e, a, ek, dk, enc))
    case Parts(THeaderSent, Some(EkSentCore(e, a, dk)), Some(enc), Some(d)) => Some(HeaderSent(e, a, [], dk, enc, d))
    case Parts(TCt1Received, Some(EkSentCt1ReceivedCore(e, a, dk, ct1)), Some(enc), _) =>
      Some(Ct1Received(e, a, [], dk, ct1, enc))
    case Parts(TEkSentCt1Received, Some(EkSentCt1ReceivedCore(e, a, dk, ct1)), _, Some(d)) =>
      Some(EkSentCt1Received(e, a, dk, ct1, d))
    case Parts(TNoHeaderReceived, Some(EpochCore(e, a)), _, Some(d)) => Some(NoHeaderReceived(e, a, d))
    case Parts(THeaderReceived, Some(HeaderReceivedCore(e, a, hdr)), _, Some(d)) => Some(HeaderReceived(e, a, hdr, d))
    case Parts(TCt1Sampled, Some(Ct1SentCore(e, a, hdr, es, ct1)), Some(enc), Some(d)) =>
      Some(Ct1Sampled(e, a, hdr, es, ct1, enc, d))
    case Parts(TEkReceivedCt1Sampled, Some(Ct1SentEkReceivedCore(e, a, es, ek, ct1)), Some(enc), _) =>
      Some(EkReceivedCt1Sampled(e, a, es, ek, ct1, enc))
    case Parts(TCt1Acknowledged, Some(Ct1SentCore(e, a, hdr, es, ct1)), _, Some(d)) =>
      Some(Ct1Acknowledged(e, a, hdr, es, ct1, d))
    case Parts(TCt2Sampled, Some(EpochCore(e, a)), Some(enc), _) => Some(Ct2Sampled(e, a, enc))
    case _ => None
  }

  function ToProto(s: State): (pb: Pb) {
    var p := PartsOf(s);
    Pb(p.tag, p.core,
       if p.encoder.Some? then Some(EncoderPbOf(p.encoder.value)) else None,
       if p.decoder.Some? then Some(DecoderPbOf(p.decoder.value)) else None)
  }

  function DecEncoder(pb: Option<EncoderPb>): (s: Option<Stream>)
    ensures s.Some? ==> s.value.Ok()
  {
    if pb.None? then None else ReadEncoder(pb.value)
  }

  function DecDecoder(pb: Option<DecoderPb>): (d: Option<Received>)
    ensures d.Some? ==> d.value.Ok()
  {
    if pb.None? then None else ReadDecoder(pb.value)
  }

  /** An encoder or decoder the reader does not accept is as good as missing. */
  function FromProto(pb: Pb): (s: Option<State>)
    ensures s.Some? ==> s.value.Wf()
  {
    match pb
    case NoInner => None
    case Pb(tag, core, enc, dec) => Assemble(Parts(tag, core, DecEncoder(enc), DecDecoder(dec)))
  }

  /** What the stored form of a state keeps: the live rows, and a key being sent only once. */
  function Stored(s: State): (r: State) {
    match s
    case KeysSampled(e, a, ek, dk, enc) => KeysSampled(e, a, ek, dk, Kept(enc))
    case HeaderSent(e, a, _, dk, enc, d) => HeaderSent(e, a, [], dk, Kept(enc), d)
    case Ct1Received(e, a, _, dk, ct1, enc) => Ct1Received(e, a, [], dk, ct1, Kept(enc))
    case Ct1Sampled(e, a, hdr, es, ct1, enc, d) => Ct1Sampled(e, a, hdr, es, ct1, Kept(enc), d)
    case EkReceivedCt1Sampled(e, a, es, ek, ct1, enc) => EkReceivedCt1Sampled(e, a, es, ek, ct1, Kept(enc))
    case Ct2Sampled(e, a, enc) => Ct2Sampled(e, a, Kept(enc))
    case _ => s
  }

  // ----- what the reader accepts -----

  /** Counts of missing points fit the 32 bits they are stored in. */
  predicate Small(s: State) {
    var d := PartsOf(s).decoder;
    d.Some? ==> d.value.needed < UINT32
  }

  /** The live encoder has switched and holds an empty polynomial. */
  predicate Exhausted(s: State) {
    var e := PartsOf(s).encoder;
    e.Some? && e.value.switched && !e.value.Lasts()
  }

  /** A stored state reads back up to what no later step uses, unless its encoder is exhausted. */
  lemma Reload(s: State)
    requires s.Wf() && Small(s)
    ensures FromProto(ToProto(s)) == if Exhausted(s) then None else Some(Stored(s))
  {
    hide EncoderPbOf, ReadEncoder, DecoderPbOf, ReadDecoder, Kept;
    var p := PartsOf(s);
    if p.encoder.Some? {
      ReadBack(p.encoder.value);
    }
    if p.decoder.Some? {
      ReadDecoderBack(p.decoder.value);
    }
  }

  /** Every row of the live encoder is occupied, and so are those of the one that comes next. */
  predicate Storable(s: State) {
    && s.Wf() && Small(s)
    && (PartsOf(s).encoder.Some? ==> PartsOf(s).encoder.value.Lasts())
    && (s.KeysSampled? ==> |s.ek| >= CHUNK_SIZE)
  }

  lemma StorableReload(s: State)
    requires Storable(s)
    ensures FromProto(ToProto(s)) == Some(Stored(s)) && Storable(Stored(s))
  {
    hide ToProto, FromProto;
    Reload(s);
  }

  lemma NewStreamLasts(msg: Bytes)
    requires |msg| % 2 == 0 && |msg| >= CHUNK_SIZE
    ensures StreamOf(msg).Lasts() && StreamOf(msg).Next().Lasts()
  {
    hide StreamOf, Stream.Next, Stream.Lasts;
    LastsIffWholeChunk(StreamOf(msg), msg);
    NextLasts(StreamOf(msg));
  }

  /** Sending keeps a state readable, whatever is drawn. */
  lemma SendStorable(c: Crypto, s: State, rnd: Bytes)
    requires Sized(c) && Storable(s) && Send(c, s, rnd).Ok?
    ensures Storable(Send(c, s, rnd).value.state)
  {
    hide StreamOf, Stream.Next, Stream.Chunk, Stream.Lasts;
    match s
    case KeysUnsampled(e, a) =>
      NewStreamLasts(c.keygen(rnd).pk1 + MacHdr(c, a, e, c.keygen(rnd).pk1));
    case HeaderReceived(_, _, hdr, _) => NewStreamLasts(c.encaps1(hdr, rnd).ct1);
    case KeysSampled(_, _, _, _, enc) => NextLasts(enc);
    case HeaderSent(_, _, _, _, enc, _) => NextLasts(enc);
    case Ct1Received(_, _, _, _, _, enc) => NextLasts(enc);
    case Ct1Sampled(_, _, _, _, _, enc, _) => NextLasts(enc);
    case EkReceivedCt1Sampled(_, _, _, _, _, enc) => NextLasts(enc);
    case Ct2Sampled(_, _, enc) => NextLasts(enc);
    case _ =>
  }

  lemma FinishStorable(c: Crypto, epoch: nat, auth: Auth, es: Bytes, ct1: Bytes, ek: Bytes)
    requires Sized(c)
    ensures var r := ToCt2Sampled(c, epoch, auth, es, ct1, ek); r.Ok? ==> Storable(r.value)
  {
    hide StreamOf, Stream.Lasts, Stream.Next;
    if c.encaps2(es, ek).Some? {
      var ct2 := c.encaps2(es, ek).value;
      NewStreamLasts(ct2 + MacCt(c, auth, epoch, ct1 + ct2));
    }
  }

  /** Receiving keeps a state readable, whatever arrives. */
  lemma RecvStorable(c: Crypto, s: State, msg: Msg)
    requires Sized(c) && Storable(s) && MsgOk(msg) && Recv(c, s, msg).Ok?
    ensures Storable(Recv(c, s, msg).value.state)
  {
    hide StreamOf, Stream.Next, Stream.Lasts, Received.Add, Received.Decoded, ToCt2Sampled, Update, MacCt, MacHdr;
    match s
    case KeysSampled(_, _, ek, _, _) =>
      if |ek| % 2 == 0 {
        NewStreamLasts(ek);
      }
    case Ct1Sampled(e, a, hdr, es, ct1, _, d) =>
      forall ek ensures ToCt2Sampled(c, e, a, es, ct1, ek).Ok? ==> Storable(ToCt2Sampled(c, e, a, es, ct1, ek).value) {
        FinishStorable(c, e, a, es, ct1, ek);
      }
    case EkReceivedCt1Sampled(e, a, es, ek, ct1, _) => FinishStorable(c, e, a, es, ct1, ek);
    case Ct1Acknowledged(e, a, hdr, es, ct1, d) =>
      forall ek ensures ToCt2Sampled(c, e, a, es, ct1, ek).Ok? ==> Storable(ToCt2Sampled(c, e, a, es, ct1, ek).value) {
        FinishStorable(c, e, a, es, ct1, ek);
      }
    case _ =>
  }

  // ----- what is dropped makes no difference -----

  /** Two states of which the stored form keeps the same. */
  ghost predicate Similar(s: State, t: State) {
    Stored(s) == Stored(t)
  }

  lemma KeptPoint(s: Stream, p: nat, index: ChunkIndex)
    requires s.Ok() && p < NUM_POLYS
    ensures Kept(s).PointAt(p, index).0 == s.PointAt(p, index).0
    ensures Kept(Kept(s).PointAt(p, index).1) == Kept(s.PointAt(p, index).1)
  {
  }

  lemma {:induction false} SimilarPoints(s: Stream, t: Stream, n: nat, index: ChunkIndex)
    requires s.Ok() && t.Ok() && n <= NUM_POLYS && Kept(s) == Kept(t)
    ensures s.PointsTo(n, index).0 == t.PointsTo(n, index).0
    ensures Kept(s.PointsTo(n, index).1) == Kept(t.PointsTo(n, index).1)
    decreases n
  {
    hide Kept, Stream.PointAt;
    if n > 0 {
      SimilarPoints(s, t, n - 1, index);
      KeptPoint(s.PointsTo(n - 1, index).1, n - 1, index);
      KeptPoint(t.PointsTo(n - 1, index).1, n - 1, index);
    }
  }

  /** The dead rows of a stream change neither its chunks nor its live rows. */
  lemma SimilarStreams(s: Stream, t: Stream)
    requires s.Ok() && t.Ok() && Kept(s) == Kept(t)
    ensures s.Chunk() == t.Chunk() && Kept(s.Next()) == Kept(t.Next())
  {
    hide Stream.PointsTo;
    SimilarPoints(s, t, NUM_POLYS, s.idx);
  }

  lemma SimilarSends(c: Crypto, s: State, t: State, rnd: Bytes)
    requires Similar(s, t) && s.Wf()
    ensures t.Wf()
    ensures var r, q := Send(c, s, rnd), Send(c, t, rnd);
      match r
      case Err(e) => q == Err(e)
      case Ok(a) => q.Ok? && q.value.msg == a.msg && q.value.key == a.key && Similar(a.state, q.value.state)
  {
    hide Kept, Stream.Chunk, Stream.Next, StreamOf;
    var p, q := PartsOf(s).encoder, PartsOf(t).encoder;
    if p.Some? {
      SimilarStreams(p.value, q.value);
    }
  }

  /** Two receiving steps that end alike. */
  ghost predicate Alike(r: Result<RecvStep>, q: Result<RecvStep>) {
    match r
    case Err(e) => q == Err(e)
    case Ok(a) => q.Ok? && q.value.key == a.key && Similar(a.state, q.value.state)
  }

  lemma SimilarEkReceives(c: Crypto, s: State, t: State, msg: Msg)
    requires Similar(s, t) && s.Wf() && t.Wf() && MsgOk(msg) && s.SendsEk()
    ensures Alike(RecvCurrent(c, s, msg), RecvCurrent(c, t, msg))
  {
    hide Kept, StreamOf, Received.Add, Received.Decoded, Update, MacCt, Slice, SckaKey, NewReceived;
  }

  lemma SimilarCtReceives(c: Crypto, s: State, t: State, msg: Msg)
    requires Similar(s, t) && s.Wf() && t.Wf() && MsgOk(msg) && !s.SendsEk()
    ensures Alike(RecvCurrent(c, s, msg), RecvCurrent(c, t, msg))
  {
    hide Kept, Received.Add, Received.Decoded, MacHdr, ToCt2Sampled, Slice, NewReceived;
  }

  lemma SimilarReceives(c: Crypto, s: State, t: State, msg: Msg)
    requires Similar(s, t) && s.Wf() && MsgOk(msg)
    ensures t.Wf() && Alike(Recv(c, s, msg), Recv(c, t, msg))
  {
    hide RecvCurrent, Kept;
    if s.SendsEk() {
      SimilarEkReceives(c, s, t, msg);
    } else {
      SimilarCtReceives(c, s, t, msg);
    }
  }

  lemma StoredSimilar(s: State)
    ensures Similar(s, Stored(s))
  {
  }

  // ----- whole runs -----

  datatype Input = Draw(rnd: Bytes) | Deliver(msg: Msg)

  /** What a caller of the machine can see of one step. */
  datatype Output =
    | SentOut(msg: Msg, key: Option<EpochSecret>)
    | ReceivedOut(key: Option<EpochSecret>)
    | Failed(e: Error)
    | Unreadable

  /** One step; a failed one leaves the state as it was. */
  function StepOn(c: Crypto, s: State, i: Input): (r: (State, Output))
    requires s.Wf() && (i.Deliver? ==> MsgOk(i.msg))
    ensures r.0.Wf() && !r.1.Unreadable?
  {
    match i
    case Draw(rnd) =>
      (match Send(c, s, rnd)
       case Ok(a) => (a.state, SentOut(a.msg, a.key))
       case Err(e) => (s, Failed(e)))
    case Deliver(msg) =>
      (match Recv(c, s, msg)
       case Ok(a) => (a.state, ReceivedOut(a.key))
       case Err(e) => (s, Failed(e)))
  }

  /** One step on a stored state: read it, step, store the result; what cannot be read stays. */
  function StepOnStored(c: Crypto, pb: Pb, i: Input): (r: (Pb, Output))
    requires i.Deliver? ==> MsgOk(i.msg)
  {
    match FromProto(pb)
    case None => (pb, Unreadable)
    case Some(s) =>
      var (s', o) := StepOn(c, s, i);
      (if o.Failed? then pb else ToProto(s'), o)
  }

  predicate InputsOk(ins: seq<Input>) {
    forall k | 0 <= k < |ins| :: ins[k].Deliver? ==> MsgOk(ins[k].msg)
  }

  /** The outputs of a run kept in memory throughout. */
  function Outputs(c: Crypto, s: State, ins: seq<Input>): (os: seq<Output>)
    requires s.Wf() && InputsOk(ins)
    ensures |os| == |ins| && forall k | 0 <= k < |os| :: !os[k].Unreadable?
    decreases |ins|
  {
    if ins == [] then []
    else
      var (s', o) := StepOn(c, s, ins[0]);
      [o] + Outputs(c, s', ins[1..])
  }

  /** The outputs of the same run on stored states. */
  function StoredOutputs(c: Crypto, pb: Pb, ins: seq<Input>): (os: seq<Output>)
    requires InputsOk(ins)
    decreases |ins|
  {
    if ins == [] then []
    else
      var (pb', o) := StepOnStored(c, pb, ins[0]);
      [o] + StoredOutputs(c, pb', ins[1..])
  }

  lemma StepStorable(c: Crypto, s: State, i: Input)
    requires Sized(c) && Storable(s) && (i.Deliver? ==> MsgOk(i.msg))
    ensures Storable(StepOn(c, s, i).0)
  {
    hide Send, Recv, Storable;
    StorableIsWf(s);
    match i
    case Draw(rnd) => if Send(c, s, rnd).Ok? { SendStorable(c, s, rnd); }
    case Deliver(msg) => if Recv(c, s, msg).Ok? { RecvStorable(c, s, msg); }
  }

  lemma StorableIsWf(s: State)
    requires Storable(s)
    ensures s.Wf()
  {
  }

  lemma SimilarSteps(c: Crypto, s: State, t: State, i: Input)
    requires Similar(s, t) && s.Wf() && t.Wf() && (i.Deliver? ==> MsgOk(i.msg))
    ensures StepOn(c, s, i).1 == StepOn(c, t, i).1 && Similar(StepOn(c, s, i).0, StepOn(c, t, i).0)
  {
    hide Send, Recv, Similar;
    match i {
      case Draw(rnd) => SimilarSends(c, s, t, rnd);
      case Deliver(msg) => SimilarReceives(c, s, t, msg);
    }
  }

  lemma FailedStays(c: Crypto, s: State, i: Input)
    requires s.Wf() && (i.Deliver? ==> MsgOk(i.msg))
    ensures StepOn(c, s, i).1.Failed? ==> StepOn(c, s, i).0 == s
  {
    hide Send, Recv;
  }

  /** One step in memory and one on the stored form of a similar state. */
  lemma StepsAlike(c: Crypto, s: State, t: State, i: Input) returns (t': State)
    requires Sized(c) && Similar(s, t) && Storable(t) && s.Wf() && (i.Deliver? ==> MsgOk(i.msg))
    ensures Storable(t') && Similar(StepOn(c, s, i).0, t')
    ensures StepOnStored(c, ToProto(t), i) == (ToProto(t'), StepOn(c, s, i).1)
  {
    hide StepOn, FromProto, ToProto, Stored, Storable;
    StorableReload(t);
    StoredSimilar(t);
    var u := Stored(t);
    StorableIsWf(u);
    SimilarSteps(c, s, u, i);
    FailedStays(c, u, i);
    StepStorable(c, u, i);
    t' := if StepOn(c, u, i).1.Failed? then t else StepOn(c, u, i).0;
  }

  lemma {:induction false} SimilarRuns(c: Crypto, s: State, t: State, ins: seq<Input>)
    requires Sized(c) && Similar(s, t) && Storable(t) && s.Wf() && InputsOk(ins)
    ensures StoredOutputs(c, ToProto(t), ins) == Outputs(c, s, ins)
    decreases |ins|
  {
    hide Similar, Storable, ToProto, StepOnStored, StepOn;
    if ins != [] {
      var t' := StepsAlike(c, s, t, ins[0]);
      SimilarRuns(c, StepOn(c, s, ins[0]).0, t', ins[1..]);
    }
  }

  /** The states a machine starts in. */
  ghost predicate IsInitial(c: Crypto, s: State) {
    exists key :: s == NewSendEk(c, key) || s == NewSendCt(c, key)
  }

  /**
   A machine stored and read back between any two steps behaves as one kept in memory: for
   every draw and every message, honest or not, no stored state is ever refused, and the
   messages, keys and errors are the same.
   */
  lemma ReloadingIsInvisible(c: Crypto, s: State, ins: seq<Input>)
    requires Sized(c) && IsInitial(c, s) && InputsOk(ins)
    ensures s.Wf() && StoredOutputs(c, ToProto(s), ins) == Outputs(c, s, ins)
  {
    assert Storable(s);
    SimilarRuns(c, s, s, ins);
  }
}
