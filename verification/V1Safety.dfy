/** The joint invariant holds in every run, and what it means. */
module V1Safety {
  import opened Words
  import opened Parties
  import opened Chunked
  import opened Streams
  import opened Primitives
  import opened Authenticator
  import opened V1Machine
  import opened V1Joint

  // ----- the log only grows -----

  ghost predicate Refines(x: Exchange, y: Exchange) {
    x.Fresh? || x == y || (x.Keyed? && y.Full? && x.seed == y.seed)
  }

  ghost predicate Grows(l: Log, l': Log) {
    && l.c == l'.c && l.authKey == l'.authKey && l.done <= l'.done
    && forall e | 1 <= e <= l.Epoch() :: Refines(l.At(e), l'.At(e))
  }

  lemma GrowsKeepsMessages(l: Log, l': Log, e: nat)
    requires l.Ok() && l'.Ok() && Grows(l, l') && 1 <= e <= l.Epoch()
    ensures l'.Before(e) == l.Before(e)
    ensures !l.At(e).Fresh? ==> l'.HdrMsg(e) == l.HdrMsg(e) && l'.EkMsg(e) == l.EkMsg(e)
    ensures l.At(e).Full? ==> l'.At(e) == l.At(e) && l'.After(e) == l.After(e)
    ensures l.At(e).Full? ==> l'.Ct1Msg(e) == l.Ct1Msg(e) && l'.Ct2Msg(e) == l.Ct2Msg(e)
  {
    hide AuthAfter, Update, MacHdr, MacCt, Sound;
    assert l'.done[..e - 1] == l.done[..e - 1];
    assert Refines(l.At(e), l'.At(e));
  }

  lemma FitsGrows(l: Log, l': Log, msg: Msg)
    requires l.Ok() && l'.Ok() && Grows(l, l') && Fits(l, msg)
    ensures Fits(l', msg)
  {
    hide Log.Ok, Log.HdrMsg, Log.EkMsg, Log.Ct1Msg, Log.Ct2Msg, IsChunk;
    GrowsKeepsMessages(l, l', msg.epoch);
    assert Refines(l.At(msg.epoch), l'.At(msg.epoch));
  }

  lemma SecretGrows(l: Log, l': Log, es: EpochSecret)
    requires l.Ok() && l'.Ok() && Grows(l, l') && SecretFits(l, es)
    ensures SecretFits(l', es)
  {
    GrowsKeepsMessages(l, l', es.epoch);
  }

  lemma FitsIsOk(l: Log, msg: Msg)
    requires l.Ok() && Fits(l, msg)
    ensures MsgOk(msg) && msg.epoch >= 1
  {
    hide Log.Ok, Log.HdrMsg, Log.EkMsg, Log.Ct1Msg, Log.Ct2Msg;
  }

  lemma StatesAreWf(l: Log, s: State)
    requires l.Ok() && (EkFits(l, s) || CtFits(l, s) || Behind(l, s))
    ensures s.Wf()
  {
    hide Log.Ok, OnMessage, AuthAfter, Stream.Encodes;
  }

  lemma ChunksHaveTheirIndex()
    ensures forall msg: Bytes, i: ChunkIndex {:trigger ChunkOf(msg, i)} | |msg| % 2 == 0 :: ChunkOf(msg, i).index == i
  {
  }

  // ----- sending -----

  /** The log after a send: the drawing states record their draw. */
  function LogAfterSend(l: Log, s: State, rnd: Bytes): (l': Log) {
    if s.KeysUnsampled? then l.(cur := Keyed(rnd))
    else if s.HeaderReceived? && l.cur.Keyed? then l.(cur := Full(l.cur.seed, rnd))
    else l
  }

  lemma DrawKeyOk(l: Log, seed: Bytes)
    requires l.Ok() && l.cur.Fresh? && l.c.validate(l.c.keygen(seed).pk1, l.c.keygen(seed).pk2)
    ensures l.(cur := Keyed(seed)).Ok() && Grows(l, l.(cur := Keyed(seed)))
  {
  }

  lemma DrawMessageOk(l: Log, m: Bytes)
    requires l.Ok() && l.cur.Keyed?
    requires KemAgrees(l.c, KeyOf(l.c, l.cur).pk1, KeyOf(l.c, l.cur).pk2, KeyOf(l.c, l.cur).dk, m)
    ensures l.(cur := Full(l.cur.seed, m)).Ok() && Grows(l, l.(cur := Full(l.cur.seed, m)))
  {
  }

  lemma SendEkKeeps(l: Log, s: State, rnd: Bytes)
    requires l.Ok() && EkFits(l, s) && s.Wf()
    requires s.KeysUnsampled? ==> l.c.validate(l.c.keygen(rnd).pk1, l.c.keygen(rnd).pk2)
    ensures var r, l' := Send(l.c, s, rnd), LogAfterSend(l, s, rnd);
      && l'.Ok() && Grows(l, l') && r.Ok? && r.value.key.None?
      && EkFits(l', r.value.state) && Fits(l', r.value.msg) && !r.value.msg.payload.Ct2?
  {
    ChunksHaveTheirIndex();
    hide ChunkOf, Holds, AuthAfter, Sound, Stream.Chunk, Stream.Next, Stream.Encodes, StreamOf;
    var e, l' := l.Epoch(), LogAfterSend(l, s, rnd);
    match s
    case KeysUnsampled(_, _) =>
      DrawKeyOk(l, rnd);
      GrowsKeepsMessages(l, l', e);
      NextIs(StreamOf(l'.HdrMsg(e)), l'.HdrMsg(e));
    case KeysSampled(_, _, _, _, enc) => NextIs(enc, l.HdrMsg(e));
    case HeaderSent(_, _, _, _, enc, _) => NextIs(enc, l.EkMsg(e));
    case Ct1Received(_, _, _, _, _, enc) => NextIs(enc, l.EkMsg(e));
    case EkSentCt1Received(_, _, _, _, _) =>
  }

  /** Header chunks reach a peer that is still waiting for the header. */
  lemma DrawKeyKeepsCt(l: Log, ct: State, seed: Bytes)
    requires l.Ok() && l.(cur := Keyed(seed)).Ok() && l.cur.Fresh? && CtFits(l, ct)
    ensures CtFits(l.(cur := Keyed(seed)), ct)
  {
    hide AuthAfter, Sound;
    var l' := l.(cur := Keyed(seed));
    assert l'.Before(l.Epoch()) == l.Before(l.Epoch());
    NothingReceived(l'.HdrMsg(l.Epoch()));
  }

  lemma SendCtKeeps(l: Log, s: State, rnd: Bytes)
    requires l.Ok() && CtFits(l, s) && s.Wf()
    requires s.HeaderReceived? ==>
      KemAgrees(l.c, KeyOf(l.c, l.cur).pk1, KeyOf(l.c, l.cur).pk2, KeyOf(l.c, l.cur).dk, rnd)
    ensures var r, l' := Send(l.c, s, rnd), LogAfterSend(l, s, rnd);
      && l'.Ok() && Grows(l, l') && r.Ok?
      && CtFits(l', r.value.state) && Fits(l', r.value.msg)
      && (r.value.key.Some? ==> SecretFits(l', r.value.key.value))
      && (r.value.msg.payload.Ct2? ==> r.value.state.Ct2Sampled?)
      && (s.Ct2Sampled? ==> r.value.state.Ct2Sampled?)
      && (s.NoHeaderReceived? ==> r.value.state == s && r.value.key.None?)
  {
    ChunksHaveTheirIndex();
    hide ChunkOf, AuthAfter, Sound, OnMessage, Stream.Chunk, Stream.Next, Stream.Encodes, StreamOf;
    var e, l' := l.Epoch(), LogAfterSend(l, s, rnd);
    match s
    case HeaderReceived(_, _, _, _) =>
      DrawMessageOk(l, rnd);
      GrowsKeepsMessages(l, l', e);
      NothingReceived(l'.EkMsg(e));
      NextIs(StreamOf(l'.Ct1Msg(e)), l'.Ct1Msg(e));
    case Ct1Sampled(_, _, _, _, _, enc, _) => NextIs(enc, l.Ct1Msg(e));
    case EkReceivedCt1Sampled(_, _, _, _, _, enc) => NextIs(enc, l.Ct1Msg(e));
    case Ct2Sampled(_, _, enc) => NextIs(enc, l.Ct2Msg(e));
    case NoHeaderReceived(_, _, _) =>
    case Ct1Acknowledged(_, _, _, _, _, _) =>
  }

  lemma DrawMessageKeepsEk(l: Log, ek: State, m: Bytes)
    requires l.Ok() && l.cur.Keyed? && l.(cur := Full(l.cur.seed, m)).Ok() && EkFits(l, ek)
    ensures EkFits(l.(cur := Full(l.cur.seed, m)), ek)
  {
    hide AuthAfter, Sound;
    var l' := l.(cur := Full(l.cur.seed, m));
    assert l'.Before(l.Epoch()) == l.Before(l.Epoch());
  }

  lemma SendBehindKeeps(l: Log, s: State, rnd: Bytes)
    requires l.Ok() && Behind(l, s) && s.Wf()
    ensures var r := Send(l.c, s, rnd);
      && r.Ok? && r.value.key.None?
      && Behind(l, r.value.state) && Fits(l, r.value.msg) && r.value.msg.epoch < l.Epoch()
  {
    ChunksHaveTheirIndex();
    hide ChunkOf, AuthAfter, Sound, Stream.Chunk, Stream.Next, Stream.Encodes;
    NextIs(s.sendingCt2, l.Ct2Msg(s.epoch));
  }

  // ----- receiving -----

  /** The log when the key-sending party completes the exchange. */
  function Advance(l: Log): (l': Log) {
    l.(done := l.done + [l.cur], cur := Fresh)
  }

  lemma AdvanceOk(l: Log)
    requires l.Ok() && l.cur.Full?
    ensures Advance(l).Ok() && Grows(l, Advance(l))
    ensures Advance(l).Before(l.Epoch() + 1) == l.After(l.Epoch())
  {
    var l' := Advance(l);
    var e := l.Epoch();
    assert l'.done[..e] == l'.done && l'.done[..e - 1] == l.done == l.done[..e - 1];
  }

  lemma RecvEkKeeps(l: Log, s: State, msg: Msg)
    requires l.Ok() && EkFits(l, s) && s.Wf() && Fits(l, msg) && MsgOk(msg)
    ensures var r := Recv(l.c, s, msg);
      && r.Ok?
      && ((r.value.key.None? && EkFits(l, r.value.state))
          || (&& l.cur.Full? && msg.epoch == l.Epoch() && msg.payload.Ct2?
              && Advance(l).Ok() && CtFits(Advance(l), r.value.state) && r.value.state.NoHeaderReceived?
              && r.value.key == Some(EpochSecret(l.Epoch(), SecretOf(l.c, l.cur, l.Epoch())))))
  {
    hide ChunkOf, AuthAfter, Sound, OnMessage, Received.Add, Received.Decoded, Stream.Encodes, StreamOf;
    if msg.epoch == l.Epoch() {
      match s
      case KeysUnsampled(_, _) =>
      case KeysSampled(_, _, _, _, _) =>
        if msg.payload.Ct1? {
          NothingReceived(l.Ct1Msg(l.Epoch()));
          FoldChunk(NewReceived(CT1_SIZE), l.Ct1Msg(l.Epoch()), msg.payload.chunk.index);
        }
      case HeaderSent(_, _, _, _, _, d) =>
        if msg.payload.Ct1? {
          FoldChunk(d, l.Ct1Msg(l.Epoch()), msg.payload.chunk.index);
        }
      case Ct1Received(_, _, _, _, _, _) =>
        if msg.payload.Ct2? {
          NothingReceived(l.Ct2Msg(l.Epoch()));
          FoldChunk(NewReceived(CT2_SIZE + MAC_SIZE), l.Ct2Msg(l.Epoch()), msg.payload.chunk.index);
        }
      case EkSentCt1Received(_, _, _, _, d) =>
        if msg.payload.Ct2? {
          RecvCt2Keeps(l, s, msg.payload.chunk);
        }
    }
  }

  /** The last ct2 chunk completes the exchange with the encapsulator's secret. */
  lemma RecvCt2Keeps(l: Log, s: State, chunk: Chunk)
    requires l.Ok() && EkFits(l, s) && s.Wf() && s.EkSentCt1Received? && IsChunk(chunk, l.Ct2Msg(l.Epoch()))
    ensures var r := RecvCt2(l.c, s, chunk);
      && r.Ok?
      && ((r.value.key.None? && EkFits(l, r.value.state))
          || (&& Advance(l).Ok() && CtFits(Advance(l), r.value.state) && r.value.state.NoHeaderReceived?
              && r.value.key == Some(EpochSecret(l.Epoch(), SecretOf(l.c, l.cur, l.Epoch())))))
  {
    hide ChunkOf, AuthAfter, Holds, Received.Add, Received.Decoded, MacCt, Update, Sound, Log.Ct2Msg;
    var e := l.Epoch();
    FoldChunk(s.recvingCt2, l.Ct2Msg(e), chunk.index);
    AdvanceOk(l);
    DecodedCt2(l);
  }

  lemma DecodedCt2(l: Log)
    requires l.Ok() && l.cur.Full?
    ensures var e, x := l.Epoch(), l.cur;
      var msg, ct2 := l.Ct2Msg(e), Ct2Of(l.c, x);
      && Slice(msg, 0, CT2_SIZE) == ct2
      && Slice(msg, CT2_SIZE, |msg|) == MacCt(l.c, l.After(e), e, l.Ct1Msg(e) + ct2)
      && l.c.decaps(KeyOf(l.c, x).dk, l.Ct1Msg(e), ct2) == Some(PhaseOf(l.c, x).ss)
  {
    hide AuthAfter, MacCt;
  }

  lemma CompletedIsBehind(l: Log, ct: State)
    requires l.Ok() && CtFits(l, ct) && ct.Ct2Sampled?
    ensures Advance(l).Ok() && Behind(Advance(l), ct)
  {
    AdvanceOk(l);
    GrowsKeepsMessages(l, Advance(l), l.Epoch());
  }

  lemma RecvCtKeeps(l: Log, s: State, msg: Msg)
    requires l.Ok() && CtFits(l, s) && s.Wf() && Fits(l, msg) && MsgOk(msg)
    ensures var r := Recv(l.c, s, msg);
      && r.Ok? && r.value.key.None? && CtFits(l, r.value.state)
      && (s.Ct2Sampled? ==> r.value.state.Ct2Sampled?)
      && (l.cur.Fresh? ==> r.value.state == s)
  {
    hide ChunkOf, AuthAfter, Sound, OnMessage, Stream.Encodes, StreamOf, RecvHdr, RecvEkSampled, RecvEkAcknowledged,
      ToCt2Sampled;
    var e := l.Epoch();
    if msg.epoch == e {
      match s
      case NoHeaderReceived(_, _, d) =>
        if msg.payload.Hdr? {
          RecvHdrKeeps(l, s, msg.payload.chunk);
        }
      case HeaderReceived(_, _, _, _) =>
      case Ct1Sampled(_, _, _, _, _, _, d) =>
        if msg.payload.Ek? || msg.payload.EkCt1Ack? {
          RecvEkSampledKeeps(l, s, msg.payload.chunk, msg.payload.EkCt1Ack?);
        }
      case EkReceivedCt1Sampled(_, _, _, _, _, _) =>
        FinishKeeps(l);
      case Ct1Acknowledged(_, _, _, _, _, d) =>
        if msg.payload.Ek? || msg.payload.EkCt1Ack? {
          RecvEkAcknowledgedKeeps(l, s, msg.payload.chunk);
        }
      case Ct2Sampled(_, _, _) =>
    }
  }

  lemma RecvEkSampledKeeps(l: Log, s: State, chunk: Chunk, ack: bool)
    requires l.Ok() && CtFits(l, s) && s.Wf() && s.Ct1Sampled? && IsChunk(chunk, l.EkMsg(l.Epoch()))
    ensures var r := RecvEkSampled(l.c, s, chunk, ack); r.Ok? && CtFits(l, r.value)
  {
    hide ChunkOf, AuthAfter, Holds, Received.Add, Received.Decoded, Sound, Stream.Encodes, StreamOf, ToCt2Sampled;
    FoldChunk(s.recvingEk, l.EkMsg(l.Epoch()), chunk.index);
    FinishKeeps(l);
  }

  lemma RecvEkAcknowledgedKeeps(l: Log, s: State, chunk: Chunk)
    requires l.Ok() && CtFits(l, s) && s.Wf() && s.Ct1Acknowledged? && IsChunk(chunk, l.EkMsg(l.Epoch()))
    ensures var r := RecvEkAcknowledged(l.c, s, chunk); r.Ok? && CtFits(l, r.value)
  {
    hide ChunkOf, AuthAfter, Holds, Received.Add, Received.Decoded, Sound, Stream.Encodes, StreamOf, ToCt2Sampled;
    FoldChunk(s.recvingEk, l.EkMsg(l.Epoch()), chunk.index);
    FinishKeeps(l);
  }

  lemma RecvHdrKeeps(l: Log, s: State, chunk: Chunk)
    requires l.Ok() && CtFits(l, s) && s.Wf() && s.NoHeaderReceived? && l.cur.Keyed?
    requires IsChunk(chunk, l.HdrMsg(l.Epoch()))
    ensures var r := RecvHdr(l.c, s, chunk); r.Ok? && CtFits(l, r.value)
  {
    hide ChunkOf, AuthAfter, Holds, Received.Add, Received.Decoded, MacHdr, Sound, Log.HdrMsg;
    FoldChunk(s.recvingHdr, l.HdrMsg(l.Epoch()), chunk.index);
    DecodedHdr(l);
  }

  lemma DecodedHdr(l: Log)
    requires l.Ok() && !l.cur.Fresh?
    ensures var e := l.Epoch();
      var msg, pk1 := l.HdrMsg(e), KeyOf(l.c, l.cur).pk1;
      Slice(msg, 0, PK1_SIZE) == pk1 && Slice(msg, PK1_SIZE, |msg|) == MacHdr(l.c, l.Before(e), e, pk1)
  {
    hide AuthAfter, MacHdr;
  }

  /** Encapsulating to the received key gives the ct2 message of the epoch. */
  lemma FinishKeeps(l: Log)
    requires l.Ok() && l.cur.Full?
    ensures var e := l.Epoch();
      && l.c.validate(KeyOf(l.c, l.cur).pk1, l.EkMsg(e))
      && ToCt2Sampled(l.c, e, l.After(e), PhaseOf(l.c, l.cur).es, l.Ct1Msg(e), l.EkMsg(e))
         == Ok(Ct2Sampled(e, l.After(e), StreamOf(l.Ct2Msg(e))))
  {
    hide AuthAfter;
  }

  lemma RecvBehindKeeps(l: Log, s: State, msg: Msg)
    requires l.Ok() && Behind(l, s) && s.Wf() && Fits(l, msg) && MsgOk(msg)
    ensures var r := Recv(l.c, s, msg);
      && r.Ok? && r.value.key.None? && (r.value.state == s || EkFits(l, r.value.state))
  {
    hide AuthAfter, Sound;
  }

  // ----- the invariant over whole runs -----

  /** A log entry that grew and two states that still fit carry everything else along. */
  lemma InvGrows(l: Log, j: Joint, l': Log, j': Joint, sent: set<Sent>, out: set<Emitted>)
    requires Inv(l, j) && l'.Ok() && Grows(l, l')
    requires StatesFit(l', j'.Of(EkParty(l'.Epoch())), j'.Of(Other(EkParty(l'.Epoch()))))
    requires j'.net == j.net + sent && j'.secrets == j.secrets + out
    requires forall s <- sent :: Fits(l', s.msg)
    requires forall es <- out :: SecretFits(l', es.es)
    requires forall s <- j'.net | s.msg.epoch == l'.Epoch() && s.msg.payload.Ct2? ::
      j'.Of(Other(EkParty(l'.Epoch()))).Ct2Sampled?
    ensures Inv(l', j')
  {
    hide Log.Ok, Fits, SecretFits, StatesFit, Grows;
    forall s <- j'.net ensures Fits(l', s.msg) {
      if s in j.net {
        FitsGrows(l, l', s.msg);
      }
    }
    forall es <- j'.secrets ensures SecretFits(l', es.es) {
      if es in j.secrets {
        SecretGrows(l, l', es.es);
      }
    }
  }

  /** What a send of one party must establish for the invariant to carry over. */
  ghost predicate SendFits(l: Log, l': Log, r: Result<SendStep>, ek: State, ct: State)
    requires l.Ok()
  {
    && l'.Ok() && Grows(l, l') && l'.Epoch() == l.Epoch() && r.Ok?
    && StatesFit(l', ek, ct) && Fits(l', r.value.msg)
    && (r.value.key.Some? ==> SecretFits(l', r.value.key.value))
    && (r.value.msg.payload.Ct2? && r.value.msg.epoch == l.Epoch() ==> ct.Ct2Sampled?)
  }

  lemma EkSends(l: Log, ek: State, ct: State, rnd: Bytes)
    requires l.Ok() && StatesFit(l, ek, ct) && ek.Wf() && GoodDraw(l.c, ek, ct, rnd)
    ensures var r := Send(l.c, ek, rnd);
      r.Ok? && SendFits(l, LogAfterSend(l, ek, rnd), r, r.value.state, ct)
  {
    hide AuthAfter, Sound, Fits, Send, OnMessage, Log.Ok;
    if EkFits(l, ek) {
      SendEkKeeps(l, ek, rnd);
      if ek.KeysUnsampled? {
        DrawKeyKeepsCt(l, ct, rnd);
      }
    } else {
      SendBehindKeeps(l, ek, rnd);
    }
  }

  lemma CtSends(l: Log, ek: State, ct: State, rnd: Bytes)
    requires l.Ok() && StatesFit(l, ek, ct) && ct.Wf() && GoodDraw(l.c, ct, ek, rnd)
    ensures var r := Send(l.c, ct, rnd);
      r.Ok? && SendFits(l, LogAfterSend(l, ct, rnd), r, ek, r.value.state)
      && (ct.Ct2Sampled? ==> r.value.state.Ct2Sampled?)
  {
    hide AuthAfter, Sound, Fits, Send, OnMessage, Log.Ok, CtFits, EkFits, Behind;
    if ct.HeaderReceived? {
      KeyedPeer(l, ek, ct);
      SendCtKeeps(l, ct, rnd);
      DrawMessageKeepsEk(l, ek, rnd);
    } else {
      CtNotEk(l, ct);
      SendCtKeeps(l, ct, rnd);
    }
  }

  lemma CtNotEk(l: Log, ct: State)
    requires l.Ok() && CtFits(l, ct)
    ensures !ct.SendsEk()
  {
  }

  lemma EkNotCt(l: Log, ek: State, ct: State)
    requires l.Ok() && StatesFit(l, ek, ct)
    ensures !ek.HeaderReceived?
  {
    hide AuthAfter, Sound;
  }

  /** While the header is known but nothing encapsulated, the peer still has its key in hand. */
  lemma KeyedPeer(l: Log, ek: State, ct: State)
    requires l.Ok() && StatesFit(l, ek, ct) && ct.HeaderReceived?
    ensures ek.KeysSampled? && EkFits(l, ek) && l.cur.Keyed? && ct.hdr == KeyOf(l.c, l.cur).pk1
    ensures ek.ek == KeyOf(l.c, l.cur).pk2 && ek.dk == KeyOf(l.c, l.cur).dk
  {
    hide AuthAfter, Sound;
  }

  lemma SendKeepsInv(l: Log, j: Joint, p: Party, rnd: Bytes, j': Joint)
    requires Inv(l, j) && SendsTo(l.c, j, p, rnd, j')
    ensures Inv(LogAfterSend(l, j.Of(p), rnd), j')
  {
    hide Fits, SecretFits, Sound, Log.Ok, Send, StatesFit, GoodDraw, LogAfterSend, Grows;
    var q := EkParty(l.Epoch());
    var r := Send(l.c, j.Of(p), rnd).value;
    if p == q {
      EkSends(l, j.Of(q), j.Of(Other(q)), rnd);
    } else {
      CtSends(l, j.Of(q), j.Of(Other(q)), rnd);
    }
    InvGrows(l, j, LogAfterSend(l, j.Of(p), rnd), j', {Sent(p, r.msg)}, Emit(p, r.key));
  }

  function LogAfterRecv(l: Log, key: Option<EpochSecret>): (l': Log) {
    if key.Some? then Advance(l) else l
  }

  /** What a receive must establish; the party that completes an exchange becomes the other role. */
  ghost predicate RecvFits(l: Log, l': Log, r: Result<RecvStep>, ek: State, ct: State)
    requires l.Ok()
  {
    && l'.Ok() && Grows(l, l') && r.Ok?
    && (if r.value.key.None? then l' == l && StatesFit(l, ek, ct)
        else l'.Epoch() == l.Epoch() + 1 && StatesFit(l', ct, ek) && SecretFits(l', r.value.key.value))
  }

  lemma EkReceives(l: Log, ek: State, ct: State, msg: Msg)
    requires l.Ok() && StatesFit(l, ek, ct) && ek.Wf() && Fits(l, msg) && MsgOk(msg)
    requires msg.epoch == l.Epoch() && msg.payload.Ct2? ==> ct.Ct2Sampled?
    ensures var r := Recv(l.c, ek, msg);
      r.Ok? && RecvFits(l, LogAfterRecv(l, r.value.key), r, r.value.state, ct)
  {
    hide AuthAfter, Sound, Fits, Recv, CtFits, EkFits, Log.Ok;
    if EkFits(l, ek) {
      RecvEkKeeps(l, ek, msg);
      if Recv(l.c, ek, msg).value.key.Some? {
        CompletedIsBehind(l, ct);
        AdvanceOk(l);
      }
    } else {
      RecvBehindKeeps(l, ek, msg);
    }
  }

  lemma CtReceives(l: Log, ek: State, ct: State, msg: Msg)
    requires l.Ok() && StatesFit(l, ek, ct) && ct.Wf() && Fits(l, msg) && MsgOk(msg)
    ensures var r := Recv(l.c, ct, msg);
      && r.Ok? && r.value.key.None? && RecvFits(l, l, r, ek, r.value.state)
      && (ct.Ct2Sampled? ==> r.value.state.Ct2Sampled?)
  {
    hide AuthAfter, Sound, Fits, Recv, CtFits, EkFits, Log.Ok;
    RecvCtKeeps(l, ct, msg);
  }

  lemma DeliverKeepsInv(l: Log, j: Joint, p: Party, msg: Msg, j': Joint)
    requires Inv(l, j) && Delivers(l.c, j, p, msg, j')
    ensures Recv(l.c, j.Of(p), msg).Ok?
    ensures Inv(LogAfterRecv(l, Recv(l.c, j.Of(p), msg).value.key), j')
  {
    hide Fits, SecretFits, Sound, Log.Ok, Recv, StatesFit, Grows, Advance;
    var q := EkParty(l.Epoch());
    assert Fits(l, msg) by { assert Sent(Other(p), msg) in j.net; }
    if p == q {
      EkReceives(l, j.Of(q), j.Of(Other(q)), msg);
    } else {
      CtReceives(l, j.Of(q), j.Of(Other(q)), msg);
    }
    var r := Recv(l.c, j.Of(p), msg).value;
    var l' := LogAfterRecv(l, r.key);
    forall s <- j'.net | s.msg.epoch == l'.Epoch() && s.msg.payload.Ct2?
      ensures j'.Of(Other(EkParty(l'.Epoch()))).Ct2Sampled?
    {
      FitsEpoch(l, s.msg);
    }
    InvGrows(l, j, l', j', {}, Emit(p, r.key));
  }

  lemma FitsEpoch(l: Log, msg: Msg)
    requires l.Ok() && Fits(l, msg)
    ensures msg.epoch <= l.Epoch()
  {
  }

  lemma InitialInv(c: Crypto, authKey: Bytes)
    requires Sized(c)
    ensures Inv(Log(c, authKey, [], Fresh), Initial(c, authKey))
  {
    var l := Log(c, authKey, [], Fresh);
    assert l.done[..0] == [];
  }

  lemma StepKeepsInv(l: Log, j: Joint, j': Joint) returns (l': Log)
    requires Inv(l, j) && Step(l.c, j, j')
    ensures Inv(l', j') && l'.c == l.c && l'.authKey == l.authKey
  {
    hide Inv, SendsTo, Recv, Send;
    if p, rnd :| SendsTo(l.c, j, p, rnd, j') {
      SendKeepsInv(l, j, p, rnd, j');
      l' := LogAfterSend(l, j.Of(p), rnd);
    } else {
      var p, msg :| Delivers(l.c, j, p, msg, j');
      DeliverKeepsInv(l, j, p, msg, j');
      l' := LogAfterRecv(l, Recv(l.c, j.Of(p), msg).value.key);
    }
  }

  /** The invariant holds at every point of every run. */
  lemma {:induction false} RunInv(c: Crypto, authKey: Bytes, js: seq<Joint>, n: nat) returns (l: Log)
    requires Sized(c) && Run(c, authKey, js) && n < |js|
    ensures Inv(l, js[n]) && l.c == c && l.authKey == authKey
    decreases n
  {
    hide Inv, Step;
    if n == 0 {
      InitialInv(c, authKey);
      l := Log(c, authKey, [], Fresh);
    } else {
      l := RunInv(c, authKey, js, n - 1);
      assert Step(c, js[n - 1], js[n - 1 + 1]);
      l := StepKeepsInv(l, js[n - 1], js[n]);
    }
  }

  /** Epochs differ by at most one; equal epochs have opposite roles; a leader waits for a header. */
  predicate InStep(a: State, b: State) {
    && -1 <= a.epoch - b.epoch <= 1
    && (a.epoch == b.epoch ==> a.SendsEk() != b.SendsEk())
    && (a.epoch == b.epoch + 1 ==> a.NoHeaderReceived? && b.Ct2Sampled?)
    && (b.epoch == a.epoch + 1 ==> b.NoHeaderReceived? && a.Ct2Sampled?)
  }

  lemma InvInStep(l: Log, ek: State, ct: State)
    requires l.Ok() && StatesFit(l, ek, ct)
    ensures InStep(ek, ct) && InStep(ct, ek) && ek.Wf() && ct.Wf()
  {
    StatesAreWf(l, ek);
    StatesAreWf(l, ct);
    hide AuthAfter, Sound, OnMessage, State.Wf, Stream.Encodes;
  }

  /**
   At every point of every run: the machines are in step, neither refuses any message the
   other ever sent, and neither fails to send whatever good value it draws.
   */
  lemma RunsStayInStep(c: Crypto, authKey: Bytes, js: seq<Joint>, n: nat, p: Party)
    requires Sized(c) && Run(c, authKey, js) && n < |js|
    ensures var j := js[n];
      && InStep(j.alice, j.bob) && j.Of(p).Wf()
      && (forall msg | Sent(Other(p), msg) in j.net :: MsgOk(msg) && Recv(c, j.Of(p), msg).Ok?)
      && (forall rnd | GoodDraw(c, j.Of(p), j.Of(Other(p)), rnd) :: Send(c, j.Of(p), rnd).Ok?)
  {
    var j := js[n];
    var l := RunInv(c, authKey, js, n);
    hide Run, Log.Ok, StatesFit, InStep, State.Wf, Recv, Send, Fits;
    var q := EkParty(l.Epoch());
    InvInStep(l, j.Of(q), j.Of(Other(q)));
    forall msg | Sent(Other(p), msg) in j.net ensures MsgOk(msg) && Recv(c, j.Of(p), msg).Ok? {
      var r := Sent(Other(p), msg);
      FitsIsOk(l, r.msg);
      if p == q {
        EkReceives(l, j.Of(q), j.Of(Other(q)), msg);
      } else {
        CtReceives(l, j.Of(q), j.Of(Other(q)), msg);
      }
    }
    forall rnd | GoodDraw(c, j.Of(p), j.Of(Other(p)), rnd) ensures Send(c, j.Of(p), rnd).Ok? {
      if p == q {
        EkSends(l, j.Of(q), j.Of(Other(q)), rnd);
      } else {
        CtSends(l, j.Of(q), j.Of(Other(q)), rnd);
      }
    }
  }

  /** Whoever produces the secret of an epoch, and however often, it is the same secret. */
  lemma SecretsAgree(c: Crypto, authKey: Bytes, js: seq<Joint>, n: nat, x: Emitted, y: Emitted)
    requires Sized(c) && Run(c, authKey, js) && n < |js|
    requires x in js[n].secrets && y in js[n].secrets && x.es.epoch == y.es.epoch
    ensures x.es == y.es
  {
    var l := RunInv(c, authKey, js, n);
    hide Run, Log.Ok, StatesFit;
    assert SecretFits(l, x.es) && SecretFits(l, y.es);
  }
}
