/**
 No reachable pair of machines is stuck: from every point of every run, some schedule of
 sends and deliveries takes both parties to any later epoch.
 */
module V1Liveness {
  import opened Words
  import opened Parties
  import opened Lagrange
  import opened Chunked
  import opened Streams
  import opened Primitives
  import opened Authenticator
  import opened V1Machine
  import opened V1Joint
  import opened V1Safety

  // ----- a decoder fed consecutive chunks fills up -----

  /** The chunk index `k` places before `idx`, cyclically. */
  function IndexBefore(idx: ChunkIndex, k: nat): (i: ChunkIndex)
    requires k <= INDICES
  {
    (idx + INDICES - k) % INDICES
  }

  /** An unfinished polynomial holds the last `n` indices before `idx`. */
  ghost predicate RowFilled(pts: seq<Pt>, need: nat, idx: ChunkIndex, n: nat)
    requires n <= INDICES
  {
    |pts| < need ==> forall k | 1 <= k <= n :: IndexBefore(idx, k) in Indices(pts)
  }

  ghost predicate Filled(d: Received, idx: ChunkIndex, n: nat)
    requires d.Ok() && n <= INDICES
  {
    forall p | 0 <= p < NUM_POLYS :: RowFilled(d.pts[p], Necessary(d.needed, p), idx, n)
  }

  /** An unfinished polynomial takes in every index it is offered and keeps what it had. */
  lemma OfferFills(d: Received, c: Chunk, p: nat)
    requires d.Ok() && WellFormed(c) && p < NUM_POLYS
    ensures var e := d.Offer(p, c).pts[p];
      && |e| >= |d.pts[p]| && Indices(d.pts[p]) <= Indices(e)
      && (|d.pts[p]| < Necessary(d.needed, p) ==> c.index in Indices(e))
  {
    hide Elem, Value, Join, Necessary;
    ValueOfElem(c.index);
    var pts, e := d.pts[p], d.Offer(p, c).pts[p];
    var pt := Pt(Elem(c.index), Join(c.data[2 * p], c.data[2 * p + 1]));
    if e == pts {
      if k :| 0 <= k < |pts| && pts[k].x == pt.x {
        assert Value(pts[k].x) in Indices(pts);
      }
    } else {
      assert e == pts + [pt];
      assert forall k | 0 <= k < |pts| :: e[k] == pts[k];
      assert e[|pts|] == pt;
      assert Indices(e) == Indices(pts) + {c.index};
    }
  }

  lemma FilledNext(d: Received, c: Chunk, n: nat)
    requires d.Ok() && WellFormed(c) && n < INDICES && Filled(d, c.index, n)
    ensures Filled(d.Add(c), (c.index + 1) % INDICES, n + 1)
  {
    hide Received.Offer, Received.AddTo, Indices, Necessary;
    var e, next := d.Add(c), (c.index + 1) % INDICES;
    forall p | 0 <= p < NUM_POLYS ensures RowFilled(e.pts[p], Necessary(e.needed, p), next, n + 1) {
      AddToAt(d, c, NUM_POLYS, p);
      OfferFills(d, c, p);
      if |e.pts[p]| < Necessary(e.needed, p) {
        forall k | 1 <= k <= n + 1 ensures IndexBefore(next, k) in Indices(e.pts[p]) {
          assert IndexBefore(next, k) == if k == 1 then c.index else IndexBefore(c.index, k - 1);
        }
      }
    }
  }

  ghost function Window(idx: ChunkIndex, n: nat): (w: set<nat>)
    requires n <= INDICES
  {
    set k | 1 <= k <= n :: IndexBefore(idx, k)
  }

  lemma {:induction false} WindowSize(idx: ChunkIndex, n: nat)
    requires n <= INDICES
    ensures |Window(idx, n)| == n
  {
    if n > 0 {
      WindowSize(idx, n - 1);
      assert IndexBefore(idx, n) !in Window(idx, n - 1);
      assert Window(idx, n) == Window(idx, n - 1) + {IndexBefore(idx, n)};
    }
  }

  /** As many consecutive chunks as the longest polynomial has values are enough. */
  lemma FilledIsEnough(d: Received, msg: Bytes, idx: ChunkIndex, n: nat)
    requires Holds(d, msg) && n <= INDICES && Filled(d, idx, n) && n >= Necessary(|msg| / 2, 0)
    ensures d.Decoded() == Some(msg)
  {
    hide Received.Decoded, PointOf, Value, Elem;
    forall p | 0 <= p < NUM_POLYS ensures |d.pts[p]| >= Necessary(d.needed, p) {
      if |d.pts[p]| < Necessary(d.needed, p) {
        WindowSize(idx, n);
        IndicesSize(d.pts[p]);
        assert RowFilled(d.pts[p], Necessary(d.needed, p), idx, n);
        assert Window(idx, n) <= Indices(d.pts[p]);
        SubsetSize(Window(idx, n), Indices(d.pts[p]));
        assert false;
      }
    }
    EnoughIsMessage(d, msg);
  }

  // ----- acknowledgements -----

  /** The key sender has the whole of ct1. */
  predicate HasCt1(s: State) {
    s.Ct1Received? || s.EkSentCt1Received?
  }

  predicate IsAck(p: Payload) {
    p.EkCt1Ack? || p.Ct1Ack?
  }

  /** Whoever stopped sending ct1 was told that it arrived, and ct2 only answers a full ct1. */
  predicate Acked(ek: State, ct: State) {
    && (ct.Ct1Acknowledged? || ct.Ct2Sampled? ==> HasCt1(ek))
    && (ek.EkSentCt1Received? ==> ct.Ct2Sampled?)
  }

  ghost predicate Told(l: Log, j: Joint) {
    var p := EkParty(l.Epoch());
    && Acked(j.Of(p), j.Of(Other(p)))
    && forall s <- j.net | s.msg.epoch == l.Epoch() && IsAck(s.msg.payload) :: HasCt1(j.Of(p))
  }

  lemma SendTags(c: Crypto, s: State, rnd: Bytes)
    requires s.Wf() && Send(c, s, rnd).Ok?
    ensures var r := Send(c, s, rnd).value;
      && (IsAck(r.msg.payload) <==> HasCt1(s)) && (HasCt1(r.state) <==> HasCt1(s))
      && (r.state.EkSentCt1Received? <==> s.EkSentCt1Received?)
      && (r.state.Ct2Sampled? <==> s.Ct2Sampled?) && (r.state.Ct1Acknowledged? <==> s.Ct1Acknowledged?)
      && r.msg.epoch == s.epoch
  {
    hide ChunkOf, MacHdr, Update;
  }

  lemma RecvTags(c: Crypto, s: State, msg: Msg)
    requires s.Wf() && MsgOk(msg) && Recv(c, s, msg).Ok?
    ensures var t := Recv(c, s, msg).value.state;
      && (HasCt1(s) ==> HasCt1(t) || t.NoHeaderReceived?)
      && (t.EkSentCt1Received? && !s.EkSentCt1Received? ==> msg.epoch == s.epoch && msg.payload.Ct2?)
      && ((t.Ct1Acknowledged? || t.Ct2Sampled?) && !s.Ct1Acknowledged? && !s.Ct2Sampled?
          ==> msg.epoch == s.epoch && IsAck(msg.payload))
      && (s.Ct2Sampled? ==> t.Ct2Sampled? || t.KeysUnsampled?)
      && (s.Ct1Acknowledged? ==> t.Ct1Acknowledged? || t.Ct2Sampled?)
  {
    hide ChunkOf, MacHdr, Update, Received.Add, Received.Decoded;
  }

  lemma InitialTold(c: Crypto, authKey: Bytes)
    ensures Told(Log(c, authKey, [], Fresh), Initial(c, authKey))
  {
  }

  lemma SendKeepsTold(l: Log, j: Joint, p: Party, rnd: Bytes, j': Joint)
    requires Inv(l, j) && Told(l, j) && SendsTo(l.c, j, p, rnd, j')
    ensures Told(LogAfterSend(l, j.Of(p), rnd), j')
  {
    hide Send, Log.Ok, Fits, StatesFit, GoodDraw, SecretFits;
    var q := EkParty(l.Epoch());
    SendTags(l.c, j.Of(p), rnd);
    RolesApart(l, j.Of(q), j.Of(Other(q)));
  }

  /** The ciphertext sender is never in a state of the key sender, nor one epoch behind. */
  lemma RolesApart(l: Log, ek: State, ct: State)
    requires l.Ok() && StatesFit(l, ek, ct)
    ensures !ct.SendsEk() && ct.epoch == l.Epoch()
    ensures ek.SendsEk() || ek.Ct2Sampled?
    ensures ek.SendsEk() ==> ek.epoch == l.Epoch()
    ensures ek.Ct2Sampled? ==> ct.NoHeaderReceived? && ek.epoch == l.Epoch() - 1
  {
    hide AuthAfter, Sound, OnMessage;
  }

  lemma DeliverKeepsTold(l: Log, j: Joint, p: Party, msg: Msg, j': Joint)
    requires Inv(l, j) && Told(l, j) && Delivers(l.c, j, p, msg, j') && Recv(l.c, j.Of(p), msg).Ok?
    requires Inv(LogAfterRecv(l, Recv(l.c, j.Of(p), msg).value.key), j')
    ensures Told(LogAfterRecv(l, Recv(l.c, j.Of(p), msg).value.key), j')
  {
    hide Recv, Log.Ok, Fits, StatesFit, SecretFits;
    var q := EkParty(l.Epoch());
    var r := Recv(l.c, j.Of(p), msg).value;
    var l' := LogAfterRecv(l, r.key);
    var q' := EkParty(l'.Epoch());
    RecvTags(l.c, j.Of(p), msg);
    RolesApart(l, j.Of(q), j.Of(Other(q)));
    RolesApart(l', j'.Of(q'), j'.Of(Other(q')));
    forall s <- j'.net | s.msg.epoch == l'.Epoch() && IsAck(s.msg.payload) ensures HasCt1(j'.Of(q')) {
      assert s in j.net;
      FitsEpoch(l, s.msg);
    }
    assert Sent(Other(p), msg) in j.net;
  }

  lemma {:induction false} RunTold(c: Crypto, authKey: Bytes, js: seq<Joint>, n: nat) returns (l: Log)
    requires Sized(c) && Run(c, authKey, js) && n < |js|
    ensures Inv(l, js[n]) && Told(l, js[n]) && l.c == c && l.authKey == authKey
    decreases n
  {
    hide Inv, Told, SendsTo, Send, Recv;
    if n == 0 {
      InitialInv(c, authKey);
      InitialTold(c, authKey);
      l := Log(c, authKey, [], Fresh);
    } else {
      l := RunTold(c, authKey, js, n - 1);
      var j, j' := js[n - 1], js[n];
      assert Step(c, js[n - 1], js[n - 1 + 1]);
      if p, rnd :| SendsTo(c, j, p, rnd, j') {
        SendKeepsInv(l, j, p, rnd, j');
        SendKeepsTold(l, j, p, rnd, j');
        l := LogAfterSend(l, j.Of(p), rnd);
      } else {
        var p, msg :| Delivers(c, j, p, msg, j');
        DeliverKeepsInv(l, j, p, msg, j');
        DeliverKeepsTold(l, j, p, msg, j');
        l := LogAfterRecv(l, Recv(c, j.Of(p), msg).value.key);
      }
    }
  }

  // ----- one send delivered at once -----

  /** Some seed gives a valid key, and every valid key has a message it decapsulates. */
  ghost predicate CanDraw(c: Crypto) {
    && (exists seed :: ValidKey(c, seed))
    && (forall seed | ValidKey(c, seed) :: exists m :: Agrees(c, seed, m))
  }

  predicate ValidKey(c: Crypto, seed: Bytes) {
    c.validate(c.keygen(seed).pk1, c.keygen(seed).pk2)
  }

  predicate Agrees(c: Crypto, seed: Bytes, m: Bytes) {
    KemAgrees(c, c.keygen(seed).pk1, c.keygen(seed).pk2, c.keygen(seed).dk, m)
  }

  lemma ChooseDraw(l: Log, j: Joint, p: Party) returns (rnd: Bytes)
    requires Inv(l, j) && CanDraw(l.c)
    ensures GoodDraw(l.c, j.Of(p), j.Of(Other(p)), rnd)
  {
    var q := EkParty(l.Epoch());
    var ek, ct := j.Of(q), j.Of(Other(q));
    RolesApart(l, ek, ct);
    hide StatesFit, Log.Ok, Fits, SecretFits, KemAgrees;
    if p == q && ek.KeysUnsampled? {
      rnd :| ValidKey(l.c, rnd);
    } else if p != q && ct.HeaderReceived? {
      KeyedPeer(l, ek, ct);
      CurIsValid(l);
      rnd :| Agrees(l.c, l.cur.seed, rnd);
    } else {
      rnd := [];
    }
  }

  lemma CurIsValid(l: Log)
    requires l.Ok() && !l.cur.Fresh?
    ensures ValidKey(l.c, l.cur.seed)
  {
  }

  /** `p` sends and its peer receives that very message. */
  ghost predicate Round(c: Crypto, j: Joint, p: Party, rnd: Bytes, j1: Joint, j2: Joint) {
    && SendsTo(c, j, p, rnd, j1)
    && var msg := Send(c, j.Of(p), rnd).value.msg;
       Delivers(c, j1, Other(p), msg, j2) && Recv(c, j.Of(Other(p)), msg).Ok?
  }

  lemma MakeRound(l: Log, j: Joint, p: Party, rnd: Bytes) returns (j1: Joint, j2: Joint, l2: Log)
    requires Inv(l, j) && Told(l, j) && GoodDraw(l.c, j.Of(p), j.Of(Other(p)), rnd)
    ensures Round(l.c, j, p, rnd, j1, j2)
    ensures Inv(l2, j2) && Told(l2, j2)
    ensures var r := Send(l.c, j.Of(p), rnd).value;
      var t := Recv(l.c, j.Of(Other(p)), r.msg).value;
      && j2.Of(p) == r.state && j2.Of(Other(p)) == t.state
      && l2 == LogAfterRecv(LogAfterSend(l, j.Of(p), rnd), t.key)
  {
    var q := EkParty(l.Epoch());
    InvInStep(l, j.Of(q), j.Of(Other(q)));
    SendSucceeds(l, j, p, rnd);
    var r := Send(l.c, j.Of(p), rnd).value;
    j1 := j.With(p, r.state).(net := j.net + {Sent(p, r.msg)}, secrets := j.secrets + Emit(p, r.key));
    hide Inv, Told, Send, Recv, State.Wf, GoodDraw;
    SendKeepsInv(l, j, p, rnd, j1);
    SendKeepsTold(l, j, p, rnd, j1);
    var l1 := LogAfterSend(l, j.Of(p), rnd);
    InvMsgOk(l1, j1, Sent(p, r.msg));
    assert Other(Other(p)) == p;
    var d := Recv(l.c, j1.Of(Other(p)), r.msg);
    j2 := if d.Ok? then j1.With(Other(p), d.value.state).(secrets := j1.secrets + Emit(Other(p), d.value.key)) else j1;
    assert Delivers(l1.c, j1, Other(p), r.msg, j2);
    DeliverKeepsInv(l1, j1, Other(p), r.msg, j2);
    DeliverKeepsTold(l1, j1, Other(p), r.msg, j2);
    l2 := LogAfterRecv(l1, d.value.key);
  }

  lemma SendSucceeds(l: Log, j: Joint, p: Party, rnd: Bytes)
    requires Inv(l, j) && j.Of(p).Wf() && GoodDraw(l.c, j.Of(p), j.Of(Other(p)), rnd)
    ensures Send(l.c, j.Of(p), rnd).Ok?
  {
    hide Send, GoodDraw, StatesFit, Log.Ok, Fits, SecretFits, State.Wf;
    var q := EkParty(l.Epoch());
    if p == q {
      EkSends(l, j.Of(q), j.Of(Other(q)), rnd);
    } else {
      CtSends(l, j.Of(q), j.Of(Other(q)), rnd);
    }
  }

  lemma InvMsgOk(l: Log, j: Joint, s: Sent)
    requires Inv(l, j) && s in j.net
    ensures MsgOk(s.msg)
  {
    hide StatesFit, Log.Ok, Fits, SecretFits;
    FitsIsOk(l, s.msg);
  }

  // ----- every round makes progress -----

  /** How far the exchange is from its end, by the two state tags. */
  function Rank(ek: State, ct: State): (r: nat) {
    if ek.Ct2Sampled? then 9
    else if ek.KeysUnsampled? then 8
    else if ek.KeysSampled? then (if ct.NoHeaderReceived? then 7 else if ct.HeaderReceived? then 6 else 5)
    else if ek.HeaderSent? then 4
    else if ek.Ct1Received? then (if ct.Ct2Sampled? then 1 else if ct.Ct1Acknowledged? then 2 else 3)
    else 0
  }

  /** Whether it is the key sender's chunk that brings the exchange forward. */
  predicate EksTurn(ek: State, ct: State) {
    Rank(ek, ct) in {2, 3, 7, 8}
  }

  /** No message of the protocol needs more chunks than this. */
  const MOST_CHUNKS := 36

  /** The decoder that is waiting holds the last `n` chunks its peer has sent. */
  ghost predicate Filling(ek: State, ct: State, n: nat)
    requires ek.Wf() && ct.Wf()
  {
    && n < MOST_CHUNKS
    && match (ek, ct)
       case (KeysSampled(_, _, _, _, enc), NoHeaderReceived(_, _, d)) => Filled(d, enc.idx, n)
       case (HeaderSent(_, _, _, _, _, d), Ct1Sampled(_, _, _, _, _, enc, _)) => Filled(d, enc.idx, n)
       case (HeaderSent(_, _, _, _, _, d), EkReceivedCt1Sampled(_, _, _, _, _, enc)) => Filled(d, enc.idx, n)
       case (Ct1Received(_, _, _, _, _, enc), Ct1Acknowledged(_, _, _, _, _, d)) => Filled(d, enc.idx, n)
       case (EkSentCt1Received(_, _, _, _, d), Ct2Sampled(_, _, enc)) => Filled(d, enc.idx, n)
       case _ => n == 0
  }

  /** A lower rank, or the same rank with one chunk more. */
  ghost predicate Closer(ek: State, ct: State, n: nat, ek': State, ct': State, n': nat)
  {
    && ek'.Wf() && ct'.Wf() && Filling(ek', ct', n')
    && (Rank(ek', ct') < Rank(ek, ct) || (Rank(ek', ct') == Rank(ek, ct) && n' == n + 1))
  }

  lemma FillingNothing(ek: State, ct: State)
    requires ek.Wf() && ct.Wf()
    ensures Filling(ek, ct, 0)
  {
  }

  /** One more consecutive chunk either completes the decoder or is one more towards it. */
  lemma ChunkFills(d: Received, msg: Bytes, idx: ChunkIndex, n: nat)
    requires Holds(d, msg) && n < MOST_CHUNKS && Filled(d, idx, n) && |msg| <= 32 * MOST_CHUNKS
    ensures var e := d.Add(ChunkOf(msg, idx));
      && Holds(e, msg) && Filled(e, (idx + 1) % INDICES, n + 1)
      && (e.Decoded() == Some(msg) || (e.Decoded() == None && n + 1 < MOST_CHUNKS))
  {
    hide OnMessage, Filled, Received.Add, Received.Decoded, ChunkOf;
    ChunkIndexIs(msg, idx);
    FilledNext(d, ChunkOf(msg, idx), n);
    FoldChunk(d, msg, idx);
    if n + 1 >= Necessary(|msg| / 2, 0) {
      FilledIsEnough(d.Add(ChunkOf(msg, idx)), msg, (idx + 1) % INDICES, n + 1);
    }
  }

  lemma EkRoundCloser(l: Log, ek: State, ct: State, n: nat, rnd: Bytes) returns (n': nat)
    requires l.Ok() && StatesFit(l, ek, ct) && Acked(ek, ct) && ek.Wf() && ct.Wf()
    requires Filling(ek, ct, n) && EksTurn(ek, ct)
    requires var r := Send(l.c, ek, rnd); r.Ok? && MsgOk(r.value.msg) && Recv(l.c, ct, r.value.msg).Ok?
    ensures var r := Send(l.c, ek, rnd).value;
      var t := Recv(l.c, ct, r.msg).value;
      t.key.None? && Closer(ek, ct, n, r.state, t.state, n')
  {
    hide ChunkOf, Filled, OnMessage, AuthAfter, Sound, MacHdr, MacCt, Update, Received.Add, Received.Decoded,
      Stream.Chunk, Stream.Next, Stream.Encodes, StreamOf;
    var e := l.Epoch();
    var r := Send(l.c, ek, rnd).value;
    var t := Recv(l.c, ct, r.msg).value.state;
    if Rank(ek, ct) == 7 {
      NextIs(ek.sendingHdr, l.HdrMsg(e));
      ChunkFills(ct.recvingHdr, l.HdrMsg(e), ek.sendingHdr.idx, n);
    } else if Rank(ek, ct) == 2 {
      NextIs(ek.sendingEk, l.EkMsg(e));
      ChunkFills(ct.recvingEk, l.EkMsg(e), ek.sendingEk.idx, n);
    }
    n' := if Rank(r.state, t) == Rank(ek, ct) then n + 1 else 0;
    FillingNothing(r.state, t);
  }

  lemma CtRoundCloser(l: Log, ek: State, ct: State, n: nat, rnd: Bytes) returns (n': nat)
    requires l.Ok() && StatesFit(l, ek, ct) && Acked(ek, ct) && ek.Wf() && ct.Wf()
    requires Filling(ek, ct, n) && !EksTurn(ek, ct)
    requires var r := Send(l.c, ct, rnd); r.Ok? && MsgOk(r.value.msg) && Recv(l.c, ek, r.value.msg).Ok?
    ensures var r := Send(l.c, ct, rnd).value;
      var t := Recv(l.c, ek, r.msg).value;
      (ek.Ct2Sampled? ==> t.key.None?) && (t.key.None? ==> Closer(ek, ct, n, t.state, r.state, n'))
  {
    hide ChunkOf, Filled, OnMessage, AuthAfter, Sound, MacHdr, MacCt, Update, Received.Add, Received.Decoded,
      Stream.Chunk, Stream.Next, Stream.Encodes, StreamOf;
    var e := l.Epoch();
    var r := Send(l.c, ct, rnd).value;
    var t := Recv(l.c, ek, r.msg).value.state;
    if Rank(ek, ct) == 4 {
      NextIs(ct.sendingCt1, l.Ct1Msg(e));
      ChunkFills(ek.recvingCt1, l.Ct1Msg(e), ct.sendingCt1.idx, n);
    } else if Rank(ek, ct) == 0 {
      NextIs(ct.sendingCt2, l.Ct2Msg(e));
      ChunkFills(ek.recvingCt2, l.Ct2Msg(e), ct.sendingCt2.idx, n);
    }
    n' := if Rank(t, r.state) == Rank(ek, ct) then n + 1 else 0;
    FillingNothing(t, r.state);
  }

  /** A schedule from `j`: consecutive joint states, each one step after the last. */
  ghost predicate Schedule(c: Crypto, j: Joint, js: seq<Joint>) {
    && js != [] && js[0] == j
    && forall i | 0 <= i < |js| - 1 :: Step(c, js[i], js[i + 1])
  }

  lemma RoundIsSchedule(c: Crypto, j: Joint, p: Party, rnd: Bytes, j1: Joint, j2: Joint)
    requires Round(c, j, p, rnd, j1, j2)
    ensures Step(c, j, j1) && Step(c, j1, j2)
  {
    hide Delivers, Send, Recv;
    var msg := Send(c, j.Of(p), rnd).value.msg;
    assert Delivers(c, j1, Other(p), msg, j2);
  }

  /** One round of the party whose turn it is: closer to the end of the epoch, or past it. */
  lemma NextRound(l: Log, j: Joint, n: nat) returns (l2: Log, j1: Joint, j2: Joint, n2: nat)
    requires Inv(l, j) && Told(l, j) && CanDraw(l.c)
    requires var q := EkParty(l.Epoch()); j.Of(q).Wf() && j.Of(Other(q)).Wf() && Filling(j.Of(q), j.Of(Other(q)), n)
    ensures Step(l.c, j, j1) && Step(l.c, j1, j2)
    ensures Inv(l2, j2) && Told(l2, j2) && l2.c == l.c
    ensures var q := EkParty(l2.Epoch());
      j2.Of(q).Wf() && j2.Of(Other(q)).Wf() && Filling(j2.Of(q), j2.Of(Other(q)), n2)
    ensures (l2.Epoch() == l.Epoch() + 1 && !j.Of(EkParty(l.Epoch())).Ct2Sampled?)
      || (&& l2.Epoch() == l.Epoch()
          && var q := EkParty(l.Epoch());
             Closer(j.Of(q), j.Of(Other(q)), n, j2.Of(q), j2.Of(Other(q)), n2))
  {
    hide Send, Recv, Log.Ok, StatesFit, Fits, SecretFits, GoodDraw, CanDraw, Filling, State.Wf, Round, Closer, Told;
    var q := EkParty(l.Epoch());
    var ek, ct := j.Of(q), j.Of(Other(q));
    assert Acked(ek, ct) by { ToldIsAcked(l, j); }
    var p := if EksTurn(ek, ct) then q else Other(q);
    assert Other(Other(q)) == q;
    var rnd := ChooseDraw(l, j, p);
    j1, j2, l2 := MakeRound(l, j, p, rnd);
    RoundIsSchedule(l.c, j, p, rnd, j1, j2);
    RoundWf(l.c, j, p, rnd, j1, j2);
    if p == q {
      n2 := EkRoundCloser(l, ek, ct, n, rnd);
    } else {
      n2 := CtRoundCloser(l, ek, ct, n, rnd);
    }
    if l2.Epoch() != l.Epoch() {
      n2 := 0;
      InvInStep(l2, j2.Of(Other(q)), j2.Of(q));
      FillingNothing(j2.Of(Other(q)), j2.Of(q));
    } else {
      assert Closer(ek, ct, n, j2.Of(q), j2.Of(Other(q)), n2);
      CloserWf(ek, ct, n, j2.Of(q), j2.Of(Other(q)), n2);
    }
  }

  lemma CloserWf(ek: State, ct: State, n: nat, ek': State, ct': State, n': nat)
    requires Closer(ek, ct, n, ek', ct', n')
    ensures ek'.Wf() && ct'.Wf() && Filling(ek', ct', n')
  {
  }

  lemma ToldIsAcked(l: Log, j: Joint)
    requires Told(l, j)
    ensures Acked(j.Of(EkParty(l.Epoch())), j.Of(Other(EkParty(l.Epoch()))))
  {
  }

  lemma RoundWf(c: Crypto, j: Joint, p: Party, rnd: Bytes, j1: Joint, j2: Joint)
    requires Round(c, j, p, rnd, j1, j2)
    ensures j.Of(p).Wf() && j.Of(Other(p)).Wf() && Send(c, j.Of(p), rnd).Ok?
    ensures var m := Send(c, j.Of(p), rnd).value.msg; MsgOk(m) && Recv(c, j.Of(Other(p)), m).Ok?
  {
    hide Send, Recv, GoodDraw, State.Wf;
  }

  lemma {:induction false} Reach(l: Log, j: Joint, n: nat, target: nat) returns (js: seq<Joint>)
    requires Inv(l, j) && Told(l, j) && CanDraw(l.c) && l.Epoch() <= target
    requires var q := EkParty(l.Epoch()); j.Of(q).Wf() && j.Of(Other(q)).Wf() && Filling(j.Of(q), j.Of(Other(q)), n)
    ensures Schedule(l.c, j, js)
    ensures js[|js| - 1].alice.epoch == target == js[|js| - 1].bob.epoch
    decreases target - l.Epoch(), Rank(j.Of(EkParty(l.Epoch())), j.Of(Other(EkParty(l.Epoch())))), MOST_CHUNKS - n
  {
    hide Send, Recv, Log.Ok, StatesFit, Fits, SecretFits, GoodDraw, CanDraw, State.Wf, Told, Step;
    var q := EkParty(l.Epoch());
    RolesApart(l, j.Of(q), j.Of(Other(q)));
    if l.Epoch() == target && !j.Of(q).Ct2Sampled? {
      js := [j];
    } else {
      var l2, j1, j2, n2 := NextRound(l, j, n);
      var rest := Reach(l2, j2, n2, target);
      js := [j, j1] + rest;
    }
  }

  /**
   From every point of every run, and for every epoch not yet passed, some schedule of
   sends and deliveries takes both machines to that epoch.
   */
  lemma NeverStuck(c: Crypto, authKey: Bytes, js: seq<Joint>, target: nat) returns (ks: seq<Joint>)
    requires Sized(c) && CanDraw(c) && Run(c, authKey, js)
    requires var j := js[|js| - 1]; j.alice.epoch <= target && j.bob.epoch <= target
    ensures js <= ks && Run(c, authKey, ks)
    ensures var k := ks[|ks| - 1]; k.alice.epoch == target == k.bob.epoch
  {
    var m := |js| - 1;
    var l := RunTold(c, authKey, js, m);
    var j, q := js[m], EkParty(l.Epoch());
    RolesApart(l, j.Of(q), j.Of(Other(q)));
    InvInStep(l, j.Of(q), j.Of(Other(q)));
    FillingNothing(j.Of(q), j.Of(Other(q)));
    hide Step, Inv, Told, CanDraw, State.Wf, Filling, StatesFit;
    var rest := Reach(l, j, 0, target);
    ks := js[..m] + rest;
    assert js[..m] + [j] == js;
    forall i | 0 <= i < |ks| - 1 ensures Step(c, ks[i], ks[i + 1]) {
      if i < m {
        assert Step(c, js[i], js[i + 1]);
      } else {
        assert Step(c, rest[i - m], rest[i - m + 1]);
      }
    }
  }
}
