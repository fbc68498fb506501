/** Key agreement over every run of two ratchets on a lossy network. */
module AgreementRuns {
  import opened Words
  import opened Parties
  import opened Primitives
  import V1 = V1Machine
  import VC = V1Codec
  import Streams
  import TransportCodec
  import KC = KeyChain
  import opened KeyStream
  import opened V1Joint
  import opened V1Safety
  import opened WireMessage
  import R = Ratchet
  import opened RatchetRuns
  import opened Agreement

  /** A message on the wire and the key its send returned. */
  datatype Packet = Packet(from: Party, wire: Bytes, key: Option<Bytes>)

  datatype Pair = Pair(alice: R.State, bob: R.State, net: set<Packet>) {
    function Of(p: Party): (s: R.State) {
      if p == Alice then alice else bob
    }

    function With(p: Party, s: R.State): (j: Pair)
      ensures j.Of(p) == s && j.Of(Other(p)) == Of(Other(p)) && j.net == net
    {
      if p == Alice then this.(alice := s) else this.(bob := s)
    }
  }

  /** How a pair is set up: one shared key, each side's own minimum version and parameters. */
  datatype Setup = Setup(authKey: Bytes, minAlice: nat, minBob: nat, alice: KC.Params, bob: KC.Params) {
    predicate Ok() {
      minAlice <= 1 && minBob <= 1
    }
  }

  function Initial(c: Crypto, u: Setup): (j: Pair) {
    Pair(R.InitialState(c, R.Params(KC.A2B, 1, u.minAlice, u.authKey, Some(u.alice))),
         R.InitialState(c, R.Params(KC.B2A, 1, u.minBob, u.authKey, Some(u.bob))), {})
  }

  /** The 64-bit epoch and the 32-bit send counters have room for one more step. */
  ghost predicate Room(st: R.State) {
    && (MachineOf(st).Some? ==> MachineOf(st).value.epoch < UINT64)
    && (st.chain.Some? ==> forall j | 0 <= j < |st.chain.value.links| ::
          st.chain.value.links[j].send.ctr + 1 < KC.UINT32)
  }

  ghost predicate Running(st: R.State) {
    MachineOf(st).Some?
  }

  ghost predicate SendsTo(c: Crypto, j: Pair, p: Party, rnd: Bytes, j': Pair) {
    var st, peer := j.Of(p), j.Of(Other(p));
    && Running(st) && Running(peer) && Room(st) && GoodDraw(c, MachineOf(st).value, MachineOf(peer).value, rnd)
    && var r := R.Send(c, st, rnd);
       r.Ok? && j' == j.With(p, r.value.state).(net := j.net + {Packet(p, r.value.msg, r.value.key)})
  }

  ghost predicate Delivers(c: Crypto, j: Pair, p: Party, pk: Packet, j': Pair) {
    && pk in j.net && pk.from == Other(p)
    && var r := R.Recv(c, j.Of(p), pk.wire);
       j' == if r.Ok? then j.With(p, r.value.state) else j
  }

  ghost predicate Step(c: Crypto, j: Pair, j': Pair) {
    || (exists p, rnd :: SendsTo(c, j, p, rnd, j'))
    || (exists p, pk :: Delivers(c, j, p, pk, j'))
  }

  ghost predicate Run(c: Crypto, u: Setup, js: seq<Pair>) {
    && js != [] && js[0] == Initial(c, u)
    && forall i | 0 <= i < |js| - 1 :: Step(c, js[i], js[i + 1])
  }

  // ----- the invariant -----

  ghost predicate PartyOk(l: Log, st: R.State, p: Party)
    ensures PartyOk(l, st, p) ==> MachineOf(st).Some?
  {
    && st.inner.Some? && Coupled(st) && (st.chain.Some? || st.vn.Some?)
    && (st.chain.Some? ==> ChainAgrees(l, st.chain.value, p))
    && (st.vn.Some? ==>
          && st.vn.value.authKey == l.authKey && st.vn.value.direction == DirOf(p)
          && 0 <= st.vn.value.minVersion <= 1 && st.vn.value.chainParams.Some?)
  }

  ghost predicate KeyFits(l: Log, from: Party, epoch: nat, index: nat, key: Option<Bytes>) {
    if index == 0 then key.None? && epoch == 1
    else epoch >= 1 && Settled(l, epoch - 1) && key == Some(StreamKey(l.c, Seed(l, epoch - 1, DirOf(from)), index))
  }

  ghost predicate PacketFits(l: Log, pk: Packet)
    requires l.Ok()
  {
    && Deserialize(pk.wire).Some?
    && var (m, index, _) := Deserialize(pk.wire).value;
       Fits(l, m) && KeyFits(l, pk.from, m.epoch, index, pk.key)
  }

  predicate CarriesCt2(pk: Packet, epoch: nat) {
    Deserialize(pk.wire).Some? && Deserialize(pk.wire).value.0.epoch == epoch
      && Deserialize(pk.wire).value.0.payload.Ct2?
  }

  ghost predicate Inv(l: Log, j: Pair) {
    && l.Ok() && PartyOk(l, j.alice, Alice) && PartyOk(l, j.bob, Bob)
    && var q := EkParty(l.Epoch());
       StatesFit(l, MachineOf(j.Of(q)).value, MachineOf(j.Of(Other(q))).value)
       && (forall pk <- j.net :: PacketFits(l, pk))
       && (forall pk <- j.net | CarriesCt2(pk, l.Epoch()) :: MachineOf(j.Of(Other(q))).value.Ct2Sampled?)
  }

  // ----- growth of the log -----

  lemma KeyFitsGrows(l: Log, l': Log, from: Party, epoch: nat, index: nat, key: Option<Bytes>)
    requires l.Ok() && l'.Ok() && Grows(l, l') && KeyFits(l, from, epoch, index, key)
    ensures KeyFits(l', from, epoch, index, key)
  {
    hide StreamKey, Gen, Log.Ok;
    if index > 0 {
      KnownGrows(l, l', epoch - 1);
    }
  }

  lemma PacketGrows(l: Log, l': Log, pk: Packet)
    requires l.Ok() && l'.Ok() && Grows(l, l') && PacketFits(l, pk)
    ensures PacketFits(l', pk)
  {
    hide KeyFits, Fits, Log.Ok, Deserialize;
    var (m, index, _) := Deserialize(pk.wire).value;
    FitsGrows(l, l', m);
    KeyFitsGrows(l, l', pk.from, m.epoch, index, pk.key);
  }

  lemma PartyGrows(l: Log, l': Log, st: R.State, p: Party)
    requires l.Ok() && l'.Ok() && Grows(l, l') && PartyOk(l, st, p)
    ensures PartyOk(l', st, p)
  {
    hide ChainAgrees, Coupled, Log.Ok;
    if st.chain.Some? {
      ChainGrows(l, l', st.chain.value, p);
    }
  }

  /** The stored form of a machine state fits wherever the state does. */
  lemma StoredKeepsFit(l: Log, ek: V1.State, ct: V1.State)
    requires l.Ok() && StatesFit(l, ek, ct)
    ensures StatesFit(l, VC.Stored(ek), ct) && StatesFit(l, ek, VC.Stored(ct))
  {
    hide AuthAfter, Sound, Chunked.OnMessage, TransportCodec.Kept, Streams.Stream.Encodes;
    KeptEncodes();
  }

  /** Dropping dead rows does not change what a stream encodes. */
  lemma KeptEncodes()
    ensures forall s: Streams.Stream, msg: Bytes {:trigger TransportCodec.Kept(s).Encodes(msg)} ::
      s.Encodes(msg) ==> TransportCodec.Kept(s).Encodes(msg)
  {
    hide Streams.HasPolys, Streams.HasValues;
  }

  // ----- one party's step against the log -----

  lemma SettledIf(l: Log, k: nat)
    requires l.Ok() && k <= l.Epoch() && (k == l.Epoch() ==> l.cur.Full?)
    ensures Settled(l, k)
  {
  }

  /** The chain a send or receive works with: the stored one, or a fresh one. */
  lemma ChainAtHand(l: Log, st: R.State, p: Party)
    requires l.Ok() && PartyOk(l, st, p)
    ensures var r := R.ChainFrom(l.c, st);
      && r.Ok? && ChainAgrees(l, r.value, p) && ChainFits(r.value, MachineOf(st).value)
  {
    hide ChainAgrees, ChainFits, KC.NewChain;
    if st.chain.None? {
      var vn := st.vn.value;
      NewChainFits(l.c, vn.authKey, vn.direction, vn.chainParams.value, MachineOf(st).value);
      NewChainAgrees(l, p, vn.chainParams.value);
    }
  }

  lemma FoldAgrees(l: Log, ch: KC.Chain, p: Party, s: V1.State, key: Option<V1.EpochSecret>)
    requires l.Ok() && ChainAgrees(l, ch, p) && ChainFits(ch, s)
    requires key.Some? ==> key.value.epoch == s.epoch == ch.currentEpoch + 1 && SecretFits(l, key.value)
    ensures var r := R.FoldSecret(l.c, ch, key); r.Ok? && ChainAgrees(l, r.value, p)
  {
    hide ChainAgrees, KC.AddEpoch;
    if key.Some? {
      SettledIf(l, key.value.epoch);
      AddEpochAgrees(l, ch, p);
    }
  }

  lemma NeverNacks(c: Crypto, s: V1.State, rnd: Bytes)
    requires s.Wf() && V1.Send(c, s, rnd).Ok?
    ensures V1.Send(c, s, rnd).value.msg.payload != V1.Ct1Ack(false)
  {
  }

  /** The chain counters a send will use have room. */
  ghost predicate SendRoom(ch: KC.Chain) {
    forall j | 0 <= j < |ch.links| :: ch.links[j].send.ctr + 1 < KC.UINT32
  }

  /** The key side of a send draws a key of the sender's stream and keeps the chain in agreement. */
  lemma DrawAgrees(l: Log, ch: KC.Chain, p: Party, s: V1.State, step: V1.SendStep)
    requires l.Ok() && ChainAgrees(l, ch, p) && ChainFits(ch, s) && SendRoom(ch)
    requires step.msg.epoch == s.epoch == step.state.epoch
    requires step.key.Some? ==> step.key.value.epoch == s.epoch && !Sampled(s) && SecretFits(l, step.key.value)
    ensures var r := R.DrawSendKey(l.c, ch, step);
      && r.Ok? && ChainAgrees(l, r.value.0, p)
      && KeyFits(l, p, s.epoch, r.value.1, Some(r.value.2))
  {
    hide ChainAgrees, KC.AddEpoch, KC.SendKey, StreamKey, SecretFits, Gen;
    FoldAgrees(l, ch, p, s, step.key);
    var ch1 := R.FoldSecret(l.c, ch, step.key).value;
    if step.key.Some? {
      AddEpochFits(l.c, ch, step.key.value.secret);
      NewLinkHasRoom(l.c, ch, step.key.value.secret);
    }
    SendKeyAgrees(l, ch1, p, s.epoch - 1);
  }

  lemma NewLinkHasRoom(c: Crypto, ch: KC.Chain, secret: Bytes)
    requires SendRoom(ch)
    ensures SendRoom(KC.AddEpoch(c, ch, ch.currentEpoch + 1, secret).value)
  {
  }

  lemma StreamKeySized(c: Crypto, seed: Bytes, n: nat)
    requires Sized(c) && n > 0
    ensures |StreamKey(c, seed, n)| == KEY_SIZE
  {
  }

  lemma KeyIsPresent(l: Log, from: Party, epoch: nat, index: nat, key: Bytes)
    requires l.Ok() && KeyFits(l, from, epoch, index, Some(key))
    ensures R.NonEmpty(key) == Some(key)
  {
    hide Gen;
    StreamKeySized(l.c, Seed(l, epoch - 1, DirOf(from)), index);
  }

  /** What a party's send leaves behind, given what its machine step means for the log. */
  lemma PartySends(l: Log, l': Log, st: R.State, p: Party, rnd: Bytes)
    requires l.Ok() && l'.Ok() && Grows(l, l') && PartyOk(l, st, p) && Running(st) && Room(st)
    requires var step := V1.Send(l.c, MachineOf(st).value, rnd);
      step.Ok? && Fits(l', step.value.msg) && (step.value.key.Some? ==> SecretFits(l', step.value.key.value))
    ensures var r, step := R.Send(l.c, st, rnd), V1.Send(l.c, MachineOf(st).value, rnd).value;
      && r.Ok? && PartyOk(l', r.value.state, p) && MachineOf(r.value.state) == Some(VC.Stored(step.state))
      && PacketFits(l', Packet(p, r.value.msg, r.value.key)) && Deserialize(r.value.msg).value.0 == step.msg
  {
    hide V1.Send, KC.NewChain, ChainAgrees, ChainFits, Fits, SecretFits, KeyFits, Serialize, Deserialize, R.DrawSendKey,
      VC.FromProto, VC.ToProto, VC.Stored, VC.Storable;
    var s := MachineOf(st).value;
    MachineSends(l.c, s, rnd);
    NeverNacks(l.c, s, rnd);
    var step := V1.Send(l.c, s, rnd).value;
    FitsIsOk(l', step.msg);
    PartyGrows(l, l', st, p);
    SendKeepsCoupled(l.c, st, rnd);
    VC.SendStorable(l.c, s, rnd);
    Restored(R.Send(l.c, st, rnd).value.state, step.state);
    var ch := R.ResolveSendChain(l.c, st).value;
    if ch.None? {
      MessageRoundTrip(step.msg, 0, []);
      assert Serialize(step.msg, 0) + [] == Serialize(step.msg, 0);
      NoKeyYet(l', p);
    } else {
      ChainAtHand(l', st, p);
      FreshHasRoom(l.c, st);
      SampledNotYet(s, step, ch.value);
      DrawAgrees(l', ch.value, p, s, step);
      var (ch', idx, key) := R.DrawSendKey(l.c, ch.value, step).value;
      KeyIsPresent(l', p, s.epoch, idx, key);
      MessageRoundTrip(step.msg, idx, []);
      assert Serialize(step.msg, idx) + [] == Serialize(step.msg, idx);
    }
  }

  lemma NoKeyYet(l: Log, p: Party)
    ensures KeyFits(l, p, 1, 0, None)
  {
  }

  lemma FreshHasRoom(c: Crypto, st: R.State)
    requires Room(st) && R.ChainFrom(c, st).Ok?
    ensures SendRoom(R.ChainFrom(c, st).value)
  {
  }

  lemma SampledNotYet(s: V1.State, step: V1.SendStep, ch: KC.Chain)
    requires step.key.Some? ==> s.HeaderReceived?
    ensures step.key.Some? ==> !Sampled(s)
  {
  }

  /** A version-1 message reaches the version-1 machine. */
  lemma ReachesMachine(l: Log, st: R.State, p: Party, wire: Bytes)
    requires PartyOk(l, st, p) && Running(st) && Deserialize(wire).Some?
    ensures R.Recv(l.c, st, wire) == R.RecvV1(l.c, st, wire)
  {
    hide Coupled, ChainAgrees, V1.Recv, KC.RecvKey, DecodeVarint, DecodeChunk;
  }

  /** The ways a key can be out of reach: never a state or message that does not decode. */
  predicate KeyOutOfReach(e: R.Error) {
    e.KeyChainError? && e.k in {KC.KeyJump, KC.KeyTrimmed, KC.KeyAlreadyRequested, KC.EpochOutOfRange}
  }

  lemma RecvKeyErrors(c: Crypto, ch: KC.Chain, epoch: nat, index: KC.uint32)
    requires KC.RecvKey(c, ch, epoch, index).Err?
    ensures KeyOutOfReach(R.KeyChainError(KC.RecvKey(c, ch, epoch, index).error))
  {
    hide KC.SkipTo, KC.NextKey, KC.Find;
  }

  /**
   What a receive does, given what its machine step means for the log: it fails only for
   want of a key, and otherwise returns the key of the packet.
   */
  lemma PartyReceives(l: Log, l': Log, st: R.State, p: Party, pk: Packet)
    requires l.Ok() && l'.Ok() && Grows(l, l') && PartyOk(l, st, p) && Running(st)
    requires PacketFits(l, pk) && pk.from == Other(p)
    requires V1.MsgOk(Deserialize(pk.wire).value.0)
    requires var step := V1.Recv(l.c, MachineOf(st).value, Deserialize(pk.wire).value.0);
      step.Ok? && (step.value.key.Some? ==> SecretFits(l', step.value.key.value))
    ensures var r, m := R.Recv(l.c, st, pk.wire), Deserialize(pk.wire).value.0;
      && (r.Err? ==> KeyOutOfReach(r.error))
      && (r.Ok? ==>
            && r.value.key == pk.key && PartyOk(l', r.value.state, p)
            && MachineOf(r.value.state) == Some(VC.Stored(V1.Recv(l.c, MachineOf(st).value, m).value.state)))
  {
    hide V1.Recv, KC.NewChain, KC.RecvKey, ChainAgrees, ChainFits, Fits, SecretFits, KeyFits, Deserialize, R.Recv, Gen,
      VC.FromProto, VC.ToProto, VC.Stored, VC.Storable;
    ReachesMachine(l, st, p, pk.wire);
    var s := MachineOf(st).value;
    var (m, index, _) := Deserialize(pk.wire).value;
    MachineReceives(l.c, s, m);
    var step := V1.Recv(l.c, s, m).value;
    PartyGrows(l, l', st, p);
    PacketGrows(l, l', pk);
    ChainAtHand(l', st, p);
    var ch := R.ChainFrom(l.c, st).value;
    BeforeFlip(ch, s, step);
    FoldAgrees(l', ch, p, s, step.key);
    var ch1 := R.FoldSecret(l.c, ch, step.key).value;
    if KC.RecvKey(l.c, ch1, m.epoch - 1, index).Ok? {
      RecvKeepsCoupled(l.c, st, pk.wire);
      VC.RecvStorable(l.c, s, m);
      Restored(R.RecvV1(l.c, st, pk.wire).value.state, step.state);
      RecvKeyAgrees(l', ch1, p, m.epoch - 1, index);
      KeysMatch(l', p, m.epoch, index, pk.key, KC.RecvKey(l.c, ch1, m.epoch - 1, index).value.1);
    } else {
      RecvKeyErrors(l.c, ch1, m.epoch - 1, index);
    }
  }

  lemma BeforeFlip(ch: KC.Chain, s: V1.State, step: V1.RecvStep)
    requires ChainFits(ch, s) && (step.key.Some? ==> step.key.value.epoch == s.epoch && !Sampled(s))
    ensures step.key.Some? ==> step.key.value.epoch == s.epoch == ch.currentEpoch + 1
  {
  }

  lemma KeysMatch(l: Log, p: Party, epoch: nat, index: nat, sent: Option<Bytes>, got: Bytes)
    requires l.Ok() && epoch >= 1 && KeyFits(l, Other(p), epoch, index, sent)
    requires if epoch - 1 == 0 && index == 0 then got == []
      else index > 0 && Settled(l, epoch - 1) && got == StreamKey(l.c, Seed(l, epoch - 1, DirOf(Other(p))), index)
    ensures R.NonEmpty(got) == sent
  {
    hide Gen;
    if index > 0 {
      StreamKeySized(l.c, Seed(l, epoch - 1, DirOf(Other(p))), index);
    }
  }

  // ----- the invariant over whole runs -----

  lemma InvGrows(l: Log, j: Pair, l': Log, j': Pair, sent: set<Packet>)
    requires Inv(l, j) && l'.Ok() && Grows(l, l')
    requires PartyOk(l', j'.alice, Alice) && PartyOk(l', j'.bob, Bob)
    requires StatesFit(l', MachineOf(j'.Of(EkParty(l'.Epoch()))).value,
                       MachineOf(j'.Of(Other(EkParty(l'.Epoch())))).value)
    requires j'.net == j.net + sent && forall pk <- sent :: PacketFits(l', pk)
    requires forall pk <- j'.net | CarriesCt2(pk, l'.Epoch()) ::
      MachineOf(j'.Of(Other(EkParty(l'.Epoch())))).value.Ct2Sampled?
    ensures Inv(l', j')
  {
    hide Log.Ok, PacketFits, StatesFit, Grows, PartyOk, CarriesCt2;
    forall pk <- j'.net ensures PacketFits(l', pk) {
      if pk in j.net {
        PacketGrows(l, l', pk);
      }
    }
  }

  lemma SendKeepsInv(l: Log, j: Pair, p: Party, rnd: Bytes, j': Pair) returns (l': Log)
    requires Inv(l, j) && SendsTo(l.c, j, p, rnd, j')
    ensures Inv(l', j') && l'.c == l.c
  {
    hide Fits, SecretFits, Log.Ok, V1.Send, R.Send, StatesFit, GoodDraw, LogAfterSend, Grows, PacketFits,
      VC.Stored, Deserialize, Coupled, ChainAgrees, Room;
    var q := EkParty(l.Epoch());
    var ek, ct := MachineOf(j.Of(q)).value, MachineOf(j.Of(Other(q))).value;
    l' := LogAfterSend(l, MachineOf(j.Of(p)).value, rnd);
    if p == q {
      EkSends(l, ek, ct, rnd);
      StoredKeepsFit(l', V1.Send(l.c, ek, rnd).value.state, ct);
    } else {
      CtSends(l, ek, ct, rnd);
      StoredKeepsFit(l', ek, V1.Send(l.c, ct, rnd).value.state);
      StoredCt2(V1.Send(l.c, ct, rnd).value.state);
    }
    GrowsSame(l, l');
    PartySends(l, l', j.Of(p), p, rnd);
    PartyGrows(l, l', j.Of(Other(p)), Other(p));
    var r := R.Send(l.c, j.Of(p), rnd).value;
    InvGrows(l, j, l', j', {Packet(p, r.msg, r.key)});
  }

  lemma GrowsSame(l: Log, l': Log)
    requires Grows(l, l')
    ensures l'.c == l.c
  {
  }

  lemma StoredCt2(s: V1.State)
    ensures VC.Stored(s).Ct2Sampled? == s.Ct2Sampled?
  {
  }

  /** Every delivery returns the sender's key or fails for want of one, and keeps the invariant. */
  lemma DeliverKeepsInv(l: Log, j: Pair, p: Party, pk: Packet, j': Pair) returns (l': Log)
    requires Inv(l, j) && Delivers(l.c, j, p, pk, j')
    ensures Inv(l', j') && l'.c == l.c
    ensures var r := R.Recv(l.c, j.Of(p), pk.wire); if r.Ok? then r.value.key == pk.key else KeyOutOfReach(r.error)
  {
    hide Fits, SecretFits, Log.Ok, V1.Recv, R.Recv, StatesFit, Grows, KeyFits, VC.Stored, Deserialize, Coupled,
      ChainAgrees, Advance;
    var q := EkParty(l.Epoch());
    var ek, ct := MachineOf(j.Of(q)).value, MachineOf(j.Of(Other(q))).value;
    assert PacketFits(l, pk);
    var m := Deserialize(pk.wire).value.0;
    FitsIsOk(l, m);
    if p == q {
      assert m.epoch == l.Epoch() && m.payload.Ct2? ==> CarriesCt2(pk, l.Epoch());
      EkReceives(l, ek, ct, m);
    } else {
      CtReceives(l, ek, ct, m);
    }
    var step := V1.Recv(l.c, MachineOf(j.Of(p)).value, m).value;
    var next := LogAfterRecv(l, step.key);
    PartyReceives(l, next, j.Of(p), p, pk);
    if R.Recv(l.c, j.Of(p), pk.wire).Ok? {
      l' := next;
      GrowsSame(l, l');
      PartyGrows(l, l', j.Of(Other(p)), Other(p));
      StoredCt2(step.state);
      NoCt2Ahead(l, l', j);
      if p != q {
        StoredKeepsFit(l', ek, step.state);
      } else if step.key.Some? {
        StoredKeepsFit(l', ct, step.state);
      } else {
        StoredKeepsFit(l', step.state, ct);
      }
      InvGrows(l, j, l', j', {});
    } else {
      l' := l;
    }
  }

  lemma NoCt2Ahead(l: Log, l': Log, j: Pair)
    requires Inv(l, j)
    ensures l'.Epoch() > l.Epoch() ==> forall pk <- j.net :: !CarriesCt2(pk, l'.Epoch())
  {
    hide Log.Ok, StatesFit, PartyOk, Deserialize;
    forall pk <- j.net ensures l'.Epoch() > l.Epoch() ==> !CarriesCt2(pk, l'.Epoch()) {
      assert PacketFits(l, pk);
      FitsEpoch(l, Deserialize(pk.wire).value.0);
    }
  }

  lemma InitialInv(c: Crypto, u: Setup)
    requires Sized(c) && u.Ok()
    ensures Inv(Log(c, u.authKey, [], Fresh), Initial(c, u))
  {
    var l := Log(c, u.authKey, [], Fresh);
    V1Safety.InitialInv(c, u.authKey);
  }

  lemma {:induction false} RunInv(c: Crypto, u: Setup, js: seq<Pair>, n: nat) returns (l: Log)
    requires Sized(c) && u.Ok() && Run(c, u, js) && n < |js|
    ensures Inv(l, js[n]) && l.c == c
    decreases n
  {
    hide Inv, SendsTo, Delivers, Initial;
    if n == 0 {
      InitialInv(c, u);
      l := Log(c, u.authKey, [], Fresh);
    } else {
      l := RunInv(c, u, js, n - 1);
      assert Step(c, js[n - 1], js[n - 1 + 1]);
      var j, j' := js[n - 1], js[n];
      if p, rnd :| SendsTo(c, j, p, rnd, j') {
        l := SendKeepsInv(l, j, p, rnd, j');
      } else {
        var p, pk :| Delivers(c, j, p, pk, j');
        l := DeliverKeepsInv(l, j, p, pk, j');
      }
    }
  }

  /**
   At every point of every run, for every packet in the network however old: receiving
   it either fails because its key is no longer to be had, or returns exactly the key
   that sending it returned, including both being no key.
   */
  lemma ReceivedKeyIsSentKey(c: Crypto, u: Setup, js: seq<Pair>, n: nat, pk: Packet)
    requires Sized(c) && u.Ok() && Run(c, u, js) && n < |js| && pk in js[n].net
    ensures Running(js[n].Of(Other(pk.from)))
    ensures var r := R.Recv(c, js[n].Of(Other(pk.from)), pk.wire);
      if r.Ok? then r.value.key == pk.key else KeyOutOfReach(r.error)
  {
    var j, p := js[n], Other(pk.from);
    var l := RunInv(c, u, js, n);
    assert Running(j.Of(p));
    var r := R.Recv(c, j.Of(p), pk.wire);
    var j' := if r.Ok? then j.With(p, r.value.state) else j;
    hide Inv, Run, R.Recv;
    var _ := DeliverKeepsInv(l, j, p, pk, j');
  }
}
