/**
 One party, fed arbitrary bytes: the key chain and the machine stay coupled over every
 sequence of sends and receives, and version negotiation only ever closes.
 */
module RatchetRuns {
  import opened Words
  import opened Primitives
  import V1 = V1Machine
  import VC = V1Codec
  import KC = KeyChain
  import opened WireMessage
  import opened Ratchet

  /** The machine has encapsulated, so the secret of its epoch is already in the chain. */
  predicate Sampled(s: V1.State) {
    s.Ct1Sampled? || s.EkReceivedCt1Sampled? || s.Ct1Acknowledged? || s.Ct2Sampled?
  }

  /** States that can only be reached by a send in their epoch. */
  predicate HasSent(s: V1.State) {
    Sampled(s) || s.KeysSampled? || s.HeaderSent? || s.Ct1Received? || s.EkSentCt1Received?
  }

  /** States in which nothing of the peer has been processed yet. */
  predicate Unheard(s: V1.State) {
    s.epoch == 1 && (s.KeysUnsampled? || s.KeysSampled? || s.NoHeaderReceived?)
  }

  /** The epoch of the oldest link. */
  function First(ch: KC.Chain): (e: int) {
    ch.currentEpoch + 1 - |ch.links|
  }

  ghost predicate ChainFits(ch: KC.Chain, s: V1.State)
    ensures ChainFits(ch, s) ==> KC.Readable(ch.links)
  {
    && s.epoch >= 1
    && ch.currentEpoch == (if Sampled(s) then s.epoch else s.epoch - 1)
    && s.epoch - 2 <= ch.sendEpoch <= s.epoch - 1 && (HasSent(s) ==> ch.sendEpoch == s.epoch - 1)
    && 0 <= First(ch) && ch.sendEpoch - 1 <= First(ch) <= ch.sendEpoch
    && SendsLive(ch) && KC.Readable(ch.links)
  }

  /** The send chains of the send epoch and later ones have not been cleared. */
  ghost predicate SendsLive(ch: KC.Chain) {
    forall j | 0 <= j < |ch.links| && First(ch) + j >= ch.sendEpoch :: |ch.links[j].send.next| == KEY_SIZE
  }

  /** The machine a state reads back as. */
  function MachineOf(st: State): (s: Option<V1.State>)
    ensures s.Some? ==> s.value.Wf()
  {
    if st.inner.None? then None else VC.FromProto(st.inner.value)
  }

  /** The stored machine can be read, its successors will be, and the chain goes with it. */
  ghost predicate Coupled(st: State) {
    st.inner.Some? ==>
      && MachineOf(st).Some?
      && var s := MachineOf(st).value;
         && VC.Storable(s)
         && (st.chain.None? ==> st.vn.Some?)
         && (st.vn.Some? ==> Unheard(s))
         && (st.chain.Some? ==> ChainFits(st.chain.value, s))
  }

  /** Storing a machine whose successors stay readable. */
  lemma Restored(st: State, s: V1.State)
    requires VC.Storable(s) && st.inner == Some(VC.ToProto(s))
    ensures MachineOf(st) == Some(VC.Stored(s)) && VC.Storable(VC.Stored(s))
  {
    VC.StorableReload(s);
  }

  // ----- what one machine step can change -----

  lemma MachineSends(c: Crypto, s: V1.State, rnd: Bytes)
    requires Sized(c) && s.Wf()
    ensures var r := V1.Send(c, s, rnd);
      && r.Ok? && r.value.msg.epoch == s.epoch == r.value.state.epoch
      && (r.value.key.Some? <==> s.HeaderReceived?)
      && (r.value.key.Some? ==> r.value.key.value.epoch == s.epoch)
      && Sampled(r.value.state) == (Sampled(s) || s.HeaderReceived?)
      && (Unheard(s) ==> Unheard(r.value.state))
  {
  }

  lemma MachineReceives(c: Crypto, s: V1.State, msg: V1.Msg)
    requires s.Wf() && V1.MsgOk(msg) && V1.Recv(c, s, msg).Ok?
    ensures var r := V1.Recv(c, s, msg).value;
      if r.key.Some? then
        && r.key.value.epoch == s.epoch && HasSent(s) && !Sampled(s)
        && r.state.NoHeaderReceived? && r.state.epoch == s.epoch + 1
      else if r.state.epoch == s.epoch then Sampled(r.state) == Sampled(s) && HasSent(r.state) == HasSent(s)
      else Sampled(s) && r.state.KeysUnsampled? && r.state.epoch == s.epoch + 1
  {
    hide Chunked.ChunkOf, Chunked.Received.Add, Chunked.Received.Decoded, Chunked.NewReceived;
  }

  // ----- what one chain step can change -----

  lemma NewChainFits(c: Crypto, key: Bytes, d: KC.Direction, p: KC.Params, s: V1.State)
    requires Sized(c) && Unheard(s)
    ensures ChainFits(KC.NewChain(c, key, d, p), s)
  {
  }

  lemma AddEpochFits(c: Crypto, ch: KC.Chain, secret: Bytes)
    requires Sized(c) && SendsLive(ch) && First(ch) >= 0
    ensures var r := KC.AddEpoch(c, ch, ch.currentEpoch + 1, secret);
      && r.Ok? && SendsLive(r.value) && First(r.value) == First(ch)
      && r.value.currentEpoch == ch.currentEpoch + 1 && r.value.sendEpoch == ch.sendEpoch
  {
  }

  /** The link a send key is drawn from. */
  function SendLink(ch: KC.Chain, epoch: nat): (h: KC.Half)
    requires First(ch) <= epoch <= ch.currentEpoch
  {
    ch.links[epoch - First(ch)].send
  }

  lemma SendKeyFits(c: Crypto, ch: KC.Chain, epoch: nat)
    requires Sized(c) && SendsLive(ch) && 0 <= First(ch) && ch.sendEpoch - 1 <= First(ch) <= ch.sendEpoch
    requires ch.sendEpoch <= epoch <= ch.currentEpoch
    ensures var r := KC.SendKey(c, ch, epoch);
      && r.Ok?
      && |SendLink(ch, epoch).next| == KEY_SIZE && r.value.2 == KC.NextKey(c, SendLink(ch, epoch)).1
      && |r.value.2| == KEY_SIZE && r.value.1 == KC.NextKey(c, SendLink(ch, epoch)).0.ctr
      && var ch' := r.value.0;
         && ch'.sendEpoch == epoch && ch'.currentEpoch == ch.currentEpoch && SendsLive(ch')
         && epoch - 1 <= First(ch') <= epoch && 0 <= First(ch')
  {
    hide Sized, KC.NextKey, KC.SendKey;
    NextKeySized(c, SendLink(ch, epoch));
    SendKeyShape(c, ch, epoch);
    var ch' := KC.SendKey(c, ch, epoch).value.0;
    forall j | 0 <= j < |ch'.links| && First(ch') + j >= epoch ensures |ch'.links[j].send.next| == KEY_SIZE {
      var was := j + First(ch') - First(ch);
      assert First(ch) + was >= ch.sendEpoch;
      assert |ch.links[was].send.next| == KEY_SIZE;
    }
  }

  /** Which old link each link after a send key comes from. */
  lemma SendKeyShape(c: Crypto, ch: KC.Chain, epoch: nat)
    requires 0 <= First(ch) && ch.sendEpoch - 1 <= First(ch) <= ch.sendEpoch <= epoch <= ch.currentEpoch
    ensures var r := KC.SendKey(c, ch, epoch);
      && r.Ok?
      && var (ch', idx, key) := r.value;
         var (half, k) := KC.NextKey(c, SendLink(ch, epoch));
         && idx == half.ctr && key == k
         && ch'.(links := ch.links, sendEpoch := ch.sendEpoch) == ch && ch'.sendEpoch == epoch
         && First(ch') >= First(ch) && epoch - 1 <= First(ch') <= epoch
         && forall j | 0 <= j < |ch'.links| ::
              var was := ch.links[j + First(ch') - First(ch)];
              && ch'.links[j].recv == was.recv
              && (First(ch') + j == epoch ==> ch'.links[j].send == half)
              && (First(ch') + j > epoch ==> ch'.links[j].send == was.send)
  {
    hide KC.NextKey;
    var idx := KC.EpochIdx(ch, epoch).value;
    assert idx == epoch - First(ch);
  }

  lemma NextKeySized(c: Crypto, h: KC.Half)
    requires Sized(c)
    ensures |KC.NextKey(c, h).0.next| == KEY_SIZE && |KC.NextKey(c, h).1| == KEY_SIZE
  {
  }

  lemma RecvKeyFits(c: Crypto, ch: KC.Chain, epoch: nat, index: KC.uint32)
    requires KC.RecvKey(c, ch, epoch, index).Ok?
    ensures var ch' := KC.RecvKey(c, ch, epoch, index).value.0;
      && ch'.(links := ch.links) == ch && First(ch') == First(ch) && (SendsLive(ch) ==> SendsLive(ch'))
  {
    hide KC.Key;
  }

  // ----- the stored chain can be read back -----

  lemma AddEpochReadable(c: Crypto, ch: KC.Chain, epoch: nat, secret: Bytes)
    requires Sized(c) && KC.Readable(ch.links) && KC.AddEpoch(c, ch, epoch, secret).Ok?
    ensures KC.Readable(KC.AddEpoch(c, ch, epoch, secret).value.links)
  {
  }

  lemma SendKeyReadable(c: Crypto, ch: KC.Chain, epoch: nat)
    requires Sized(c) && KC.Readable(ch.links) && KC.SendKey(c, ch, epoch).Ok?
    ensures KC.Readable(KC.SendKey(c, ch, epoch).value.0.links)
  {
    hide Sized, KC.NextKey;
    var idx := KC.EpochIdx(ch, epoch).value;
    var t := KC.EnterSendEpoch(ch, epoch, idx);
    assert KC.Readable(t.links);
    var i := if ch.sendEpoch != epoch && idx > KC.EPOCHS_TO_KEEP then KC.EPOCHS_TO_KEEP else idx;
    NextKeySized(c, t.links[i].send);
  }

  lemma KeyReadable(c: Crypto, h: KC.Half, at: KC.uint32, p: KC.Params)
    requires Sized(c) && KC.HalfReadable(h) && KC.Key(c, h, at, p).Ok?
    ensures KC.HalfReadable(KC.Key(c, h, at, p).value.0)
  {
    hide Sized, KC.NextKey, KC.SkipTo, KC.Gc, KC.Get;
    if at > h.ctr {
      var start := if at > (h.ctr + p.Ooo()) % KC.UINT32 then h.(prev := []) else h;
      var before := KC.SkipTo(c, start, at, p.Ooo());
      NextKeySized(c, before.(prev := KC.Gc(before.prev, before.ctr, p.Ooo())));
    }
  }

  lemma RecvKeyReadable(c: Crypto, ch: KC.Chain, epoch: nat, index: KC.uint32)
    requires Sized(c) && KC.Readable(ch.links) && KC.RecvKey(c, ch, epoch, index).Ok?
    ensures KC.Readable(KC.RecvKey(c, ch, epoch, index).value.0.links)
  {
    hide Sized, KC.Key;
    if epoch != 0 || index != 0 {
      var idx := KC.EpochIdx(ch, epoch).value;
      KeyReadable(c, ch.links[idx].recv, index, ch.params);
    }
  }

  // ----- sending never fails -----

  /** A chain is stored, or can be built, or is not needed yet. */
  predicate ChainReady(st: State) {
    st.chain.Some? || (st.vn.Some? && (st.vn.value.minVersion <= 0 || st.vn.value.chainParams.Some?))
  }

  /**
   Sending succeeds from every coupled state and keeps it coupled: folding in the secret
   and drawing the key cannot fail, the key comes from a live send chain, and a state
   without a chain produces no epoch secret.
   */
  lemma SendKeepsCoupled(c: Crypto, st: State, rnd: Bytes)
    requires Sized(c) && Coupled(st) && (st.inner.Some? ==> ChainReady(st))
    ensures var r := Send(c, st, rnd);
      && r.Ok? && Coupled(r.value.state)
      && (st.inner.Some? ==> r.value.state.inner.Some? && r.value.state.vn == st.vn)
  {
    hide V1.Send, KC.AddEpoch, KC.SendKey, KC.NewChain, Sized, Serialize, VC.FromProto, VC.ToProto, VC.Storable,
      VC.Stored, ChainFits, Unheard, DrawSendKey;
    if st.inner.Some? {
      var s := MachineOf(st).value;
      MachineSends(c, s, rnd);
      var step := V1.Send(c, s, rnd).value;
      VC.SendStorable(c, s, rnd);
      StoredKeeps(step.state);
      var ch := ResolveSendChain(c, st).value;
      if ch.Some? {
        if st.chain.None? {
          var vn := st.vn.value;
          NewChainFits(c, vn.authKey, vn.direction, vn.chainParams.value, s);
        }
        DrawFits(c, ch.value, s, step);
        StoredFits(DrawSendKey(c, ch.value, step).value.0, step.state);
      }
      Restored(Send(c, st, rnd).value.state, step.state);
    }
  }

  lemma DrawFits(c: Crypto, ch: KC.Chain, s: V1.State, step: V1.SendStep)
    requires Sized(c) && ChainFits(ch, s)
    requires step.msg.epoch == s.epoch == step.state.epoch
    requires step.key.Some? ==> step.key.value.epoch == s.epoch && !Sampled(s)
    requires Sampled(step.state) == (Sampled(s) || step.key.Some?)
    ensures var r := DrawSendKey(c, ch, step); r.Ok? && ChainFits(r.value.0, step.state)
  {
    hide KC.AddEpoch, KC.SendKey, Sized;
    if step.key.Some? {
      AddEpochFits(c, ch, step.key.value.secret);
      AddEpochReadable(c, ch, s.epoch, step.key.value.secret);
    }
    var ch1 := FoldSecret(c, ch, step.key).value;
    SendKeyFits(c, ch1, s.epoch - 1);
    SendKeyReadable(c, ch1, s.epoch - 1);
  }

  lemma StoredKeeps(s: V1.State)
    ensures VC.Stored(s).epoch == s.epoch && Sampled(VC.Stored(s)) == Sampled(s)
    ensures HasSent(VC.Stored(s)) == HasSent(s) && Unheard(VC.Stored(s)) == Unheard(s)
  {
  }

  lemma StoredFits(ch: KC.Chain, s: V1.State)
    ensures ChainFits(ch, VC.Stored(s)) == ChainFits(ch, s)
  {
    hide VC.Stored;
    StoredKeeps(s);
  }

  /** Receiving, whatever the bytes, keeps the coupling. */
  lemma RecvKeepsCoupled(c: Crypto, st: State, msg: Bytes)
    requires Sized(c) && Coupled(st) && Recv(c, st, msg).Ok?
    ensures Coupled(Recv(c, st, msg).value.state)
  {
    hide V1.Recv, KC.AddEpoch, KC.RecvKey, KC.NewChain, Sized, DecodePreamble, Deserialize, VC.FromProto, VC.Storable;
    var pre := DecodePreamble(msg).value;
    var st1 := NegotiateRecv(c, st, pre.version).value;
    if st1.inner.Some? {
      assert st1 == st;
      var s := MachineOf(st).value;
      if st.chain.None? {
        var vn := st.vn.value;
        if vn.chainParams.Some? {
          NewChainFits(c, vn.authKey, vn.direction, vn.chainParams.value, s);
        }
      }
      var ch := ChainFrom(c, st).value;
      if pre.version as nat > 1 {
        RecvKeyFits(c, ch, 0, pre.index);
        RecvKeyReadable(c, ch, 0, pre.index);
      } else {
        RecvV1Keeps(c, st, ch, msg);
      }
    }
  }

  lemma RecvV1Keeps(c: Crypto, st: State, ch: KC.Chain, msg: Bytes)
    requires Sized(c) && MachineOf(st).Some? && VC.Storable(MachineOf(st).value) && RecvV1(c, st, msg).Ok?
    requires ChainFrom(c, st) == Ok(ch) && ChainFits(ch, MachineOf(st).value)
    ensures Coupled(RecvV1(c, st, msg).value.state)
  {
    hide V1.Recv, KC.AddEpoch, KC.RecvKey, KC.NewChain, Sized, Deserialize, VC.FromProto, VC.ToProto, VC.Storable,
      VC.Stored;
    var s := MachineOf(st).value;
    var (m, index, _) := Deserialize(msg).value;
    MachineReceives(c, s, m);
    var step := V1.Recv(c, s, m).value;
    StoredKeeps(step.state);
    if step.key.Some? {
      AddEpochFits(c, ch, step.key.value.secret);
      AddEpochReadable(c, ch, s.epoch, step.key.value.secret);
    }
    var ch1 := FoldSecret(c, ch, step.key).value;
    RecvKeyFits(c, ch1, ChainEpoch(m.epoch), index);
    RecvKeyReadable(c, ch1, ChainEpoch(m.epoch), index);
    VC.RecvStorable(c, s, m);
    Restored(RecvV1(c, st, msg).value.state, step.state);
  }

  // ----- whole runs -----

  /** A call a user of the ratchet makes, with the value the send draws or the bytes received. */
  datatype Call = CallSend(rnd: Bytes) | CallRecv(msg: Bytes)

  /** The state after a call; a failed call leaves the caller with the old state. */
  function After(c: Crypto, st: State, call: Call): (r: State) {
    match call
    case CallSend(rnd) =>
      (match Send(c, st, rnd)
       case Ok(s) => s.state
       case Err(_) => st)
    case CallRecv(msg) =>
      (match Recv(c, st, msg)
       case Ok(r) => r.state
       case Err(_) => st)
  }

  function AfterAll(c: Crypto, st: State, calls: seq<Call>): (r: State)
    decreases |calls|
  {
    if calls == [] then st else After(c, AfterAll(c, st, calls[..|calls| - 1]), calls[|calls| - 1])
  }

  ghost predicate Invariant(st: State) {
    Coupled(st) && (st.inner.Some? ==> ChainReady(st))
  }

  lemma StepKeeps(c: Crypto, st: State, call: Call)
    requires Sized(c) && Invariant(st)
    ensures Invariant(After(c, st, call))
  {
    hide Coupled, Send, Recv;
    match call
    case CallSend(rnd) =>
      SendKeepsCoupled(c, st, rnd);
      SendKeepsChain(c, st, rnd);
    case CallRecv(msg) =>
      if Recv(c, st, msg).Ok? {
        RecvKeepsCoupled(c, st, msg);
        RecvKeepsChain(c, st, msg);
      }
  }

  lemma SendKeepsChain(c: Crypto, st: State, rnd: Bytes)
    requires Send(c, st, rnd).Ok?
    ensures st.inner.Some? ==> Send(c, st, rnd).value.state.inner.Some? && Send(c, st, rnd).value.state.vn == st.vn
    ensures st.inner.None? ==> Send(c, st, rnd).value.state == EMPTY
    ensures st.chain.Some? && st.inner.Some? ==> Send(c, st, rnd).value.state.chain.Some?
  {
    hide V1.Send, DrawSendKey, Serialize;
  }

  lemma RecvKeepsChain(c: Crypto, st: State, msg: Bytes)
    requires Recv(c, st, msg).Ok?
    ensures var r := Recv(c, st, msg).value.state;
      && (r.inner.Some? ==> st.inner.Some? && r.chain.Some?)
      && (r.vn == st.vn || r.vn.None?)
      && (r.inner.None? ==> r == EMPTY)
      && (r.inner.None? && st.inner.Some? ==> st.vn.Some? && st.vn.value.minVersion % 256 == 0)
  {
    hide V1.Recv, KC.RecvKey, Deserialize, FoldSecret, DecodePreamble;
  }

  lemma {:induction false} RunsKeep(c: Crypto, st: State, calls: seq<Call>)
    requires Sized(c) && Invariant(st)
    ensures Invariant(AfterAll(c, st, calls))
    decreases |calls|
  {
    hide Invariant, After;
    if calls != [] {
      RunsKeep(c, st, calls[..|calls| - 1]);
      StepKeeps(c, AfterAll(c, st, calls[..|calls| - 1]), calls[|calls| - 1]);
    }
  }

  lemma InitialInvariant(c: Crypto, p: Params)
    requires p.chainParams.Some?
    ensures Invariant(InitialState(c, p))
  {
    hide VC.FromProto, VC.ToProto;
    var st := InitialState(c, p);
    if p.version != 0 {
      Restored(st, if p.direction.A2B? then V1.NewSendEk(c, p.authKey) else V1.NewSendCt(c, p.authKey));
    }
  }

  /**
   From any initial state with chain parameters, after any calls with any bytes: the
   stored machine and chain can be read, sending succeeds, the chain's epoch follows the
   machine's, at most three links are held, and the live send chains have not been cleared.
   */
  lemma ChainFollowsMachine(c: Crypto, p: Params, calls: seq<Call>, rnd: Bytes)
    requires Sized(c) && p.chainParams.Some?
    ensures var st := AfterAll(c, InitialState(c, p), calls);
      && Send(c, st, rnd).Ok?
      && (st.inner.Some? ==> MachineOf(st).Some?)
      && (st.inner.Some? && st.chain.Some? ==>
            && ChainFits(st.chain.value, MachineOf(st).value) && 1 <= |st.chain.value.links| <= 3)
      && (st.inner.Some? && st.chain.None? ==>
            Unheard(MachineOf(st).value) && V1.Send(c, MachineOf(st).value, rnd).value.key.None?)
  {
    var st0 := InitialState(c, p);
    InitialInvariant(c, p);
    RunsKeep(c, st0, calls);
    var st := AfterAll(c, st0, calls);
    hide AfterAll, Send, V1.Send, VC.FromProto, VC.Storable;
    SendKeepsCoupled(c, st, rnd);
    if st.inner.Some? {
      MachineSends(c, MachineOf(st).value, rnd);
    }
  }

  // ----- negotiation -----

  lemma {:induction false} VersionZeroStays(c: Crypto, st: State, calls: seq<Call>)
    requires st.inner.None?
    ensures AfterAll(c, st, calls).inner.None?
    decreases |calls|
  {
    hide V1.Send, V1.Recv, KC.RecvKey, Deserialize, FoldSecret, DecodePreamble;
    if calls != [] {
      VersionZeroStays(c, st, calls[..|calls| - 1]);
    }
  }

  lemma {:induction false} NegotiationNeverReopens(c: Crypto, st: State, calls: seq<Call>)
    requires st.vn.None?
    ensures AfterAll(c, st, calls).vn.None?
    decreases |calls|
  {
    hide Send, Recv;
    if calls != [] {
      NegotiationNeverReopens(c, st, calls[..|calls| - 1]);
      var s, call := AfterAll(c, st, calls[..|calls| - 1]), calls[|calls| - 1];
      match call
      case CallSend(rnd) => if Send(c, s, rnd).Ok? { SendKeepsChain(c, s, rnd); }
      case CallRecv(msg) => if Recv(c, s, msg).Ok? { RecvKeepsChain(c, s, msg); }
    }
  }

  /** The machine is running and, while negotiation is open, version 0 is refused. */
  ghost predicate Pinned(st: State) {
    && st.inner.Some?
    && (st.vn.Some? ==> st.vn.value.minVersion % 256 != 0)
  }

  lemma {:induction false} PinnedStays(c: Crypto, st: State, calls: seq<Call>)
    requires Pinned(st)
    ensures Pinned(AfterAll(c, st, calls))
    decreases |calls|
  {
    hide Send, Recv;
    if calls != [] {
      PinnedStays(c, st, calls[..|calls| - 1]);
      var s, call := AfterAll(c, st, calls[..|calls| - 1]), calls[|calls| - 1];
      match call
      case CallSend(rnd) => if Send(c, s, rnd).Ok? { SendKeepsChain(c, s, rnd); }
      case CallRecv(msg) => if Recv(c, s, msg).Ok? { RecvKeepsChain(c, s, msg); }
    }
  }

  /** While negotiation at minimum version 0 is open, the empty message downgrades. */
  lemma EmptyMessageDowngrades(c: Crypto, st: State)
    requires st.inner.Some? && st.chain.None?
    requires st.vn.Some? && st.vn.value.minVersion % 256 == 0 && st.vn.value.chainParams.Some?
    ensures After(c, st, CallRecv([])).inner.None?
  {
    hide V1.Recv, KC.RecvKey, Deserialize, FoldSecret, KC.NewChain;
  }

  /**
   A state set up at version 1 is never downgraded, exactly when its minimum version is
   not 0: otherwise the empty message alone downgrades it.
   */
  lemma DowngradeIffMinimumZero(c: Crypto, p: Params)
    requires p.version == 1 && p.chainParams.Some?
    ensures (forall calls :: AfterAll(c, InitialState(c, p), calls).inner.Some?) <==> p.minVersion % 256 != 0
  {
    hide AfterAll;
    var st := InitialState(c, p);
    if p.minVersion % 256 != 0 {
      forall calls ensures AfterAll(c, st, calls).inner.Some? {
        PinnedStays(c, st, calls);
      }
    } else {
      EmptyMessageDowngrades(c, st);
      OneCall(c, st, CallRecv([]));
    }
  }

  lemma OneCall(c: Crypto, st: State, call: Call)
    ensures AfterAll(c, st, [call]) == After(c, st, call)
  {
    hide After;
    assert [call][..0] == [];
  }
}
