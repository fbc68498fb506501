/**
 Sessions whose post-quantum ratchet is SPQR itself: its keys always agree, so acceptance
 of a message depends on nothing but the two windows its keys come from.
 */
module TripleRatchet {
  import opened Words
  import opened Parties
  import opened Primitives
  import opened KeyWindow
  import opened Session
  import opened SessionRuns
  import KC = KeyChain
  import R = Ratchet
  import RR = RatchetRuns
  import J = V1Joint
  import A = AgreementRuns

  /** A missing key leaves the derivation of the message keys as it is, like an empty one. */
  function KeyBytes(k: Option<Bytes>): (b: Bytes) {
    if k.None? then [] else k.value
  }

  /** The SPQR calls of a session. */
  function Spqr(c: Crypto): (q: Pqr) {
    Pqr((st, rnd) => SpqrSend(c, st, rnd), (st, msg) => SpqrRecv(c, st, msg))
  }

  function SpqrSend(c: Crypto, st: R.State, rnd: Bytes): (r: Option<(R.State, Bytes, Bytes)>) {
    match R.Send(c, st, rnd)
    case Ok(s) => Some((s.state, s.msg, KeyBytes(s.key)))
    case Err(_) => None
  }

  function SpqrRecv(c: Crypto, st: R.State, msg: Bytes): (r: Option<(R.State, Bytes)>) {
    match R.Recv(c, st, msg)
    case Ok(s) => Some((s.state, KeyBytes(s.key)))
    case Err(_) => None
  }

  /** How a session sets SPQR up: version 1 required, with the session's own limits. */
  function SetupOf(authKey: Bytes, ownIdentity: bool): (u: A.Setup) {
    var p := KC.Params(if ownIdentity then KC.UINT32 - 1 else MAX_FORWARD_JUMPS, MAX_MESSAGE_KEYS);
    A.Setup(authKey, 1, 1, p, p)
  }

  function StartOf(c: Crypto, h: Handshake, kyber: Bytes, ratchet: Key, authKey: Bytes, ownIdentity: bool): (u: Start)
  {
    var pair := A.Initial(c, SetupOf(authKey, ownIdentity));
    Start(h, kyber, ratchet, pair.alice, pair.bob)
  }

  // ----- the SPQR half of a run -----

  function PacketOf(w: Wire): (pk: A.Packet) {
    A.Packet(w.from, w.msg.pqr, R.NonEmpty(w.msg.body.keys.pqr))
  }

  ghost function Half(j: Joint): (p: A.Pair) {
    A.Pair(j.alice.pqr, j.bob.pqr, set w <- j.net :: PacketOf(w))
  }

  /** A send with a good draw, while SPQR's counters have room. */
  ghost predicate SendsWell(c: Crypto, j: Joint, p: Party, plaintext: Bytes, rnd: Bytes, j': Joint) {
    var mine, peer := j.Of(p).pqr, j.Of(Other(p)).pqr;
    && Sends(Spqr(c), j, p, plaintext, rnd, j')
    && A.Running(mine) && A.Running(peer) && A.Room(mine)
    && J.GoodDraw(c, RR.MachineOf(mine).value, RR.MachineOf(peer).value, rnd)
  }

  ghost predicate StepWell(c: Crypto, j: Joint, j': Joint) {
    || (exists p, plaintext, rnd :: SendsWell(c, j, p, plaintext, rnd, j'))
    || (exists p, msg, draw :: Receives(Spqr(c), j, p, msg, draw, j'))
  }

  ghost predicate RunWell(c: Crypto, u: Start, js: seq<Joint>) {
    && js != [] && u.h.bobSigned != u.ratchet && js[0] == Initial(u)
    && forall i | 0 <= i < |js| - 1 :: StepWell(c, js[i], js[i + 1])
  }

  lemma RunWellIsRun(c: Crypto, u: Start, js: seq<Joint>)
    requires RunWell(c, u, js)
    ensures Run(Spqr(c), u, js)
  {
    hide Sends, Receives, Initial;
    forall i | 0 <= i < |js| - 1 ensures Step(Spqr(c), js[i], js[i + 1]) {
      var j, j' := js[i], js[i + 1];
      assert StepWell(c, j, j');
      if p, plaintext, rnd :| SendsWell(c, j, p, plaintext, rnd, j') {
        assert Sends(Spqr(c), j, p, plaintext, rnd, j');
      }
    }
  }

  lemma SentKeyIsNonEmpty(c: Crypto, st: R.State, rnd: Bytes)
    requires R.Send(c, st, rnd).Ok?
    ensures R.NonEmpty(KeyBytes(R.Send(c, st, rnd).value.key)) == R.Send(c, st, rnd).value.key
  {
  }

  /** A send of the session is a send of SPQR. */
  lemma SendOfHalf(c: Crypto, j: Joint, p: Party, plaintext: Bytes, rnd: Bytes, j': Joint)
    requires SendsWell(c, j, p, plaintext, rnd, j')
    ensures A.SendsTo(c, Half(j), p, rnd, Half(j'))
  {
    hide R.Send, A.Room, J.GoodDraw, RR.MachineOf;
    SentKeyIsNonEmpty(c, j.Of(p).pqr, rnd);
    var w := Wire(p, Encrypt(Spqr(c), j.Of(p), plaintext, rnd).value.1);
    assert j'.net == j.net + {w};
    assert Half(j').net == Half(j).net + {PacketOf(w)};
  }

  /** An acceptance of the session is a delivery of SPQR. */
  lemma AcceptOfHalf(c: Crypto, j: Joint, p: Party, msg: SignalMessage, draw: Key, j': Joint)
    requires Receives(Spqr(c), j, p, msg, draw, j') && Wire(Other(p), msg) in j.net
    requires DecryptWithState(Spqr(c), j.Of(p), msg, draw).Ok?
    ensures A.Delivers(c, Half(j), p, PacketOf(Wire(Other(p), msg)), Half(j'))
  {
    hide R.Recv, ReceiverIndex, TakeSeed;
    assert PacketOf(Wire(Other(p), msg)) in Half(j).net;
    assert Half(j').net == Half(j).net;
  }

  lemma InitialHalf(c: Crypto, h: Handshake, kyber: Bytes, ratchet: Key, authKey: Bytes, ownIdentity: bool)
    ensures Half(Initial(StartOf(c, h, kyber, ratchet, authKey, ownIdentity)))
         == A.Initial(c, SetupOf(authKey, ownIdentity))
  {
    hide R.InitialState;
  }

  /** SPQR's own invariant holds at every point of every run of the sessions. */
  lemma {:induction false} HalfInv(c: Crypto, h: Handshake, kyber: Bytes, ratchet: Key, authKey: Bytes,
                                   ownIdentity: bool, js: seq<Joint>, n: nat) returns (l: J.Log)
    requires Sized(c) && RunWell(c, StartOf(c, h, kyber, ratchet, authKey, ownIdentity), js) && n < |js|
    ensures A.Inv(l, Half(js[n])) && l.c == c
    decreases n
  {
    hide A.Inv, SendsWell, Receives, Half, StartOf, SetupOf, Initial, Inv, DecryptWithState;
    if n == 0 {
      var u := SetupOf(authKey, ownIdentity);
      InitialHalf(c, h, kyber, ratchet, authKey, ownIdentity);
      SetupIsOk(authKey, ownIdentity);
      A.InitialInv(c, u);
      l := J.Log(c, u.authKey, [], J.Fresh);
    } else {
      l := HalfInv(c, h, kyber, ratchet, authKey, ownIdentity, js, n - 1);
      var j, j' := js[n - 1], js[n];
      assert StepWell(c, js[n - 1], js[n - 1 + 1]);
      if p, plaintext, rnd :| SendsWell(c, j, p, plaintext, rnd, j') {
        SendOfHalf(c, j, p, plaintext, rnd, j');
        l := A.SendKeepsInv(l, Half(j), p, rnd, Half(j'));
      } else {
        var p, msg, draw :| Receives(Spqr(c), j, p, msg, draw, j');
        var u := StartOf(c, h, kyber, ratchet, authKey, ownIdentity);
        l := ReceiveHalf(c, u, js, n - 1, p, msg, draw, j', l);
      }
    }
  }

  lemma SetupIsOk(authKey: Bytes, ownIdentity: bool)
    ensures SetupOf(authKey, ownIdentity).Ok()
  {
  }

  lemma ReceiveHalf(c: Crypto, u: Start, js: seq<Joint>, n: nat, p: Party, msg: SignalMessage, draw: Key,
                    j': Joint, l: J.Log) returns (l': J.Log)
    requires RunWell(c, u, js) && n < |js| && Receives(Spqr(c), js[n], p, msg, draw, j')
    requires A.Inv(l, Half(js[n])) && l.c == c
    ensures A.Inv(l', Half(j')) && l'.c == c
  {
    hide A.Inv, RunWell, DecryptWithState, Inv, Spqr, MayArrive;
    RunWellIsRun(c, u, js);
    var v := RunInv(Spqr(c), u, js, n);
    l' := l;
    if DecryptWithState(Spqr(c), js[n].Of(p), msg, draw).Ok? {
      AcceptedWasSent(Spqr(c), v, js[n], p, msg, draw);
      AcceptOfHalf(c, js[n], p, msg, draw, j');
      l' := A.DeliverKeepsInv(l, Half(js[n]), p, PacketOf(Wire(Other(p), msg)), Half(j'));
    } else {
      assert j' == js[n];
    }
  }

  /** What SPQR makes of a message the peer sent. */
  lemma SpqrAgrees(c: Crypto, l: J.Log, j: Joint, p: Party, msg: SignalMessage)
    requires A.Inv(l, Half(j)) && l.c == c && Wire(Other(p), msg) in j.net
    ensures var r := R.Recv(c, j.Of(p).pqr, msg.pqr);
      if r.Ok? then KeyBytes(r.value.key) == msg.body.keys.pqr else A.KeyOutOfReach(r.error)
  {
    hide A.Inv, R.Recv;
    var pk := PacketOf(Wire(Other(p), msg));
    var h := Half(j);
    assert pk in h.net;
    var r := R.Recv(c, h.Of(p), pk.wire);
    var h' := if r.Ok? then h.With(p, r.value.state) else h;
    var _ := A.DeliverKeepsInv(l, h, p, pk, h');
  }

  /**
   At every point of every run with good draws, for every message the peer ever sent: SPQR
   either returns the very key that was mixed in or has it no longer in reach, and the
   message is accepted exactly if SPQR has its key and the Double Ratchet serves its
   counter: from the chain it keeps, or on the ratchet key the peer now sends with.
   */
  lemma AcceptedIffServed(c: Crypto, h: Handshake, kyber: Bytes, ratchet: Key, authKey: Bytes, ownIdentity: bool,
                          js: seq<Joint>, n: nat, p: Party, msg: SignalMessage, draw: Key)
    requires Sized(c) && RunWell(c, StartOf(c, h, kyber, ratchet, authKey, ownIdentity), js) && n < |js|
    requires Wire(Other(p), msg) in js[n].net
    ensures msg.counter < UINT32
    ensures var s := js[n].Of(p);
      var r := R.Recv(c, s.pqr, msg.pqr);
      var k := ReceiverIndex(s.receivers, msg.ratchetKey);
      && (if r.Ok? then KeyBytes(r.value.key) == msg.body.keys.pqr else A.KeyOutOfReach(r.error))
      && (Decrypt(Spqr(c), s, msg, draw).1.Ok?
          <==> r.Ok? && (if k < |s.receivers| then WindowOf(s.receivers[k]).Request(msg.counter).1.Served?
                         else msg.ratchetKey == js[n].Of(Other(p)).ours && msg.counter <= MAX_FORWARD_JUMPS))
  {
    hide RunWell, A.Inv, Decrypt, ReceiverIndex, Window.Request, R.Recv, StartOf;
    var u := StartOf(c, h, kyber, ratchet, authKey, ownIdentity);
    var l := HalfInv(c, h, kyber, ratchet, authKey, ownIdentity, js, n);
    SpqrAgrees(c, l, js[n], p, msg);
    RunWellIsRun(c, u, js);
    AcceptedExactly(Spqr(c), u, js, n, p, msg, draw);
  }
}
