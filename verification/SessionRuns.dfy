/**
 Two sessions started from one handshake, over a network that may drop, duplicate, delay,
 reorder, reflect and alter messages and add its own, as long as it cannot seal under keys
 of the session: they stay one DH step apart, and a message is accepted only if the peer
 sent it and at most once, even after the chain it belongs to has been evicted.
 */
module SessionRuns {
  import opened Words
  import opened Parties
  import opened KeyWindow
  import opened KeyCache
  import opened Session
  import R = Ratchet

  datatype Wire = Wire(from: Party, msg: SignalMessage)

  datatype Accepted = Accepted(who: Party, msg: SignalMessage, plaintext: Bytes)

  /** The handshake's secret, both states, every ratchet key drawn, every message sent and everything accepted. */
  datatype Joint = Joint(
    secret: Secret, alice: State, bob: State, used: set<Key>, net: set<Wire>, log: seq<Accepted>)
  {
    function Of(p: Party): (s: State) {
      if p == Alice then alice else bob
    }

    function With(p: Party, s: State): (j: Joint)
      ensures j.Of(p) == s && j.Of(Other(p)) == Of(Other(p)) && j == this.(alice := j.alice, bob := j.bob)
    {
      if p == Alice then this.(alice := s) else this.(bob := s)
    }
  }

  /** What the two parties start from. */
  datatype Start = Start(h: Handshake, kyber: Bytes, ratchet: Key, pqrA: R.State, pqrB: R.State)

  function Initial(u: Start): (j: Joint) {
    Joint(AliceSecret(u.h, u.kyber), InitializeAlice(u.h, u.kyber, u.ratchet, u.pqrA),
          InitializeBob(u.h, u.kyber, u.pqrB), {u.h.bobSigned, u.ratchet}, {}, [])
  }

  ghost predicate Sends(q: Pqr, j: Joint, p: Party, plaintext: Bytes, rnd: Bytes, j': Joint) {
    && j.Of(p).sender.index < UINT32 - 2
    && var r := Encrypt(q, j.Of(p), plaintext, rnd);
       r.Ok? && j' == j.With(p, r.value.0).(net := j.net + {Wire(p, r.value.1)})
  }

  function RootSecret(r: Root): (s: Secret) {
    match r
    case InitialRoot(s) => s
    case RootStep(r', _) => RootSecret(r')
  }

  /** The secret a chain was derived from. */
  function ChainSecret(c: Chain): (s: Secret) {
    match c
    case InitialChain(s) => s
    case ChainStep(r, _) => RootSecret(r)
  }

  /** What the network can deliver: a body some party sealed, under any header, or one sealed with other keys. */
  ghost predicate MayArrive(j: Joint, msg: SignalMessage) {
    (exists w :: w in j.net && w.msg.body == msg.body) || ChainSecret(msg.body.keys.seed.chain) != j.secret
  }

  /** `p` receives whatever arrives, drawing a new ratchet key if it needs one. */
  ghost predicate Receives(q: Pqr, j: Joint, p: Party, msg: SignalMessage, draw: Key, j': Joint) {
    && MayArrive(j, msg) && msg.counter < UINT32 && draw !in j.used
    && var (s, r) := Decrypt(q, j.Of(p), msg, draw);
       match r
       case Ok(plaintext) => j' == j.With(p, s).(used := j.used + {draw}, log := j.log + [Accepted(p, msg, plaintext)])
       case Err(_) => j' == j.With(p, s)
  }

  ghost predicate Step(q: Pqr, j: Joint, j': Joint) {
    || (exists p, plaintext, rnd :: Sends(q, j, p, plaintext, rnd, j'))
    || (exists p, msg, draw :: Receives(q, j, p, msg, draw, j'))
  }

  ghost predicate Run(q: Pqr, u: Start, js: seq<Joint>) {
    && js != [] && u.h.bobSigned != u.ratchet && js[0] == Initial(u)
    && forall i | 0 <= i < |js| - 1 :: Step(q, js[i], js[i + 1])
  }

  // ----- the ratchet keys in the order they were drawn -----

  /** Keys 0, 2, 4, ... are Bob's and 1, 3, 5, ... Alice's. */
  datatype Keys = Keys(secret: Secret, ks: seq<Key>) {
    predicate Ok() {
      |ks| >= 2 && forall i, j | 0 <= i < j < |ks| :: ks[i] != ks[j]
    }

    function RootAt(i: nat): (r: Root)
      requires i < |ks|
    {
      if i == 0 then InitialRoot(secret) else RootStep(RootAt(i - 1), Agree(ks[i - 1], ks[i]))
    }

    function ChainAt(i: nat): (c: Chain)
      requires i < |ks|
    {
      if i == 0 then InitialChain(secret) else ChainStep(RootAt(i - 1), Agree(ks[i - 1], ks[i]))
    }
  }

  function RootDepth(r: Root): (n: nat) {
    match r
    case InitialRoot(_) => 0
    case RootStep(r', _) => 1 + RootDepth(r')
  }

  lemma {:induction false} RootsDiffer(l: Keys, i: nat)
    requires i < |l.ks|
    ensures RootDepth(l.RootAt(i)) == i
    decreases i
  {
    if i > 0 {
      RootsDiffer(l, i - 1);
    }
  }

  lemma {:induction false} KeysGrow(l: Keys, k: Key, i: nat)
    requires i < |l.ks|
    ensures var l' := l.(ks := l.ks + [k]); l'.RootAt(i) == l.RootAt(i) && l'.ChainAt(i) == l.ChainAt(i)
    decreases i
  {
    if i > 0 {
      KeysGrow(l, k, i - 1);
    }
  }

  // ----- one party -----

  function WindowOf(rc: ReceiverChain): (w: Window) {
    Window(rc.chainKey.index, Reverse(Indices(rc.keys)))
  }

  /** The draw whose chain stands at place n of a party's list; the last is the newest seen. */
  function DepthAt(d: nat, count: nat, n: nat): (i: int) {
    d + 1 - 2 * (count - n)
  }

  /** Place n of the list is the chain of the peer's key it should be. */
  ghost predicate ReceiverFits(l: Keys, d: nat, rs: seq<ReceiverChain>, n: nat)
    requires n < |rs|
  {
    var i := DepthAt(d, |rs|, n);
    && 0 <= i < |l.ks| && rs[n].theirs == l.ks[i]
    && Represents(rs[n], l.ChainAt(i), WindowOf(rs[n]))
  }

  /** The party whose sending key is draw d. */
  ghost predicate PartyFits(l: Keys, d: nat, s: State) {
    && d < |l.ks| && s.root == l.RootAt(d) && s.ours == l.ks[d]
    && s.sender.chain == l.ChainAt(d) && s.sender.steps == s.sender.index < UINT32 - 1
    && |s.receivers| <= MAX_RECEIVER_CHAINS && (d > 0 ==> s.receivers != [])
    && forall n | 0 <= n < |s.receivers| :: ReceiverFits(l, d, s.receivers, n)
  }

  /** A message sealed under draw i's chain at its counter. */
  ghost predicate SentOn(l: Keys, i: nat, m: SignalMessage) {
    && i < |l.ks| && m.ratchetKey == l.ks[i] && m.counter < UINT32 - 2
    && m.body.keys.seed == Seed(l.ChainAt(i), m.counter) && m.body.header == m.Head()
  }

  /** Whether the chain of draw i is still in a party's list. */
  predicate Kept(d: nat, s: State, i: nat) {
    i < d && d + 1 - i <= 2 * |s.receivers|
  }

  /** The place of draw i in the list. */
  function PlaceOf(d: nat, s: State, i: nat): (n: nat)
    requires Kept(d, s, i) && i % 2 != d % 2
    ensures n < |s.receivers| && DepthAt(d, |s.receivers|, n) == i
  {
    |s.receivers| - (d + 1 - i) / 2
  }

  lemma FoundAtPlace(l: Keys, d: nat, s: State, i: nat)
    requires l.Ok() && PartyFits(l, d, s) && i < |l.ks| && i % 2 != d % 2
    ensures Kept(d, s, i) ==> ReceiverIndex(s.receivers, l.ks[i]) == PlaceOf(d, s, i)
    ensures !Kept(d, s, i) ==> ReceiverIndex(s.receivers, l.ks[i]) == |s.receivers|
  {
    hide ReceiverIndex, Represents, Keys.ChainAt, Keys.RootAt;
    var n := ReceiverIndex(s.receivers, l.ks[i]);
    if n < |s.receivers| {
      assert ReceiverFits(l, d, s.receivers, n);
    }
    if Kept(d, s, i) {
      var k := PlaceOf(d, s, i);
      assert ReceiverFits(l, d, s.receivers, k);
    }
  }

  /** The post-quantum ratchet recovers the key that was mixed in. */
  predicate PqrAgrees(q: Pqr, s: State, m: SignalMessage) {
    q.recv(s.pqr, m.pqr).Some? && q.recv(s.pqr, m.pqr).value.1 == m.body.keys.pqr
  }

  /** A kept chain: the message is accepted exactly if the window serves it. */
  lemma KeptChain(q: Pqr, l: Keys, d: nat, s: State, i: nat, m: SignalMessage, draw: Key)
    requires l.Ok() && PartyFits(l, d, s) && i % 2 != d % 2 && SentOn(l, i, m) && Kept(d, s, i)
    ensures var n := PlaceOf(d, s, i);
      var w := WindowOf(s.receivers[n]);
      var r := DecryptWithState(q, s, m, draw);
      && w.Ok()
      && (r.Ok? <==> w.Request(m.counter).1.Served? && PqrAgrees(q, s, m))
      && (r.Ok? ==> && r.value.1 == m.body.plaintext && PartyFits(l, d, r.value.0)
                    && |r.value.0.receivers| == |s.receivers|
                    && (forall k | 0 <= k < |s.receivers| && k != n :: r.value.0.receivers[k] == s.receivers[k])
                    && WindowOf(r.value.0.receivers[n]) == w.Request(m.counter).0)
  {
    hide ReceiverIndex, Keys.ChainAt, Keys.RootAt, TakeSeed, Represents, Window.Request;
    FoundAtPlace(l, d, s, i);
    var n := PlaceOf(d, s, i);
    assert ReceiverFits(l, d, s.receivers, n);
    TakesOne(s.receivers[n], l.ChainAt(i), m.counter);
    var r := DecryptWithState(q, s, m, draw);
    if r.Ok? {
      var t := r.value.0;
      forall k | 0 <= k < |t.receivers| ensures ReceiverFits(l, d, t.receivers, k) {
        assert ReceiverFits(l, d, s.receivers, k);
      }
    }
  }

  /** One seed taken from a chain, against the window the chain itself shows. */
  lemma TakesOne(rc: ReceiverChain, chain: Chain, counter: nat)
    requires Represents(rc, chain, WindowOf(rc)) && counter < UINT32 - 2
    ensures var r, (w', answer) := TakeSeed(rc, counter), WindowOf(rc).Request(counter);
      && WindowOf(rc).Ok() && (r.Ok? <==> answer.Served?)
      && (r.Ok? ==> && r.value.1 == Seed(chain, counter) && r.value.0.theirs == rc.theirs
                    && WindowOf(r.value.0) == w' && Represents(r.value.0, chain, w'))
  {
    hide TakeSeed, Window.Request, Indices, Reverse;
    TakeSeedRefines(rc, chain, WindowOf(rc), counter);
  }

  /** What a DH step adds to the list, and what moves. */
  lemma StepShape(s: State, theirs: Key, draw: Key)
    requires ReceiverIndex(s.receivers, theirs) == |s.receivers| <= MAX_RECEIVER_CHAINS
    ensures var rs := DhStep(s, theirs, draw).receivers;
      && 1 <= |rs| <= MAX_RECEIVER_CHAINS && |rs| <= |s.receivers| + 1
      && rs[|rs| - 1] == ReceiverChain(theirs, ChainKey(ChainStep(s.root, Agree(theirs, s.ours)), 0, 0), [])
      && (forall n | 0 <= n < |rs| - 1 :: rs[n] == s.receivers[n + |s.receivers| + 1 - |rs|])
      && ReceiverIndex(rs, theirs) == |rs| - 1
  {
    hide ReceiverIndex;
    var rs := DhStep(s, theirs, draw).receivers;
    var n := ReceiverIndex(rs, theirs);
  }

  lemma EmptyWindow(theirs: Key, chain: Chain)
    ensures var rc := ReceiverChain(theirs, ChainKey(chain, 0, 0), []);
      WindowOf(rc) == Window(0, []) && Represents(rc, chain, WindowOf(rc))
  {
  }

  /** The chain of a draw that is neither kept nor next: nothing it carries is accepted again. */
  lemma EvictedChain(q: Pqr, l: Keys, d: nat, s: State, i: nat, m: SignalMessage, draw: Key)
    requires l.Ok() && PartyFits(l, d, s) && i % 2 != d % 2 && SentOn(l, i, m) && i < d && !Kept(d, s, i)
    ensures DecryptWithState(q, s, m, draw).Err?
  {
    hide ReceiverIndex, DhStep, TakeSeed, Represents, Window.Request, Keys.RootAt;
    FoundAtPlace(l, d, s, i);
    StepShape(s, m.ratchetKey, draw);
    var chain := ChainStep(s.root, Agree(m.ratchetKey, s.ours));
    EmptyWindow(m.ratchetKey, chain);
    TakesOne(ReceiverChain(m.ratchetKey, ChainKey(chain, 0, 0), []), chain, m.counter);
    RootsDiffer(l, d);
    if i > 0 {
      RootsDiffer(l, i - 1);
    }
    assert chain != l.ChainAt(i);
  }

  /** The peer's newest key, seen for the first time: a DH step that meets the peer's chain. */
  lemma NewChain(q: Pqr, l: Keys, d: nat, s: State, m: SignalMessage, draw: Key)
    requires l.Ok() && PartyFits(l, d, s) && |l.ks| == d + 2 && SentOn(l, d + 1, m)
    ensures var r := DecryptWithState(q, s, m, draw);
      && (r.Ok? <==> m.counter <= MAX_FORWARD_JUMPS && PqrAgrees(q, s, m))
      && (r.Ok? ==>
            && r.value.1 == m.body.plaintext
            && PartyFits(l.(ks := l.ks + [draw]), d + 2, r.value.0)
            && var rs, was := r.value.0.receivers, s.receivers;
               && 1 <= |rs| <= |was| + 1
               && (forall n | 0 <= n < |rs| - 1 :: rs[n] == was[n + |was| + 1 - |rs|])
               && m.counter < WindowOf(rs[|rs| - 1]).next && m.counter !in WindowOf(rs[|rs| - 1]).held)
  {
    hide ReceiverIndex, TakeSeed, Represents, AddReceiver;
    FoundAtPlace(l, d, s, d + 1);
    StepShape(s, m.ratchetKey, draw);
    var chain := l.ChainAt(d + 1);
    AgreeCommutes(m.ratchetKey, s.ours);
    EmptyWindow(m.ratchetKey, chain);
    TakesOne(ReceiverChain(m.ratchetKey, ChainKey(chain, 0, 0), []), chain, m.counter);
    var r := DecryptWithState(q, s, m, draw);
    if r.Ok? {
      NewStateFits(l, d, s, m.ratchetKey, draw, r.value.0);
      UpToMisses(m.counter);
    }
  }

  /** A window just moved past an index does not hold it. */
  lemma UpToMisses(i: nat)
    requires i <= MAX_FORWARD_JUMPS
    ensures var w := Window(0, []).Request(i).0; i < w.next && i !in w.held
  {
    SkippedBelow(Window(0, []), i);
  }

  lemma NewStateFits(l: Keys, d: nat, s: State, theirs: Key, draw: Key, t: State)
    requires l.Ok() && PartyFits(l, d, s) && |l.ks| == d + 2 && theirs == l.ks[d + 1]
    requires ReceiverIndex(s.receivers, theirs) == |s.receivers|
    requires var u := DhStep(s, theirs, draw);
      && t.root == u.root && t.ours == u.ours && t.sender == u.sender && |t.receivers| == |u.receivers| >= 1
      && (forall n | 0 <= n < |t.receivers| - 1 :: t.receivers[n] == u.receivers[n])
    requires var rc := t.receivers[|t.receivers| - 1];
      rc.theirs == theirs && Represents(rc, l.ChainAt(d + 1), WindowOf(rc))
    ensures PartyFits(l.(ks := l.ks + [draw]), d + 2, t)
  {
    hide ReceiverIndex, Represents, AddReceiver;
    StepShape(s, theirs, draw);
    AgreeCommutes(theirs, s.ours);
    var l' := l.(ks := l.ks + [draw]);
    KeysGrow(l, draw, d);
    KeysGrow(l, draw, d + 1);
    var e := d + 2;
    forall n | 0 <= n < |t.receivers| ensures ReceiverFits(l', e, t.receivers, n) {
      if n < |t.receivers| - 1 {
        var k := n + |s.receivers| + 1 - |t.receivers|;
        assert ReceiverFits(l, d, s.receivers, k);
        KeysGrow(l, draw, DepthAt(d, |s.receivers|, k));
      }
    }
  }

  // ----- both parties -----

  /** The draws so far and which of them each party sends with. */
  datatype View = View(l: Keys, alice: nat, bob: nat) {
    function D(p: Party): (d: nat) {
      if p == Alice then alice else bob
    }

    /** One party has made exactly one DH step more than the other. */
    predicate Ok() {
      && l.Ok() && alice % 2 == 1 && bob % 2 == 0
      && (alice == bob + 1 || bob == alice + 1)
      && |l.ks| == (if alice > bob then alice else bob) + 1
    }
  }

  ghost predicate WireFits(v: View, j: Joint, w: Wire) {
    exists i: nat :: SentOn(v.l, i, w.msg) && i <= v.D(w.from) && i % 2 == v.D(w.from) % 2
  }

  /** A counter the window has served, or will never serve. */
  predicate Gone(w: Window, counter: nat) {
    counter < w.next && counter !in w.held
  }

  ghost predicate EventFitsAt(v: View, j: Joint, e: Accepted, i: nat) {
    var d, s := v.D(e.who), j.Of(e.who);
    && SentOn(v.l, i, e.msg) && i < d && i % 2 != d % 2
    && (Kept(d, s, i) ==> Gone(WindowOf(s.receivers[PlaceOf(d, s, i)]), e.msg.counter))
  }

  ghost predicate EventFits(v: View, j: Joint, e: Accepted) {
    && Wire(Other(e.who), e.msg) in j.net && e.plaintext == e.msg.body.plaintext
    && exists i: nat :: EventFitsAt(v, j, e, i)
  }

  predicate SameMessage(a: Accepted, b: Accepted) {
    a.who == b.who && a.msg.ratchetKey == b.msg.ratchetKey && a.msg.counter == b.msg.counter
  }

  ghost predicate Inv(v: View, j: Joint) {
    && v.Ok() && v.l.secret == j.secret && PartyFits(v.l, v.alice, j.alice) && PartyFits(v.l, v.bob, j.bob)
    && (forall i | 0 <= i < |v.l.ks| :: v.l.ks[i] in j.used)
    && (forall w | w in j.net :: WireFits(v, j, w))
    && (forall e | e in j.log :: EventFits(v, j, e))
    && (forall a, b | 0 <= a < b < |j.log| :: !SameMessage(j.log[a], j.log[b]))
  }

  lemma InitialInv(u: Start)
    requires u.h.bobSigned != u.ratchet
    ensures Inv(View(Keys(AliceSecret(u.h, u.kyber), [u.h.bobSigned, u.ratchet]), 1, 0), Initial(u))
  {
    SecretsMatch(u.h, u.kyber);
    var l := Keys(AliceSecret(u.h, u.kyber), [u.h.bobSigned, u.ratchet]);
    var s := InitializeAlice(u.h, u.kyber, u.ratchet, u.pqrA);
    EmptyWindow(u.h.bobSigned, l.ChainAt(0));
    hide Represents;
    assert l.RootAt(0) == InitialRoot(l.secret) && l.ChainAt(0) == InitialChain(l.secret);
    assert l.RootAt(1) == s.root && l.ChainAt(1) == s.sender.chain;
    assert ReceiverFits(l, 1, s.receivers, 0);
    assert PartyFits(l, 1, s);
    assert PartyFits(l, 0, InitializeBob(u.h, u.kyber, u.pqrB));
  }

  lemma SentOnUnique(l: Keys, i: nat, k: nat, m: SignalMessage, n: SignalMessage)
    requires l.Ok() && SentOn(l, i, m) && SentOn(l, k, n) && m.ratchetKey == n.ratchetKey
    ensures i == k
  {
  }

  lemma SendKeepsInv(q: Pqr, v: View, j: Joint, p: Party, plaintext: Bytes, rnd: Bytes, j': Joint)
    requires Inv(v, j) && Sends(q, j, p, plaintext, rnd, j')
    ensures Inv(v, j')
  {
    hide ReceiverFits, Keys.ChainAt, Keys.RootAt, EventFitsAt, SentOn, SameMessage;
    var s, s' := j.Of(p), j'.Of(p);
    var m := Encrypt(q, s, plaintext, rnd).value.1;
    assert SentOn(v.l, v.D(p), m) by { FreshMessage(q, v.l, v.D(p), s, plaintext, rnd); }
    assert s'.receivers == s.receivers;
    forall w | w in j'.net ensures WireFits(v, j', w) {
      if w in j.net {
        assert WireFits(v, j, w);
      }
    }
    forall e | e in j'.log ensures EventFits(v, j', e) {
      assert EventFits(v, j, e);
      var i: nat :| EventFitsAt(v, j, e, i);
      EventMoves(v, j, v, j', e, i);
    }
  }

  lemma FreshMessage(q: Pqr, l: Keys, d: nat, s: State, plaintext: Bytes, rnd: Bytes)
    requires PartyFits(l, d, s) && s.sender.index < UINT32 - 2 && Encrypt(q, s, plaintext, rnd).Ok?
    ensures SentOn(l, d, Encrypt(q, s, plaintext, rnd).value.1)
  {
  }

  /** An event still fits when its party's list is unchanged. */
  lemma EventMoves(v: View, j: Joint, v': View, j': Joint, e: Accepted, i: nat)
    requires EventFitsAt(v, j, e, i) && v'.D(e.who) == v.D(e.who)
    requires j'.Of(e.who).receivers == j.Of(e.who).receivers
    requires SentOn(v.l, i, e.msg) ==> SentOn(v'.l, i, e.msg)
    ensures EventFitsAt(v', j', e, i)
  {
  }

  lemma SentOnGrows(l: Keys, k: Key, i: nat, m: SignalMessage)
    requires SentOn(l, i, m)
    ensures SentOn(l.(ks := l.ks + [k]), i, m)
  {
    KeysGrow(l, k, i);
  }

  lemma PartyGrows(l: Keys, k: Key, d: nat, s: State)
    requires PartyFits(l, d, s)
    ensures PartyFits(l.(ks := l.ks + [k]), d, s)
  {
    hide Represents;
    var l' := l.(ks := l.ks + [k]);
    KeysGrow(l, k, d);
    forall n | 0 <= n < |s.receivers| ensures ReceiverFits(l', d, s.receivers, n) {
      assert ReceiverFits(l, d, s.receivers, n);
      KeysGrow(l, k, DepthAt(d, |s.receivers|, n));
    }
  }

  /** What is gone from a window stays gone, and a served counter is gone. */
  lemma GoneStays(w: Window, i: nat, counter: nat)
    requires w.Ok()
    ensures Gone(w, counter) ==> Gone(w.Request(i).0, counter)
    ensures w.Request(i).1.Served? ==> Gone(w.Request(i).0, i)
    ensures Gone(w, i) ==> !w.Request(i).1.Served?
  {
    hide Remove, Window.Skipped;
    RemoveIs(w.held, i);
    SkippedBelow(w, i);
  }

  // ----- only what the peer sent is accepted -----

  lemma {:induction false} SecretAt(l: Keys, i: nat)
    requires i < |l.ks|
    ensures RootSecret(l.RootAt(i)) == l.secret && ChainSecret(l.ChainAt(i)) == l.secret
    decreases i
  {
    if i > 0 {
      SecretAt(l, i - 1);
    }
  }

  lemma {:induction false} SkipKeepsChain(c: ChainKey, keys: seq<Entry<Seed>>, counter: nat)
    requires c.index <= counter < UINT32
    ensures SkipTo(c, keys, counter).0.chain == c.chain
    decreases counter - c.index
  {
    hide CacheKeys;
    if c.index < counter {
      SkipKeepsChain(c.Next(), CacheKeys(keys, Entry(c.index, c.MessageSeed())), counter);
    }
  }

  lemma SeedOnChain(rc: ReceiverChain, counter: nat)
    requires Seeded(rc.chainKey.chain, rc.keys) && counter < UINT32
    ensures var r := TakeSeed(rc, counter); r.Ok? ==> r.value.1.chain == rc.chainKey.chain
  {
    hide SkipTo, DropAt;
    if rc.chainKey.index <= counter {
      SkipKeepsChain(rc.chainKey, rc.keys, counter);
    }
  }

  /** Whatever is accepted was sealed with keys of the session, under the header it came with. */
  lemma AcceptedIsSealed(q: Pqr, l: Keys, d: nat, s: State, m: SignalMessage, draw: Key)
    requires l.Ok() && PartyFits(l, d, s) && m.counter < UINT32 && DecryptWithState(q, s, m, draw).Ok?
    ensures m.body.header == m.Head() && ChainSecret(m.body.keys.seed.chain) == l.secret
  {
    hide ReceiverIndex, TakeSeed, AddReceiver, Keys.ChainAt, Keys.RootAt, WindowOf;
    var s1 := WithChain(s, m.ratchetKey, draw);
    var n := ReceiverIndex(s1.receivers, m.ratchetKey);
    SecretAt(l, d);
    if s1 == s {
      assert ReceiverFits(l, d, s.receivers, n);
      SecretAt(l, DepthAt(d, |s.receivers|, n));
    } else {
      StepShape(s, m.ratchetKey, draw);
    }
    SeedOnChain(s1.receivers[n], m.counter);
  }

  /** A party refuses its own messages. */
  lemma ReflectedIsRefused(q: Pqr, l: Keys, d: nat, s: State, i: nat, m: SignalMessage, draw: Key)
    requires l.Ok() && PartyFits(l, d, s) && i % 2 == d % 2 && i <= d && SentOn(l, i, m)
    ensures DecryptWithState(q, s, m, draw).Err?
  {
    hide ReceiverIndex, DhStep, TakeSeed, Represents, Window.Request, Keys.RootAt;
    forall n | 0 <= n < |s.receivers| ensures s.receivers[n].theirs != m.ratchetKey {
      assert ReceiverFits(l, d, s.receivers, n);
    }
    StepShape(s, m.ratchetKey, draw);
    var chain := ChainStep(s.root, Agree(m.ratchetKey, s.ours));
    EmptyWindow(m.ratchetKey, chain);
    TakesOne(ReceiverChain(m.ratchetKey, ChainKey(chain, 0, 0), []), chain, m.counter);
    RootsDiffer(l, d);
    if i > 0 {
      RootsDiffer(l, i - 1);
    }
    assert chain != l.ChainAt(i);
  }

  /** What a party accepts, its peer has sent. */
  lemma AcceptedWasSent(q: Pqr, v: View, j: Joint, p: Party, msg: SignalMessage, draw: Key)
    requires Inv(v, j) && MayArrive(j, msg) && msg.counter < UINT32
    requires DecryptWithState(q, j.Of(p), msg, draw).Ok?
    ensures Wire(Other(p), msg) in j.net
  {
    hide PartyFits, DecryptWithState, EventFits, SameMessage, Keys.ChainAt;
    AcceptedIsSealed(q, v.l, v.D(p), j.Of(p), msg, draw);
    var w :| w in j.net && w.msg.body == msg.body;
    assert WireFits(v, j, w);
    var i: nat :| SentOn(v.l, i, w.msg) && i <= v.D(w.from) && i % 2 == v.D(w.from) % 2;
    assert w.msg == msg;
    if w.from == p {
      ReflectedIsRefused(q, v.l, v.D(p), j.Of(p), i, msg, draw);
    }
  }

  // ----- receiving -----

  /** The log grows by one event that is like no earlier one of the same party. */
  lemma LogGrows(j: Joint, j': Joint, e: Accepted)
    requires j'.log == j.log + [e]
    requires forall a, b | 0 <= a < b < |j.log| :: !SameMessage(j.log[a], j.log[b])
    requires forall x | x in j.log :: !SameMessage(x, e)
    ensures forall a, b | 0 <= a < b < |j'.log| :: !SameMessage(j'.log[a], j'.log[b])
  {
    forall a, b | 0 <= a < b < |j'.log| ensures !SameMessage(j'.log[a], j'.log[b]) {
      if b == |j.log| {
        assert j'.log[a] in j.log;
      }
    }
  }

  /** After an acceptance on a kept chain an event of the same party still fits. */
  lemma KeptEvent(q: Pqr, v: View, j: Joint, p: Party, msg: SignalMessage, draw: Key, i: nat, j': Joint,
                  e: Accepted, k: nat)
    requires v.Ok() && PartyFits(v.l, v.D(p), j.Of(p)) && SentOn(v.l, i, msg)
    requires i % 2 != v.D(p) % 2 && Kept(v.D(p), j.Of(p), i)
    requires var r := DecryptWithState(q, j.Of(p), msg, draw); r.Ok? && j'.Of(p) == r.value.0
    requires e.who == p && EventFitsAt(v, j, e, k)
    ensures EventFitsAt(v, j', e, k)
    ensures !SameMessage(e, Accepted(p, msg, msg.body.plaintext))
  {
    hide PartyFits, SentOn, DecryptWithState, Window.Request, WindowOf, Gone;
    var d, s := v.D(p), j.Of(p);
    KeptChain(q, v.l, d, s, i, msg, draw);
    var w := WindowOf(s.receivers[PlaceOf(d, s, i)]);
    GoneStays(w, msg.counter, e.msg.counter);
    GoneStays(w, msg.counter, msg.counter);
    if e.msg.ratchetKey == msg.ratchetKey {
      SentOnUnique(v.l, k, i, e.msg, msg);
    }
  }

  lemma KeptAccept(q: Pqr, v: View, j: Joint, p: Party, msg: SignalMessage, draw: Key, i: nat, j': Joint)
    requires Inv(v, j) && Receives(q, j, p, msg, draw, j') && DecryptWithState(q, j.Of(p), msg, draw).Ok?
    requires Wire(Other(p), msg) in j.net
    requires SentOn(v.l, i, msg) && i % 2 != v.D(p) % 2 && Kept(v.D(p), j.Of(p), i)
    ensures Inv(v, j')
  {
    hide PartyFits, SentOn, DecryptWithState, EventFitsAt, SameMessage;
    KeptChain(q, v.l, v.D(p), j.Of(p), i, msg, draw);
    var latest := Accepted(p, msg, msg.body.plaintext);
    forall e | e in j.log ensures EventFits(v, j', e) && !SameMessage(e, latest) {
      assert EventFits(v, j, e);
      var k: nat :| EventFitsAt(v, j, e, k);
      if e.who == p {
        KeptEvent(q, v, j, p, msg, draw, i, j', e, k);
      } else {
        EventMoves(v, j, v, j', e, k);
        OtherParty(e, latest);
      }
    }
    KeptNewEvent(q, v, j, p, msg, draw, i, j');
    LogGrows(j, j', latest);
    forall w | w in j'.net ensures WireFits(v, j', w) {
      assert WireFits(v, j, w);
    }
  }

  lemma OtherParty(a: Accepted, b: Accepted)
    requires a.who != b.who
    ensures !SameMessage(a, b)
  {
  }

  lemma KeptNewEvent(q: Pqr, v: View, j: Joint, p: Party, msg: SignalMessage, draw: Key, i: nat, j': Joint)
    requires v.Ok() && PartyFits(v.l, v.D(p), j.Of(p)) && SentOn(v.l, i, msg)
    requires i % 2 != v.D(p) % 2 && Kept(v.D(p), j.Of(p), i)
    requires var r := DecryptWithState(q, j.Of(p), msg, draw); r.Ok? && j'.Of(p) == r.value.0
    ensures EventFitsAt(v, j', Accepted(p, msg, msg.body.plaintext), i)
  {
    hide PartyFits, DecryptWithState, Window.Request, WindowOf, Gone;
    var d, s := v.D(p), j.Of(p);
    KeptChain(q, v.l, d, s, i, msg, draw);
    GoneStays(WindowOf(s.receivers[PlaceOf(d, s, i)]), msg.counter, msg.counter);
  }

  // ----- a new ratchet key -----

  function Advanced(v: View, p: Party, draw: Key): (v': View) {
    var l := v.l.(ks := v.l.ks + [draw]);
    if p == Alice then View(l, v.alice + 2, v.bob) else View(l, v.alice, v.bob + 2)
  }

  /** After a DH step, the chains still in the list are the ones they were. */
  lemma StepEvent(q: Pqr, v: View, j: Joint, p: Party, msg: SignalMessage, draw: Key, j': Joint, e: Accepted, k: nat)
    requires v.Ok() && PartyFits(v.l, v.D(p), j.Of(p)) && |v.l.ks| == v.D(p) + 2 && SentOn(v.l, v.D(p) + 1, msg)
    requires var r := DecryptWithState(q, j.Of(p), msg, draw); r.Ok? && j'.Of(p) == r.value.0
    requires e.who == p && EventFitsAt(v, j, e, k)
    ensures EventFitsAt(Advanced(v, p, draw), j', e, k)
    ensures !SameMessage(e, Accepted(p, msg, msg.body.plaintext))
  {
    hide PartyFits, SentOn, DecryptWithState, WindowOf, Gone;
    var d, s, t := v.D(p), j.Of(p), j'.Of(p);
    NewChain(q, v.l, d, s, msg, draw);
    SentOnGrows(v.l, draw, k, e.msg);
    if e.msg.ratchetKey == msg.ratchetKey {
      SentOnUnique(v.l, k, d + 1, e.msg, msg);
    }
    if Kept(d + 2, t, k) {
      assert Kept(d, s, k);
      assert PlaceOf(d, s, k) == PlaceOf(d + 2, t, k) + |s.receivers| + 1 - |t.receivers|;
    }
  }

  lemma StepAccept(q: Pqr, v: View, j: Joint, p: Party, msg: SignalMessage, draw: Key, j': Joint)
    requires Inv(v, j) && Receives(q, j, p, msg, draw, j') && DecryptWithState(q, j.Of(p), msg, draw).Ok?
    requires Wire(Other(p), msg) in j.net
    requires SentOn(v.l, v.D(p) + 1, msg)
    ensures Inv(Advanced(v, p, draw), j')
  {
    hide PartyFits, SentOn, DecryptWithState, EventFitsAt, SameMessage;
    var d, v' := v.D(p), Advanced(v, p, draw);
    assert |v.l.ks| == d + 2 by { SentOnInRange(v.l, d + 1, msg); }
    NewChain(q, v.l, d, j.Of(p), msg, draw);
    PartyGrows(v.l, draw, v.D(Other(p)), j.Of(Other(p)));
    var latest := Accepted(p, msg, msg.body.plaintext);
    forall e | e in j.log ensures EventFits(v', j', e) && !SameMessage(e, latest) {
      assert EventFits(v, j, e);
      var k: nat :| EventFitsAt(v, j, e, k);
      if e.who == p {
        StepEvent(q, v, j, p, msg, draw, j', e, k);
      } else {
        EventSent(v, j, e, k);
        SentOnGrows(v.l, draw, k, e.msg);
        EventMoves(v, j, v', j', e, k);
        OtherParty(e, latest);
      }
    }
    StepNewEvent(q, v, j, p, msg, draw, j');
    LogGrows(j, j', latest);
    forall w | w in j'.net ensures WireFits(v', j', w) {
      assert WireFits(v, j, w);
      var i: nat :| SentOn(v.l, i, w.msg) && i <= v.D(w.from) && i % 2 == v.D(w.from) % 2;
      SentOnGrows(v.l, draw, i, w.msg);
    }
  }

  lemma SentOnInRange(l: Keys, i: nat, m: SignalMessage)
    requires SentOn(l, i, m)
    ensures i < |l.ks|
  {
  }

  lemma EventSent(v: View, j: Joint, e: Accepted, k: nat)
    requires EventFitsAt(v, j, e, k)
    ensures SentOn(v.l, k, e.msg)
  {
  }

  lemma StepNewEvent(q: Pqr, v: View, j: Joint, p: Party, msg: SignalMessage, draw: Key, j': Joint)
    requires v.Ok() && PartyFits(v.l, v.D(p), j.Of(p)) && |v.l.ks| == v.D(p) + 2 && SentOn(v.l, v.D(p) + 1, msg)
    requires var r := DecryptWithState(q, j.Of(p), msg, draw); r.Ok? && j'.Of(p) == r.value.0
    ensures EventFitsAt(Advanced(v, p, draw), j', Accepted(p, msg, msg.body.plaintext), v.D(p) + 1)
  {
    hide PartyFits, SentOn, DecryptWithState, WindowOf;
    var d := v.D(p);
    NewChain(q, v.l, d, j.Of(p), msg, draw);
    SentOnGrows(v.l, draw, d + 1, msg);
  }

  lemma RejectedStays(q: Pqr, j: Joint, p: Party, msg: SignalMessage, draw: Key, j': Joint)
    requires Receives(q, j, p, msg, draw, j') && DecryptWithState(q, j.Of(p), msg, draw).Err?
    ensures j' == j
  {
    hide DecryptWithState, MayArrive;
  }

  /** Every delivery keeps the invariant; the view changes only with a DH step. */
  lemma ReceiveKeepsInv(q: Pqr, v: View, j: Joint, p: Party, msg: SignalMessage, draw: Key, j': Joint)
    returns (v': View)
    requires Inv(v, j) && Receives(q, j, p, msg, draw, j')
    ensures Inv(v', j')
  {
    hide Inv, SentOn, DecryptWithState;
    v' := v;
    if DecryptWithState(q, j.Of(p), msg, draw).Err? {
      RejectedStays(q, j, p, msg, draw, j');
    } else {
      AcceptedWasSent(q, v, j, p, msg, draw);
      var i := DrawOf(v, j, Wire(Other(p), msg));
      var d := v.D(p);
      if i == d + 1 {
        StepAccept(q, v, j, p, msg, draw, j');
        v' := Advanced(v, p, draw);
      } else if Kept(d, j.Of(p), i) {
        KeptAccept(q, v, j, p, msg, draw, i, j');
      } else {
        EvictedIsRefused(q, v, j, p, msg, draw, i);
      }
    }
  }

  /** The draw a message in the network was sent on. */
  lemma DrawOf(v: View, j: Joint, w: Wire) returns (i: nat)
    requires Inv(v, j) && w in j.net
    ensures SentOn(v.l, i, w.msg) && i <= v.D(w.from) && i % 2 == v.D(w.from) % 2 && i <= v.D(Other(w.from)) + 1
    ensures i % 2 != v.D(Other(w.from)) % 2
  {
    hide PartyFits, EventFits, SameMessage, SentOn;
    assert WireFits(v, j, w);
    i :| SentOn(v.l, i, w.msg) && i <= v.D(w.from) && i % 2 == v.D(w.from) % 2;
  }

  lemma EvictedIsRefused(q: Pqr, v: View, j: Joint, p: Party, msg: SignalMessage, draw: Key, i: nat)
    requires Inv(v, j) && SentOn(v.l, i, msg) && i % 2 != v.D(p) % 2 && i < v.D(p) && !Kept(v.D(p), j.Of(p), i)
    ensures msg.counter < UINT32 && DecryptWithState(q, j.Of(p), msg, draw).Err?
  {
    hide PartyFits, EventFits, SameMessage, DecryptWithState, WireFits;
    EvictedChain(q, v.l, v.D(p), j.Of(p), i, msg, draw);
  }

  lemma StepKeepsInv(q: Pqr, v: View, j: Joint, j': Joint) returns (v': View)
    requires Inv(v, j) && Step(q, j, j')
    ensures Inv(v', j')
  {
    hide Inv, Sends, Receives;
    v' := v;
    if p, plaintext, rnd :| Sends(q, j, p, plaintext, rnd, j') {
      SendKeepsInv(q, v, j, p, plaintext, rnd, j');
    } else {
      var p, msg, draw :| Receives(q, j, p, msg, draw, j');
      v' := ReceiveKeepsInv(q, v, j, p, msg, draw, j');
    }
  }

  lemma {:induction false} RunInv(q: Pqr, u: Start, js: seq<Joint>, n: nat)
    returns (v: View)
    requires Run(q, u, js) && n < |js|
    ensures Inv(v, js[n])
    decreases n
  {
    hide Inv, Step;
    if n == 0 {
      InitialInv(u);
      v := View(Keys(AliceSecret(u.h, u.kyber), [u.h.bobSigned, u.ratchet]), 1, 0);
    } else {
      v := RunInv(q, u, js, n - 1);
      assert Step(q, js[n - 1], js[n - 1 + 1]);
      v := StepKeepsInv(q, v, js[n - 1], js[n]);
    }
  }

  /** Roots are exactly one DH step apart, over the two sending keys. */
  predicate OneStepApart(a: State, b: State) {
    || a.root == RootStep(b.root, Agree(a.ours, b.ours))
    || b.root == RootStep(a.root, Agree(a.ours, b.ours))
  }

  /** At every point of every run the two roots are one DH step apart. */
  lemma RunsStayOneStepApart(q: Pqr, u: Start, js: seq<Joint>, n: nat)
    requires Run(q, u, js) && n < |js|
    ensures OneStepApart(js[n].alice, js[n].bob)
  {
    var v := RunInv(q, u, js, n);
    hide Run, EventFits, WireFits, ReceiverFits, SameMessage;
    AgreeCommutes(js[n].alice.ours, js[n].bob.ours);
  }

  /**
   In every run, every accepted message was sent by the peer, was opened to the plaintext
   sealed in it, and no party accepts two messages of one ratchet key and counter.
   */
  lemma AcceptedOnce(q: Pqr, u: Start, js: seq<Joint>, n: nat, a: nat)
    requires Run(q, u, js) && n < |js| && a < |js[n].log|
    ensures var e := js[n].log[a]; Wire(Other(e.who), e.msg) in js[n].net && e.plaintext == e.msg.body.plaintext
    ensures forall b | 0 <= b < |js[n].log| && b != a :: !SameMessage(js[n].log[a], js[n].log[b])
  {
    var v := RunInv(q, u, js, n);
    hide Run, WireFits, PartyFits, EventFitsAt;
    assert EventFits(v, js[n], js[n].log[a]);
  }

  /**
   At every point of every run, a message the peer sent is accepted exactly if the
   post-quantum key agrees and either its chain is kept and still serves its counter, or
   its ratchet key is the one the peer now sends with and the counter is within the jump.
   */
  lemma AcceptedExactly(q: Pqr, u: Start,
                        js: seq<Joint>, n: nat, p: Party, msg: SignalMessage, draw: Key)
    requires Run(q, u, js) && n < |js| && Wire(Other(p), msg) in js[n].net
    ensures msg.counter < UINT32
    ensures var s := js[n].Of(p);
      var k := ReceiverIndex(s.receivers, msg.ratchetKey);
      Decrypt(q, s, msg, draw).1.Ok?
      <==> PqrAgrees(q, s, msg)
           && (if k < |s.receivers| then WindowOf(s.receivers[k]).Request(msg.counter).1.Served?
               else msg.ratchetKey == js[n].Of(Other(p)).ours && msg.counter <= MAX_FORWARD_JUMPS)
  {
    var j := js[n];
    var v := RunInv(q, u, js, n);
    hide Run, DecryptWithState, ReceiverIndex, ReceiverFits, SentOn, EventFits, SameMessage, Keys.RootAt,
      Keys.ChainAt, Window.Request;
    assert WireFits(v, j, Wire(Other(p), msg));
    var i: nat :| SentOn(v.l, i, msg) && i <= v.D(Other(p)) && i % 2 == v.D(Other(p)) % 2;
    var d, s := v.D(p), j.Of(p);
    SentOnKey(v.l, i, msg);
    FoundAtPlace(v.l, d, s, i);
    if i == d + 1 {
      NewChain(q, v.l, d, s, msg, draw);
    } else if Kept(d, s, i) {
      KeptChain(q, v.l, d, s, i, msg, draw);
    } else {
      EvictedChain(q, v.l, d, s, i, msg, draw);
      assert Kept(d, s, d - 1);
    }
  }

  lemma SentOnKey(l: Keys, i: nat, m: SignalMessage)
    requires SentOn(l, i, m)
    ensures i < |l.ks| && m.ratchetKey == l.ks[i] && m.counter < UINT32 - 2
  {
  }

  // ----- no key is used twice -----

  /** Messages on a party's current key are below its counter, and no two sent messages share key and counter. */
  ghost predicate SentOnce(j: Joint) {
    && (forall w | w in j.net && w.msg.ratchetKey == j.Of(w.from).ours :: w.msg.counter < j.Of(w.from).sender.index)
    && (forall w, x | w in j.net && x in j.net && w.from == x.from
                      && w.msg.ratchetKey == x.msg.ratchetKey && w.msg.counter == x.msg.counter :: w == x)
  }

  lemma SendKeepsOnce(q: Pqr, v: View, j: Joint, p: Party, plaintext: Bytes, rnd: Bytes, j': Joint)
    requires Inv(v, j) && SentOnce(j) && Sends(q, j, p, plaintext, rnd, j')
    ensures SentOnce(j')
  {
    hide PartyFits, EventFits, WireFits, SameMessage;
    assert j.Of(p).sender.index < UINT32 - 2;
  }

  lemma ReceiveKeepsOnce(q: Pqr, v: View, j: Joint, p: Party, msg: SignalMessage, draw: Key, j': Joint)
    requires Inv(v, j) && SentOnce(j) && Receives(q, j, p, msg, draw, j')
    ensures SentOnce(j')
  {
    hide PartyFits, EventFits, SameMessage, TakeSeed, ReceiverIndex;
    forall w | w in j'.net && w.msg.ratchetKey == j'.Of(w.from).ours
      ensures w.msg.counter < j'.Of(w.from).sender.index
    {
      assert WireFits(v, j, w);
      var i: nat :| SentOn(v.l, i, w.msg);
      assert w.msg.ratchetKey in j.used;
    }
  }

  lemma {:induction false} RunsSendOnce(q: Pqr, u: Start, js: seq<Joint>, n: nat)
    requires Run(q, u, js) && n < |js|
    ensures SentOnce(js[n])
    decreases n
  {
    hide Inv, Sends, Receives, SentOnce;
    if n == 0 {
      NothingSent(u);
    } else {
      RunsSendOnce(q, u, js, n - 1);
      var v := RunInv(q, u, js, n - 1);
      var j, j' := js[n - 1], js[n];
      assert Step(q, js[n - 1], js[n - 1 + 1]);
      if p, plaintext, rnd :| Sends(q, j, p, plaintext, rnd, j') {
        SendKeepsOnce(q, v, j, p, plaintext, rnd, j');
      } else {
        var p, msg, draw :| Receives(q, j, p, msg, draw, j');
        ReceiveKeepsOnce(q, v, j, p, msg, draw, j');
      }
    }
  }

  lemma NothingSent(u: Start)
    ensures SentOnce(Initial(u))
  {
  }
}
