/**
 The Double Ratchet session: key derivation as free terms, so that two keys are equal
 only if they were derived in the same way from the same inputs.
 */
module Session {
  import opened Words
  import opened KeyWindow
  import opened KeyCache
  import R = Ratchet

  const MAX_RECEIVER_CHAINS := 5

  /** A key pair, named by the draw that produced it. */
  type Key = nat

  /** The secret two key pairs agree on, whichever side computes it. */
  datatype Agreement = Agreement(lo: Key, hi: Key)

  function Agree(a: Key, b: Key): (d: Agreement)
  {
    if a <= b then Agreement(a, b) else Agreement(b, a)
  }

  lemma AgreeCommutes(a: Key, b: Key)
    ensures Agree(a, b) == Agree(b, a)
  {
  }

  /** The inputs of the initial key schedule. */
  datatype Secret = Secret(dh1: Agreement, dh2: Agreement, dh3: Agreement, dh4: Option<Agreement>, kyber: Bytes)

  datatype Root = InitialRoot(secret: Secret) | RootStep(root: Root, dh: Agreement)

  datatype Chain = InitialChain(secret: Secret) | ChainStep(root: Root, dh: Agreement)

  /** A chain key: how often it was stepped, and its 32-bit index. */
  datatype ChainKey = ChainKey(chain: Chain, steps: nat, index: nat) {
    function Next(): (c: ChainKey) {
      ChainKey(chain, steps + 1, (index + 1) % UINT32)
    }

    function MessageSeed(): (s: Seed) {
      Seed(chain, steps)
    }
  }

  datatype Seed = Seed(chain: Chain, steps: nat)

  /** The keys of one message: its seed with the key of the post-quantum ratchet mixed in. */
  datatype MessageKeys = MessageKeys(seed: Seed, pqr: Bytes)

  /** One DH ratchet step. */
  function CreateChain(root: Root, theirs: Key, ours: Key): (r: (Root, ChainKey)) {
    (RootStep(root, Agree(theirs, ours)), ChainKey(ChainStep(root, Agree(theirs, ours)), 0, 0))
  }

  /** The post-quantum ratchet: either step may fail, and an empty key stands for none. */
  datatype Pqr = Pqr(
    send: (R.State, Bytes) -> Option<(R.State, Bytes, Bytes)>,  // state and draw to state, message, key
    recv: (R.State, Bytes) -> Option<(R.State, Bytes)>)         // state and message to state, key

  datatype Header = Header(ratchetKey: Key, counter: nat, previous: nat, pqr: Bytes)

  /** A body with its MAC: it opens only under the keys and with the header it was sealed with. */
  datatype Sealed = Sealed(keys: MessageKeys, header: Header, plaintext: Bytes)

  datatype SignalMessage = SignalMessage(ratchetKey: Key, counter: nat, previous: nat, pqr: Bytes, body: Sealed) {
    function Head(): (h: Header) {
      Header(ratchetKey, counter, previous, pqr)
    }

    predicate Opens(keys: MessageKeys) {
      body.keys == keys && body.header == Head()
    }
  }

  datatype ReceiverChain = ReceiverChain(theirs: Key, chainKey: ChainKey, keys: seq<Entry<Seed>>)

  datatype State = State(
    root: Root, ours: Key, sender: ChainKey, previous: nat, receivers: seq<ReceiverChain>, pqr: R.State)

  datatype Error = DuplicateMessage | InvalidMessage | PqrFailed

  datatype Result<+T> = Ok(value: T) | Err(error: Error) {
    predicate IsFailure() { Err? }
    function PropagateFailure<U>(): Result<U> requires Err? { Err(error) }
    function Extract(): T requires Ok? { value }
  }

  // ----- establishment -----

  /** The key pairs of a handshake: identities, signed and one-time pre-key, ephemeral key. */
  datatype Handshake = Handshake(
    aliceIdentity: Key, aliceBase: Key, bobIdentity: Key, bobSigned: Key, bobOneTime: Option<Key>)

  function AliceSecret(h: Handshake, kyber: Bytes): (s: Secret) {
    Secret(Agree(h.aliceIdentity, h.bobSigned), Agree(h.aliceBase, h.bobIdentity), Agree(h.aliceBase, h.bobSigned),
           match h.bobOneTime case Some(k) => Some(Agree(h.aliceBase, k)) case None => None, kyber)
  }

  function BobSecret(h: Handshake, kyber: Bytes): (s: Secret) {
    Secret(Agree(h.bobSigned, h.aliceIdentity), Agree(h.bobIdentity, h.aliceBase), Agree(h.bobSigned, h.aliceBase),
           match h.bobOneTime case Some(k) => Some(Agree(k, h.aliceBase)) case None => None, kyber)
  }

  /** Both sides feed the same secret into the key schedule. */
  lemma SecretsMatch(h: Handshake, kyber: Bytes)
    ensures AliceSecret(h, kyber) == BobSecret(h, kyber)
  {
  }

  function InitializeAlice(h: Handshake, kyber: Bytes, ratchet: Key, pqr: R.State): (s: State) {
    var secret := AliceSecret(h, kyber);
    var (root, chain) := CreateChain(InitialRoot(secret), h.bobSigned, ratchet);
    State(root, ratchet, chain, 0, [ReceiverChain(h.bobSigned, ChainKey(InitialChain(secret), 0, 0), [])], pqr)
  }

  function InitializeBob(h: Handshake, kyber: Bytes, pqr: R.State): (s: State) {
    var secret := BobSecret(h, kyber);
    State(InitialRoot(secret), h.bobSigned, ChainKey(InitialChain(secret), 0, 0), 0, [], pqr)
  }

  // ----- receiver chains -----

  /** The first chain of a ratchet key, or the number of chains. */
  function ReceiverIndex(rs: seq<ReceiverChain>, theirs: Key): (n: nat)
    ensures n <= |rs| && (n < |rs| ==> rs[n].theirs == theirs)
    ensures forall j | 0 <= j < n :: rs[j].theirs != theirs
  {
    if rs == [] || rs[0].theirs == theirs then 0 else 1 + ReceiverIndex(rs[1..], theirs)
  }

  /** The new chain comes last, the newest of the others stay in order, and five at most remain. */
  function AddReceiver(rs: seq<ReceiverChain>, c: ReceiverChain): (r: seq<ReceiverChain>)
    ensures r != [] && r[|r| - 1] == c
    ensures forall n | 0 <= n < |r| - 1 :: 0 <= n + |rs| + 1 - |r| && r[n] == rs[n + |rs| + 1 - |r|]
    ensures |rs| < MAX_RECEIVER_CHAINS ==> |r| == |rs| + 1
    ensures |rs| == MAX_RECEIVER_CHAINS ==> |r| == MAX_RECEIVER_CHAINS
  {
    if |rs| + 1 > MAX_RECEIVER_CHAINS then (rs + [c])[1..] else rs + [c]
  }

  /** A DH ratchet step to a ratchet key not seen before, with a fresh key of our own. */
  function DhStep(s: State, theirs: Key, draw: Key): (r: State) {
    var (receiverRoot, receiverChain) := CreateChain(s.root, theirs, s.ours);
    var (senderRoot, senderChain) := CreateChain(receiverRoot, theirs, draw);
    var previous := if s.sender.index > 0 then s.sender.index - 1 else 0;
    State(senderRoot, draw, senderChain, previous,
          AddReceiver(s.receivers, ReceiverChain(theirs, receiverChain, [])), s.pqr)
  }

  function WithChain(s: State, theirs: Key, draw: Key): (r: State) {
    if ReceiverIndex(s.receivers, theirs) < |s.receivers| then s else DhStep(s, theirs, draw)
  }

  // ----- message keys -----

  /** The newest key in front, the oldest dropped from the end beyond 2000. */
  function CacheKeys(keys: seq<Entry<Seed>>, e: Entry<Seed>): (r: seq<Entry<Seed>>) {
    if |keys| + 1 > MAX_MESSAGE_KEYS then ([e] + keys)[..MAX_MESSAGE_KEYS] else [e] + keys
  }

  /** Steps a chain to a counter, caching the keys it passes. */
  function SkipTo(c: ChainKey, keys: seq<Entry<Seed>>, counter: nat): (r: (ChainKey, seq<Entry<Seed>>))
    requires c.index <= counter < UINT32
    ensures r.0.index == counter
    decreases counter - c.index
  {
    if c.index == counter then (c, keys)
    else SkipTo(c.Next(), CacheKeys(keys, Entry(c.index, c.MessageSeed())), counter)
  }

  /** The seed of a counter on a chain, and the chain afterwards. */
  function TakeSeed(rc: ReceiverChain, counter: nat): (r: Result<(ReceiverChain, Seed)>)
    requires counter < UINT32
  {
    if rc.chainKey.index > counter then
      var n := Find(rc.keys, counter);
      if n < |rc.keys| then Ok((rc.(keys := DropAt(rc.keys, n)), rc.keys[n].seed)) else Err(DuplicateMessage)
    else if counter - rc.chainKey.index > MAX_FORWARD_JUMPS then Err(InvalidMessage)
    else
      var (c, keys) := SkipTo(rc.chainKey, rc.keys, counter);
      Ok((ReceiverChain(rc.theirs, c.Next(), keys), c.MessageSeed()))
  }

  // ----- the cipher -----

  /** Decrypts against a state: the new state and the plaintext. */
  function DecryptWithState(p: Pqr, s: State, m: SignalMessage, draw: Key): (r: Result<(State, Bytes)>)
    requires m.counter < UINT32
  {
    var s1 := WithChain(s, m.ratchetKey, draw);
    var n := ReceiverIndex(s1.receivers, m.ratchetKey);
    if n == |s1.receivers| then Err(InvalidMessage)
    else
      var (rc, seed) :- TakeSeed(s1.receivers[n], m.counter);
      match p.recv(s1.pqr, m.pqr)
      case None => Err(PqrFailed)
      case Some((pqr, key)) =>
        if !m.Opens(MessageKeys(seed, key)) then Err(InvalidMessage)
        else Ok((s1.(receivers := s1.receivers[n := rc], pqr := pqr), m.body.plaintext))
  }

  /** A failed decryption leaves the stored state as it was. */
  function Decrypt(p: Pqr, s: State, m: SignalMessage, draw: Key): (r: (State, Result<Bytes>))
    requires m.counter < UINT32
  {
    match DecryptWithState(p, s, m, draw)
    case Ok((s', plaintext)) => (s', Ok(plaintext))
    case Err(e) => (s, Err(e))
  }

  function Encrypt(p: Pqr, s: State, plaintext: Bytes, rnd: Bytes): (r: Result<(State, SignalMessage)>) {
    match p.send(s.pqr, rnd)
    case None => Err(PqrFailed)
    case Some((pqr, msg, key)) =>
      var keys := MessageKeys(s.sender.MessageSeed(), key);
      var header := Header(s.ours, s.sender.index, s.previous, msg);
      Ok((s.(sender := s.sender.Next(), pqr := pqr),
          SignalMessage(s.ours, s.sender.index, s.previous, msg, Sealed(keys, header, plaintext))))
  }

  // ----- a receiver chain refines the window -----

  function Reverse(s: seq<nat>): (r: seq<nat>)
    ensures |r| == |s| && forall i | 0 <= i < |s| :: r[i] == s[|s| - 1 - i]
  {
    seq(|s|, i requires 0 <= i < |s| => s[|s| - 1 - i])
  }

  ghost predicate Seeded(chain: Chain, keys: seq<Entry<Seed>>) {
    forall j | 0 <= j < |keys| :: keys[j].seed == Seed(chain, keys[j].index)
  }

  /** The chain stands at the window's position and caches exactly the indices it holds. */
  ghost predicate Represents(rc: ReceiverChain, chain: Chain, w: Window) {
    && w.Ok() && w.next < UINT32 && rc.chainKey == ChainKey(chain, w.next, w.next)
    && Reverse(Indices(rc.keys)) == w.held && Seeded(chain, rc.keys)
  }

  lemma CacheIs(keys: seq<Entry<Seed>>, e: Entry<Seed>, chain: Chain)
    requires |keys| <= MAX_MESSAGE_KEYS && Seeded(chain, keys) && e.seed == Seed(chain, e.index)
    ensures Reverse(Indices(CacheKeys(keys, e))) == Newest(Reverse(Indices(keys)) + [e.index])
    ensures Seeded(chain, CacheKeys(keys, e)) && |CacheKeys(keys, e)| <= MAX_MESSAGE_KEYS
  {
    hide Indices, Reverse;
    var all, r := [e] + keys, CacheKeys(keys, e);
    assert Reverse(Indices(keys)) + [e.index] == Reverse(Indices(all));
    if |all| > MAX_MESSAGE_KEYS {
      var s := Reverse(Indices(all));
      assert |all| == MAX_MESSAGE_KEYS + 1;
      assert Newest(s) == s[1..];
      assert Reverse(Indices(r)) == s[1..];
    }
  }

  lemma {:induction false} SkipToRefines(c: ChainKey, keys: seq<Entry<Seed>>, counter: nat)
    requires c.steps == c.index <= counter < UINT32 && |keys| <= MAX_MESSAGE_KEYS && Seeded(c.chain, keys)
    ensures var (c', keys') := SkipTo(c, keys, counter);
      && c' == ChainKey(c.chain, counter, counter)
      && Reverse(Indices(keys')) == Newest(Reverse(Indices(keys)) + UpTo(c.index, counter))
      && Seeded(c.chain, keys')
    decreases counter - c.index
  {
    hide CacheKeys, Indices, Reverse, Newest, Seeded;
    var held := Reverse(Indices(keys));
    if c.index == counter {
      assert held + UpTo(counter, counter) == held;
      assert Newest(held) == held by { NewestSmall(held); }
    } else {
      var e := Entry(c.index, c.MessageSeed());
      var more := CacheKeys(keys, e);
      CacheIs(keys, e, c.chain);
      SkipToRefines(c.Next(), more, counter);
      NewestAgain(held + [c.index], UpTo(c.index + 1, counter));
      assert held + [c.index] + UpTo(c.index + 1, counter) == held + UpTo(c.index, counter);
    }
  }

  /** Taking an index out of the reversed list takes it out of the list. */
  lemma ReverseDrop(keys: seq<Entry<Seed>>, i: nat)
    requires Find(keys, i) < |keys| && Ascending(Reverse(Indices(keys)))
    ensures Reverse(Indices(DropAt(keys, Find(keys, i)))) == Remove(Reverse(Indices(keys)), i)
  {
    hide Find, Remove;
    var n := Find(keys, i);
    var s, k := Reverse(Indices(keys)), |keys| - 1 - n;
    assert s[k] == i;
    RemoveAt(s, k, i);
    var r := DropAt(keys, n);
    assert |r| == |keys| - 1;
    forall j | 0 <= j < |r| ensures Reverse(Indices(r))[j] == (s[..k] + s[k + 1..])[j] {
      DropAtSubset(keys, n, |r| - 1 - j);
    }
  }

  lemma ReverseIn(s: seq<nat>, i: nat)
    ensures i in Reverse(s) <==> i in s
  {
    if i in s {
      var k :| 0 <= k < |s| && s[k] == i;
      assert Reverse(s)[|s| - 1 - k] == i;
    }
  }

  /** Taking the seed of a counter is one request of the window, and the seed is that counter's. */
  lemma TakeSeedRefines(rc: ReceiverChain, chain: Chain, w: Window, counter: nat)
    requires Represents(rc, chain, w) && counter < UINT32 - 1
    ensures var r, (w', answer) := TakeSeed(rc, counter), w.Request(counter);
      match answer
      case Duplicate => r == Err(DuplicateMessage)
      case TooFar => r == Err(InvalidMessage)
      case Served =>
        r.Ok? && r.value.1 == Seed(chain, counter) && r.value.0.theirs == rc.theirs && Represents(r.value.0, chain, w')
  {
    hide Indices, Reverse, Remove, Newest, SkipTo, Find, DropAt, Seeded;
    RequestOk(w, counter);
    HeldIffFound(rc.keys, counter);
    ReverseIn(Indices(rc.keys), counter);
    if rc.chainKey.index > counter {
      if counter in w.held {
        ReverseDrop(rc.keys, counter);
        SeededDrop(chain, rc.keys, Find(rc.keys, counter));
      }
    } else if counter - w.next <= MAX_FORWARD_JUMPS {
      SkipToRefines(rc.chainKey, rc.keys, counter);
    }
  }

  lemma SeededDrop(chain: Chain, keys: seq<Entry<Seed>>, n: nat)
    requires n < |keys| && Seeded(chain, keys)
    ensures keys[n].seed == Seed(chain, keys[n].index) && Seeded(chain, DropAt(keys, n))
  {
    DropAtLength(keys, n);
    forall j | 0 <= j < |keys| - 1 ensures DropAt(keys, n)[j].seed == Seed(chain, DropAt(keys, n)[j].index) {
      DropAtSubset(keys, n, j);
    }
  }
}
