/** The session as the object the cipher updates in place. */
module SessionObjects {
  import opened Words
  import opened KeyWindow
  import opened KeyCache
  import opened Session
  import R = Ratchet

  class SessionState {
    var root: Root
    var ours: Key
    var sender: ChainKey
    var previous: nat
    var receivers: seq<ReceiverChain>
    var pqr: R.State

    /** The state as a value. */
    function Value(): (s: State)
      reads this
    {
      State(root, ours, sender, previous, receivers, pqr)
    }

    constructor (s: State)
      ensures Value() == s
    {
      root, ours, sender := s.root, s.ours, s.sender;
      previous, receivers, pqr := s.previous, s.receivers, s.pqr;
    }

    method Clone() returns (c: SessionState)
      ensures fresh(c) && c.Value() == Value()
    {
      c := new SessionState(State(root, ours, sender, previous, receivers, pqr));
    }

    method AddReceiverChain(theirs: Key, chainKey: ChainKey)
      modifies this`receivers
      ensures receivers == AddReceiver(old(receivers), ReceiverChain(theirs, chainKey, []))
    {
      receivers := receivers + [ReceiverChain(theirs, chainKey, [])];
      if |receivers| > MAX_RECEIVER_CHAINS {
        receivers := receivers[1..];
      }
    }

    method ReceiverChainIndex(theirs: Key) returns (n: nat)
      ensures n == ReceiverIndex(receivers, theirs)
    {
      n := 0;
      assert receivers[0..] == receivers;
      while n < |receivers|
        invariant 0 <= n <= |receivers|
        invariant ReceiverIndex(receivers, theirs) == n + ReceiverIndex(receivers[n..], theirs)
      {
        assert receivers[n..][1..] == receivers[n + 1..];
        if receivers[n].theirs == theirs {
          return;
        }
        n := n + 1;
      }
    }

    method CacheMessageKeys(n: nat, e: Entry<Seed>)
      requires n < |receivers|
      modifies this`receivers
      ensures receivers == old(receivers)[n := old(receivers)[n].(keys := CacheKeys(old(receivers)[n].keys, e))]
    {
      var keys := [e] + receivers[n].keys;
      if |keys| > MAX_MESSAGE_KEYS {
        keys := keys[..MAX_MESSAGE_KEYS];
      }
      receivers := receivers[n := receivers[n].(keys := keys)];
    }

    method TakeMessageKeys(n: nat, index: nat) returns (r: Option<Seed>)
      requires n < |receivers|
      modifies this`receivers
      ensures var keys := old(receivers)[n].keys;
        var k := Find(keys, index);
        if k < |keys| then
          r == Some(keys[k].seed) && receivers == old(receivers)[n := old(receivers)[n].(keys := DropAt(keys, k))]
        else r == None && receivers == old(receivers)
    {
      var keys, k := receivers[n].keys, 0;
      assert keys[0..] == keys;
      while k < |keys|
        invariant 0 <= k <= |keys| && receivers == old(receivers)
        invariant Find(keys, index) == k + Find(keys[k..], index)
      {
        FindStep(keys, index, k);
        if keys[k].index == index {
          r := Some(keys[k].seed);
          receivers := receivers[n := receivers[n].(keys := keys[..k] + keys[k + 1..])];
          return;
        }
        k := k + 1;
      }
      r := None;
    }

    /** The receiver chain for a ratchet key, after a DH step if it is new. */
    method GetOrCreateChainKey(theirs: Key, draw: Key) returns (n: nat)
      modifies this
      ensures Value() == WithChain(old(Value()), theirs, draw)
      ensures n == ReceiverIndex(receivers, theirs)
    {
      n := ReceiverChainIndex(theirs);
      if n < |receivers| {
        return;
      }
      var (receiverRoot, receiverChain) := CreateChain(root, theirs, ours);
      var (senderRoot, senderChain) := CreateChain(receiverRoot, theirs, draw);
      root := senderRoot;
      AddReceiverChain(theirs, receiverChain);
      previous := if sender.index > 0 then sender.index - 1 else 0;
      ours, sender := draw, senderChain;
      n := ReceiverChainIndex(theirs);
    }

    method GetOrCreateMessageKeys(n: nat, counter: nat) returns (r: Result<Seed>)
      requires n < |receivers| && counter < UINT32
      modifies this`receivers
      ensures match TakeSeed(old(receivers)[n], counter)
        case Ok((rc, seed)) => r == Ok(seed) && receivers == old(receivers)[n := rc]
        case Err(e) => r == Err(e)
    {
      var c := receivers[n].chainKey;
      if c.index > counter {
        var taken := TakeMessageKeys(n, counter);
        return if taken.Some? then Ok(taken.value) else Err(DuplicateMessage);
      }
      if counter - c.index > MAX_FORWARD_JUMPS {
        return Err(InvalidMessage);
      }
      while c.index < counter
        invariant c.index <= counter
        invariant n < |receivers| == |old(receivers)| && receivers == old(receivers)[n := receivers[n]]
        invariant receivers[n].theirs == old(receivers)[n].theirs && receivers[n].chainKey == old(receivers)[n].chainKey
        invariant SkipTo(c, receivers[n].keys, counter)
               == SkipTo(old(receivers)[n].chainKey, old(receivers)[n].keys, counter)
        decreases counter - c.index
      {
        CacheMessageKeys(n, Entry(c.index, c.MessageSeed()));
        c := c.Next();
      }
      receivers := receivers[n := receivers[n].(chainKey := c.Next())];
      return Ok(c.MessageSeed());
    }

    /** Updates the state in place; after an error it may be left half changed. */
    method DecryptInPlace(p: Pqr, m: SignalMessage, draw: Key) returns (r: Result<Bytes>)
      requires m.counter < UINT32
      modifies this
      ensures match DecryptWithState(p, old(Value()), m, draw)
        case Ok((s, plaintext)) => r == Ok(plaintext) && Value() == s
        case Err(e) => r == Err(e)
    {
      var n := GetOrCreateChainKey(m.ratchetKey, draw);
      if n == |receivers| {
        return Err(InvalidMessage);
      }
      var seed := GetOrCreateMessageKeys(n, m.counter);
      if seed.Err? {
        return Err(seed.error);
      }
      var step := p.recv(pqr, m.pqr);
      if step.None? {
        return Err(PqrFailed);
      }
      pqr := step.value.0;
      if !m.Opens(MessageKeys(seed.value, step.value.1)) {
        return Err(InvalidMessage);
      }
      return Ok(m.body.plaintext);
    }
  }

  /** The stored session of one peer. */
  class SessionRecord {
    var current: SessionState

    constructor (s: SessionState)
      ensures current == s
    {
      current := s;
    }

    /** Decrypts on a clone and keeps it only on success: a failure leaves the stored state as it was. */
    method DecryptMessage(p: Pqr, m: SignalMessage, draw: Key) returns (r: Result<Bytes>)
      requires m.counter < UINT32
      modifies this
      ensures (current.Value(), r) == Decrypt(p, old(current.Value()), m, draw)
      ensures r.Err? ==> current == old(current)
    {
      hide DecryptWithState;
      var working := current.Clone();
      r := working.DecryptInPlace(p, m, draw);
      if r.Ok? {
        current := working;
      }
    }

    /** Sends one message and advances the sending chain. */
    method EncryptMessage(p: Pqr, plaintext: Bytes, rnd: Bytes) returns (r: Result<SignalMessage>)
      modifies current
      ensures match Encrypt(p, old(current.Value()), plaintext, rnd)
        case Ok((s, m)) => r == Ok(m) && current.Value() == s
        case Err(e) => r == Err(e) && current.Value() == old(current.Value())
    {
      var step := p.send(current.pqr, rnd);
      if step.None? {
        return Err(PqrFailed);
      }
      var (pqr, msg, key) := step.value;
      var c := current.sender;
      var keys := MessageKeys(c.MessageSeed(), key);
      current.pqr := pqr;
      current.sender := c.Next();
      var header := Header(current.ours, c.index, current.previous, msg);
      return Ok(SignalMessage(current.ours, c.index, current.previous, msg, Sealed(keys, header, plaintext)));
    }
  }
}
