/** Group sender keys: the receive chain of one sender and its skipped-key cache. */
module SenderKeys {
  import opened Words
  import opened KeyWindow
  import opened KeyCache

  const MAX_SENDER_KEY_STATES := 5

  /** How a chain key yields the next chain key and a message-key seed, and a seed its keys. */
  datatype Kdf = Kdf(next: Bytes -> Bytes, seed: Bytes -> Bytes, expand: Bytes -> (Bytes, Bytes))

  datatype ChainKey = ChainKey(iteration: nat, key: Bytes) {
    /** Errors at the last 32-bit iteration. */
    function Next(k: Kdf): (c: Option<ChainKey>)
    {
      if iteration == UINT32 - 1 then None else Some(ChainKey(iteration + 1, k.next(key)))
    }

    function MessageKey(k: Kdf): (m: MessageKey) {
      NewMessageKey(k, iteration, k.seed(key))
    }
  }

  datatype MessageKey = MessageKey(iteration: nat, seed: Bytes, iv: Bytes, cipherKey: Bytes)

  function NewMessageKey(k: Kdf, iteration: nat, seed: Bytes): (m: MessageKey) {
    MessageKey(iteration, seed, k.expand(seed).0, k.expand(seed).1)
  }

  datatype Error = MissingChainKey | DuplicateMessage | InvalidMessage | ChainTooLong

  datatype Result = Ok(key: MessageKey) | Err(error: Error)

  // ----- the cache as a value -----

  function Cached(keys: seq<Entry<Bytes>>, e: Entry<Bytes>): (r: seq<Entry<Bytes>>) {
    Trimmed(keys + [e])
  }

  /** The oldest entries go once there are more than 2000. */
  function Trimmed(keys: seq<Entry<Bytes>>): (r: seq<Entry<Bytes>>) {
    if |keys| > MAX_MESSAGE_KEYS then Trimmed(keys[1..]) else keys
  }

  /** Steps the chain to iteration i, caching the keys it passes. */
  function SkipTo(k: Kdf, c: ChainKey, keys: seq<Entry<Bytes>>, i: nat): (r: (ChainKey, seq<Entry<Bytes>>))
    requires c.iteration <= i
    ensures r.0.iteration == i
    decreases i - c.iteration
  {
    if c.iteration == i then (c, keys)
    else SkipTo(k, ChainKey(c.iteration + 1, k.next(c.key)), Cached(keys, Entry(c.iteration, k.seed(c.key))), i)
  }

  datatype Outcome = Outcome(chain: Option<ChainKey>, keys: seq<Entry<Bytes>>, result: Result)

  function Resolve(k: Kdf, chain: Option<ChainKey>, keys: seq<Entry<Bytes>>, i: nat): (o: Outcome) {
    match chain
    case None => Outcome(chain, keys, Err(MissingChainKey))
    case Some(c) =>
      if c.iteration > i then
        var n := Find(keys, i);
        if n < |keys| then Outcome(chain, DropAt(keys, n), Ok(NewMessageKey(k, i, keys[n].seed)))
        else Outcome(chain, keys, Err(DuplicateMessage))
      else if i - c.iteration > MAX_FORWARD_JUMPS then Outcome(chain, keys, Err(InvalidMessage))
      else
        var (c', keys') := SkipTo(k, c, keys, i);
        match c'.Next(k)
        case None => Outcome(chain, keys', Err(ChainTooLong))
        case Some(n) => Outcome(Some(n), keys', Ok(c'.MessageKey(k)))
  }

  // ----- it refines the window -----

  /** The chain key n steps after the given one. */
  function Stepped(k: Kdf, key: Bytes, n: nat): (r: Bytes) {
    if n == 0 then key else k.next(Stepped(k, key, n - 1))
  }

  /** The key of iteration i of the stream that starts with `base` at iteration `start`. */
  function StreamKey(k: Kdf, base: Bytes, start: nat, i: nat): (m: MessageKey)
    requires start <= i
  {
    NewMessageKey(k, i, k.seed(Stepped(k, base, i - start)))
  }

  ghost predicate OnStream(k: Kdf, base: Bytes, start: nat, e: Entry<Bytes>) {
    start <= e.index && e.seed == k.seed(Stepped(k, base, e.index - start))
  }

  /** The cache holds the keys of the window's skipped indices, and the chain its position. */
  ghost predicate Represents(k: Kdf, base: Bytes, start: nat, c: ChainKey, keys: seq<Entry<Bytes>>, w: Window) {
    && w.Ok() && c.iteration == w.next && start <= c.iteration
    && c.key == Stepped(k, base, c.iteration - start)
    && Indices(keys) == w.held
    && forall j | 0 <= j < |keys| :: OnStream(k, base, start, keys[j])
  }

  lemma {:induction false} TrimmedIs(keys: seq<Entry<Bytes>>)
    ensures Indices(Trimmed(keys)) == Newest(Indices(keys))
    ensures forall e | e in Trimmed(keys) :: e in keys
    decreases |keys|
  {
    if |keys| > MAX_MESSAGE_KEYS {
      TrimmedIs(keys[1..]);
      assert Indices(keys)[1..] == Indices(keys[1..]);
      var s := Indices(keys);
      assert Newest(s) == Newest(s[1..]);
    }
  }

  lemma NewestTwice(s: seq<nat>, x: nat, t: seq<nat>)
    ensures Newest(Newest(s + [x]) + t) == Newest(s + ([x] + t))
  {
    hide Newest;
    assert s + [x] + t == s + ([x] + t);
    NewestAgain(s + [x], t);
  }

  lemma {:induction false} SkipToRefines(k: Kdf, base: Bytes, start: nat, c: ChainKey, keys: seq<Entry<Bytes>>, i: nat)
    requires start <= c.iteration <= i && c.key == Stepped(k, base, c.iteration - start)
    requires |keys| <= MAX_MESSAGE_KEYS
    requires forall j | 0 <= j < |keys| :: OnStream(k, base, start, keys[j])
    ensures var (c', keys') := SkipTo(k, c, keys, i);
      && c'.key == Stepped(k, base, i - start)
      && Indices(keys') == Newest(Indices(keys) + UpTo(c.iteration, i))
      && (forall j | 0 <= j < |keys'| :: OnStream(k, base, start, keys'[j]))
    decreases i - c.iteration
  {
    hide Trimmed, Newest;
    if c.iteration == i {
      assert Indices(keys) + UpTo(i, i) == Indices(keys);
      NewestSmall(Indices(keys));
    } else {
      var e := Entry(c.iteration, k.seed(c.key));
      var more := Cached(keys, e);
      TrimmedIs(keys + [e]);
      assert Indices(keys + [e]) == Indices(keys) + [c.iteration];
      assert |more| == |Indices(more)|;
      forall j | 0 <= j < |more| ensures OnStream(k, base, start, more[j]) {
        assert more[j] in keys + [e];
      }
      SkipToRefines(k, base, start, ChainKey(c.iteration + 1, k.next(c.key)), more, i);
      NewestTwice(Indices(keys), c.iteration, UpTo(c.iteration + 1, i));
      assert [c.iteration] + UpTo(c.iteration + 1, i) == UpTo(c.iteration, i);
    }
  }

  /** A request from the past: the cached key, once. */
  lemma PastRefines(k: Kdf, base: Bytes, start: nat, c: ChainKey, keys: seq<Entry<Bytes>>, w: Window, i: nat)
    requires Represents(k, base, start, c, keys, w) && i < c.iteration && i in w.held
    ensures Find(keys, i) < |keys|
    ensures var n := Find(keys, i); OnStream(k, base, start, keys[n]) && keys[n].index == i
    ensures var n := Find(keys, i); Represents(k, base, start, c, DropAt(keys, n), w.Without(i))
  {
    hide Remove, Stepped, Indices, OnStream, DropAt, Find;
    RequestOk(w, i);
    HeldIffFound(keys, i);
    DropAtIs(keys, i);
    var n := Find(keys, i);
    var rest := DropAt(keys, n);
    assert |rest| == |keys| - 1 by { DropAtLength(keys, n); }
    forall j | 0 <= j < |rest| ensures OnStream(k, base, start, rest[j]) {
      DropAtSubset(keys, n, j);
    }
  }

  /** A request from the future: the chain moves past it and the skipped keys are held. */
  lemma FutureRefines(k: Kdf, base: Bytes, start: nat, c: ChainKey, keys: seq<Entry<Bytes>>, w: Window, i: nat)
    requires Represents(k, base, start, c, keys, w) && c.iteration <= i && i - c.iteration <= MAX_FORWARD_JUMPS
    ensures var (c', keys') := SkipTo(k, c, keys, i);
      && c'.key == Stepped(k, base, i - start)
      && Represents(k, base, start, ChainKey(i + 1, k.next(c'.key)), keys', w.Request(i).0)
  {
    hide Newest, SkipTo, Indices, OnStream;
    RequestOk(w, i);
    SkipToRefines(k, base, start, c, keys, i);
  }

  /**
   Resolving an iteration is one request of the window: a served request yields exactly
   the key of that iteration, and a refused one changes nothing. Only the last 32-bit
   iteration cannot be served.
   */
  lemma ResolveRefines(k: Kdf, base: Bytes, start: nat, c: ChainKey, keys: seq<Entry<Bytes>>, w: Window, i: nat)
    requires Represents(k, base, start, c, keys, w) && i < UINT32
    ensures var o, (w', answer) := Resolve(k, Some(c), keys, i), w.Request(i);
      match answer
      case Duplicate => o == Outcome(Some(c), keys, Err(DuplicateMessage))
      case TooFar => o == Outcome(Some(c), keys, Err(InvalidMessage))
      case Served =>
        if i == UINT32 - 1 && c.iteration <= i then o.result == Err(ChainTooLong) && o.chain == Some(c)
        else
          && start <= i && o.result == Ok(StreamKey(k, base, start, i))
          && o.chain.Some? && Represents(k, base, start, o.chain.value, o.keys, w')
  {
    hide Remove, Newest, SkipTo, Indices, Window.Skipped, Find, DropAt;
    HeldIffFound(keys, i);
    if c.iteration > i {
      if i in w.held {
        PastRefines(k, base, start, c, keys, w, i);
      }
    } else if i - c.iteration <= MAX_FORWARD_JUMPS {
      FutureRefines(k, base, start, c, keys, w, i);
    }
  }

  // ----- sender and receiver over whole runs -----

  /** A receiver's state: the chain key and the cache. */
  datatype Receiver = Receiver(chain: Option<ChainKey>, keys: seq<Entry<Bytes>>)

  function Start(base: Bytes, start: nat): (r: Receiver) {
    Receiver(Some(ChainKey(start, base)), [])
  }

  /** The receiver after a sequence of requests; what a failed one has changed is not stored. */
  function AfterAsks(k: Kdf, r: Receiver, asks: seq<nat>): (r': Receiver) {
    if asks == [] then r
    else
      var was := AfterAsks(k, r, asks[..|asks| - 1]);
      var o := Resolve(k, was.chain, was.keys, asks[|asks| - 1]);
      if o.result.Ok? then Receiver(o.chain, o.keys) else was
  }

  /** The answer to the n-th of a sequence of requests. */
  function AnswerAt(k: Kdf, r: Receiver, asks: seq<nat>, n: nat): (a: Result)
    requires n < |asks|
  {
    var was := AfterAsks(k, r, asks[..n]);
    Resolve(k, was.chain, was.keys, asks[n]).result
  }

  /** Iterations are 32-bit numbers. */
  predicate Fit(asks: seq<nat>) {
    forall n | 0 <= n < |asks| :: asks[n] < UINT32
  }

  /** The requests without those for the last 32-bit iteration, past which no chain can step. */
  function Servable(asks: seq<nat>): (r: seq<nat>)
    ensures |r| <= |asks|
  {
    if asks == [] then []
    else
      var rest := Servable(asks[..|asks| - 1]);
      if asks[|asks| - 1] == UINT32 - 1 then rest else rest + [asks[|asks| - 1]]
  }

  /** Where a request stands among the servable ones. */
  lemma {:induction false} ServablePrefix(asks: seq<nat>, n: nat)
    requires n < |asks|
    ensures var p := |Servable(asks[..n])|;
      && p <= |Servable(asks)| && Servable(asks)[..p] == Servable(asks[..n])
      && (asks[n] != UINT32 - 1 ==> p < |Servable(asks)| && Servable(asks)[p] == asks[n])
    decreases |asks|
  {
    var last := |asks| - 1;
    if n < last {
      ServablePrefix(asks[..last], n);
      assert asks[..last][..n] == asks[..n];
    }
  }

  lemma {:induction false} ServableOrder(asks: seq<nat>, n: nat, m: nat)
    requires n < m <= |asks| && asks[n] != UINT32 - 1
    ensures |Servable(asks[..n])| < |Servable(asks[..m])|
    decreases m
  {
    assert asks[..m][..m - 1] == asks[..m - 1];
    if n < m - 1 {
      ServableOrder(asks, n, m - 1);
    }
  }

  lemma {:induction false} RunRefines(k: Kdf, base: Bytes, start: nat, asks: seq<nat>)
    requires Fit(asks) && start < UINT32
    ensures var r := AfterAsks(k, Start(base, start), asks);
      && r.chain.Some? && r.chain.value.iteration < UINT32
      && Represents(k, base, start, r.chain.value, r.keys, After(Window(start, []), Servable(asks)))
    decreases |asks|
  {
    hide Resolve, Window.Request, Represents;
    if asks == [] {
      StartRepresents(k, base, start);
    } else {
      var n := |asks| - 1;
      RunRefines(k, base, start, asks[..n]);
      var r := AfterAsks(k, Start(base, start), asks[..n]);
      if asks[n] == UINT32 - 1 {
        LastIsRefused(k, r.chain.value, r.keys);
      } else {
        StepRepresents(k, base, start, r, After(Window(start, []), Servable(asks[..n])), asks[n]);
      }
    }
  }

  lemma LastIsRefused(k: Kdf, c: ChainKey, keys: seq<Entry<Bytes>>)
    requires c.iteration < UINT32
    ensures Resolve(k, Some(c), keys, UINT32 - 1).result.Err?
  {
    hide SkipTo;
  }

  lemma StartRepresents(k: Kdf, base: Bytes, start: nat)
    ensures Represents(k, base, start, ChainKey(start, base), [], Window(start, []))
  {
  }

  lemma StepRepresents(k: Kdf, base: Bytes, start: nat, r: Receiver, w: Window, i: nat)
    requires r.chain.Some? && r.chain.value.iteration < UINT32 && i < UINT32 - 1
    requires Represents(k, base, start, r.chain.value, r.keys, w)
    ensures var o := Resolve(k, r.chain, r.keys, i);
      && o.chain.Some? && o.chain.value.iteration < UINT32
      && Represents(k, base, start, o.chain.value, o.keys, w.Request(i).0)
      && (o.result.Err? ==> o.chain == r.chain && o.keys == r.keys)
      && (o.result.Ok? <==> w.Request(i).1.Served?)
      && (o.result.Ok? ==> start <= i && o.result.key == StreamKey(k, base, start, i))
  {
    hide Represents, Window.Without, Window.Skipped, SkipTo, Find, DropAt;
    ResolveRefines(k, base, start, r.chain.value, r.keys, w, i);
  }

  /** The key a sender that started with `base` uses for its n-th message. */
  function SenderKey(k: Kdf, c: ChainKey, n: nat): (m: MessageKey)
    decreases n, c
  {
    if n == 0 then c.MessageKey(k) else SenderKey(k, ChainKey(c.iteration + 1, k.next(c.key)), n - 1)
  }

  lemma {:induction false} SenderKeyIs(k: Kdf, base: Bytes, start: nat, c: ChainKey, n: nat)
    requires start <= c.iteration && c.key == Stepped(k, base, c.iteration - start)
    ensures SenderKey(k, c, n) == StreamKey(k, base, start, c.iteration + n)
    decreases n
  {
    if n > 0 {
      SenderKeyIs(k, base, start, ChainKey(c.iteration + 1, k.next(c.key)), n - 1);
    }
  }

  /** Whether the window, after the earlier requests, serves the n-th one. */
  ghost predicate WindowServes(start: nat, asks: seq<nat>, n: nat)
    requires n < |asks|
  {
    asks[n] != UINT32 - 1 && After(Window(start, []), Servable(asks[..n])).Request(asks[n]).1.Served?
  }

  /**
   In every sequence of requests: a request is answered exactly when the window serves it,
   and the answer is the key the sender used for that iteration.
   */
  lemma GroupKeyIsSenders(k: Kdf, base: Bytes, start: nat, asks: seq<nat>, n: nat)
    requires Fit(asks) && start < UINT32 && n < |asks|
    ensures var a := AnswerAt(k, Start(base, start), asks, n);
      && (a.Ok? <==> WindowServes(start, asks, n))
      && (a.Ok? ==> start <= asks[n] && a.key == SenderKey(k, ChainKey(start, base), asks[n] - start))
  {
    hide Resolve, Represents, SenderKey, StreamKey, Window.Request;
    RunRefines(k, base, start, asks[..n]);
    var r := AfterAsks(k, Start(base, start), asks[..n]);
    if asks[n] == UINT32 - 1 {
      LastIsRefused(k, r.chain.value, r.keys);
    } else {
      StepRepresents(k, base, start, r, After(Window(start, []), Servable(asks[..n])), asks[n]);
      if AnswerAt(k, Start(base, start), asks, n).Ok? {
        SenderKeyIs(k, base, start, ChainKey(start, base), asks[n] - start);
      }
    }
  }

  /** In every sequence of requests no iteration is answered twice. */
  lemma GroupKeyOnce(k: Kdf, base: Bytes, start: nat, asks: seq<nat>, n: nat, m: nat)
    requires Fit(asks) && start < UINT32 && n < m < |asks|
    requires AnswerAt(k, Start(base, start), asks, n).Ok? && AnswerAt(k, Start(base, start), asks, m).Ok?
    ensures asks[n] != asks[m]
  {
    hide AnswerAt, SenderKey, Window.Request, Servable;
    GroupKeyIsSenders(k, base, start, asks, n);
    GroupKeyIsSenders(k, base, start, asks, m);
    ServablePrefix(asks, n);
    ServablePrefix(asks, m);
    ServableOrder(asks, n, m);
    EachIndexOnce(Window(start, []), Servable(asks), |Servable(asks[..n])|, |Servable(asks[..m])|);
  }

  // ----- the object -----

  class SenderKeyState {
    var chain: Option<ChainKey>
    var keys: seq<Entry<Bytes>>

    constructor (iteration: nat, key: Bytes)
      ensures chain == Some(ChainKey(iteration, key)) && keys == []
    {
      chain := Some(ChainKey(iteration, key));
      keys := [];
    }

    method AddSenderMessageKey(e: Entry<Bytes>)
      modifies this`keys
      ensures keys == Cached(old(keys), e)
    {
      keys := keys + [e];
      while |keys| > MAX_MESSAGE_KEYS
        invariant Trimmed(keys) == Cached(old(keys), e)
        decreases |keys|
      {
        keys := keys[1..];
      }
    }

    method RemoveSenderMessageKey(k: Kdf, i: nat) returns (r: Option<MessageKey>)
      modifies this`keys
      ensures var n := Find(old(keys), i);
        if n < |old(keys)| then r == Some(NewMessageKey(k, i, old(keys)[n].seed)) && keys == DropAt(old(keys), n)
        else r == None && keys == old(keys)
    {
      var n := 0;
      assert keys[0..] == keys;
      while n < |keys|
        invariant 0 <= n <= |keys| && keys == old(keys)
        invariant Find(keys, i) == n + Find(keys[n..], i)
      {
        FindStep(keys, i, n);
        if keys[n].index == i {
          r := Some(NewMessageKey(k, keys[n].index, keys[n].seed));
          keys := keys[..n] + keys[n + 1..];
          return;
        }
        n := n + 1;
      }
      r := None;
    }

    method SenderKeyForIteration(k: Kdf, i: nat) returns (r: Result)
      modifies this
      ensures Outcome(chain, keys, r) == Resolve(k, old(chain), old(keys), i)
    {
      if chain.None? {
        return Err(MissingChainKey);
      }
      var c := chain.value;
      if c.iteration > i {
        var found := RemoveSenderMessageKey(k, i);
        if found.Some? {
          return Ok(found.value);
        }
        return Err(DuplicateMessage);
      }
      if i - c.iteration > MAX_FORWARD_JUMPS {
        return Err(InvalidMessage);
      }
      while c.iteration < i
        invariant c.iteration <= i && chain == old(chain)
        invariant SkipTo(k, c, keys, i) == SkipTo(k, old(chain).value, old(keys), i)
        decreases i - c.iteration
      {
        AddSenderMessageKey(Entry(c.iteration, k.seed(c.key)));
        c := ChainKey(c.iteration + 1, k.next(c.key));
      }
      var next := c.Next(k);
      if next.None? {
        return Err(ChainTooLong);
      }
      chain := next;
      return Ok(c.MessageKey(k));
    }
  }

  // ----- the record -----

  /** One stored state, as the record sees it. */
  datatype Stored = Stored(chainId: nat, signingKey: Bytes, receiver: Receiver)

  /** The states with other chain ids, in order. */
  function Others(states: seq<Stored>, chainId: nat): (r: seq<Stored>)
    ensures forall s | s in r :: s.chainId != chainId && s in states
    ensures |r| <= |states|
  {
    if states == [] then []
    else if states[0].chainId == chainId then Others(states[1..], chainId)
    else [states[0]] + Others(states[1..], chainId)
  }

  /** The first state with this chain id and signing key. */
  function Existing(states: seq<Stored>, chainId: nat, signingKey: Bytes): (r: Option<Stored>)
    ensures r.Some? ==> r.value in states && r.value.chainId == chainId && r.value.signingKey == signingKey
    ensures r.None? ==> forall s | s in states :: !(s.chainId == chainId && s.signingKey == signingKey)
  {
    if states == [] then None
    else if states[0].chainId == chainId && states[0].signingKey == signingKey then Some(states[0])
    else Existing(states[1..], chainId, signingKey)
  }

  /** What adding a state leaves: it in front, its chain id nowhere else, at most five in all. */
  function Added(states: seq<Stored>, s: Stored): (r: seq<Stored>)
    ensures 1 <= |r| <= MAX_SENDER_KEY_STATES
    ensures forall j | 1 <= j < |r| :: r[j].chainId != s.chainId
  {
    var others := Others(states, s.chainId);
    var head := match Existing(states, s.chainId, s.signingKey) case Some(e) => e case None => s;
    [head] + (if |others| >= MAX_SENDER_KEY_STATES then others[..MAX_SENDER_KEY_STATES - 1] else others)
  }

  /** Processing the same distribution again keeps the chain as far as it has come. */
  lemma AddedTwice(states: seq<Stored>, s: Stored)
    ensures Added(Added(states, s), s) == Added(states, s)
  {
    var r := Added(states, s);
    assert r[1..] == r[1..|r|];
    OthersOfOthers(r[1..], s.chainId);
    assert Others(r, s.chainId) == r[1..] by {
      assert r[0].chainId == s.chainId;
    }
  }

  lemma {:induction false} OthersOfOthers(states: seq<Stored>, chainId: nat)
    requires forall s | s in states :: s.chainId != chainId
    ensures Others(states, chainId) == states
    decreases |states|
  {
    if states != [] {
      OthersOfOthers(states[1..], chainId);
    }
  }

  class SenderKeyRecord {
    var states: seq<Stored>

    constructor ()
      ensures states == []
    {
      states := [];
    }

    method RemoveState(chainId: nat, signingKey: Bytes) returns (r: Option<Stored>)
      modifies this
      ensures r == Existing(old(states), chainId, signingKey)
      ensures Others(states, chainId) == Others(old(states), chainId)
    {
      var i := 0;
      assert states[0..] == states;
      while i < |states|
        invariant 0 <= i <= |states| && states == old(states)
        invariant Existing(states, chainId, signingKey) == Existing(states[i..], chainId, signingKey)
      {
        if states[i].chainId == chainId && states[i].signingKey == signingKey {
          r := Some(states[i]);
          DropKeepsOthers(states, i, chainId);
          states := states[..i] + states[i + 1..];
          return;
        }
        assert states[i..][1..] == states[i + 1..];
        i := i + 1;
      }
      r := None;
    }

    method RemoveStatesWithChainId(chainId: nat)
      modifies this
      ensures states == Others(old(states), chainId)
    {
      var kept: seq<Stored> := [];
      var j := 0;
      assert states[0..] == states;
      while j < |states|
        invariant 0 <= j <= |states| && states == old(states)
        invariant kept + Others(states[j..], chainId) == Others(states, chainId)
      {
        assert states[j..][1..] == states[j + 1..];
        if states[j].chainId != chainId {
          kept := kept + [states[j]];
        }
        j := j + 1;
      }
      states := kept;
    }

    method AddSenderKeyState(s: Stored)
      modifies this
      ensures states == Added(old(states), s)
    {
      var existing := RemoveState(s.chainId, s.signingKey);
      RemoveStatesWithChainId(s.chainId);
      ghost var others := states;
      var state := if existing.Some? then existing.value else s;
      while |states| >= MAX_SENDER_KEY_STATES
        invariant |states| <= |others| && states == others[..|states|]
        invariant |states| < |others| ==> |states| >= MAX_SENDER_KEY_STATES - 1
        decreases |states|
      {
        states := states[..|states| - 1];
      }
      states := [state] + states;
    }
  }

  lemma {:induction false} DropKeepsOthers(states: seq<Stored>, i: nat, chainId: nat)
    requires i < |states| && states[i].chainId == chainId
    ensures Others(states[..i] + states[i + 1..], chainId) == Others(states, chainId)
    decreases i
  {
    if i == 0 {
      assert states[..0] + states[1..] == states[1..];
    } else {
      DropKeepsOthers(states[1..], i - 1, chainId);
      assert states[..i] + states[i + 1..] == [states[0]] + (states[1..][..i - 1] + states[1..][i..]);
    }
  }
}
