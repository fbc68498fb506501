/**
 The epoch key chain: each KEM epoch secret opens a pair of key streams, one per
 direction, and late messages are served from a bounded history. Counters are 32-bit.
 */
module KeyChain {
  import opened Words
  import opened Primitives

  const UINT32 := 0x1_0000_0000
  const DEFAULT_MAX_JUMP := 25000
  const DEFAULT_MAX_OOO := 2000
  const EPOCHS_TO_KEEP := 1

  type uint32 = n: nat | n < 0x1_0000_0000

  datatype Direction = A2B | B2A

  function Switch(d: Direction): (e: Direction) {
    if d == A2B then B2A else A2B
  }

  /** Stored parameters; zero stands for the default. */
  datatype Params = Params(maxJump: uint32, maxOooKeys: uint32) {
    function Jump(): (n: uint32)
      ensures n > 0
    {
      if maxJump == 0 then DEFAULT_MAX_JUMP else maxJump
    }

    function Ooo(): (n: uint32)
      ensures n > 0
    {
      if maxOooKeys == 0 then DEFAULT_MAX_OOO else maxOooKeys
    }
  }

  datatype Error =
    | KeyJump | KeyTrimmed | KeyAlreadyRequested | EpochOutOfRange | SendKeyEpochDecreased | ChainDecode

  datatype Result<+T> = Ok(value: T) | Err(error: Error) {
    predicate IsFailure() { Err? }
    function PropagateFailure<U>(): Result<U> requires Err? { Err(error) }
    function Extract(): T requires Ok? { value }
  }

  // ----- the history of skipped keys -----

  datatype Entry = Entry(idx: uint32, key: Bytes)

  /** The history length past which old keys are dropped. */
  function TrimSize(maxOoo: nat): (n: nat) {
    maxOoo * 11 / 10 + 1
  }

  /** Deletion by moving the last entry into the gap. */
  function SwapRemove(h: seq<Entry>, i: nat): (r: seq<Entry>)
    requires i < |h|
    ensures |r| == |h| - 1
  {
    h[i := h[|h| - 1]][..|h| - 1]
  }

  function DropBelow(h: seq<Entry>, i: nat, horizon: nat): (r: seq<Entry>)
    requires i <= |h|
    decreases |h| - i
  {
    if i == |h| then h
    else if h[i].idx < horizon then DropBelow(SwapRemove(h, i), i, horizon)
    else DropBelow(h, i + 1, horizon)
  }

  function Gc(h: seq<Entry>, current: uint32, maxOoo: uint32): (r: seq<Entry>) {
    if |h| < TrimSize(maxOoo) || current < maxOoo then h
    else DropBelow(h, 0, current - maxOoo)
  }

  /** The position of an index in the history, or its length. */
  function Find(h: seq<Entry>, idx: uint32): (k: nat)
    ensures k <= |h|
    ensures k < |h| ==> h[k].idx == idx
    ensures forall i | 0 <= i < k :: h[i].idx != idx
  {
    if h == [] then 0
    else if h[0].idx == idx then 0
    else
      var rest := Find(h[1..], idx);
      assert forall i | 1 <= i < 1 + rest :: h[i] == h[1..][i - 1];
      1 + rest
  }

  /** A key taken out of the history, and the history without it. */
  function Get(h: seq<Entry>, at: uint32, ctr: uint32, maxOoo: uint32): (r: Result<(Bytes, seq<Entry>)>) {
    if (at + maxOoo) % UINT32 < ctr then Err(KeyTrimmed)
    else
      var k := Find(h, at);
      if k == |h| then Err(KeyAlreadyRequested) else Ok((h[k].key, SwapRemove(h, k)))
  }

  // ----- one direction of one epoch -----

  datatype Half = Half(ctr: uint32, next: Bytes, prev: seq<Entry>)

  function NewHalf(seed: Bytes): (h: Half) {
    Half(0, seed, [])
  }

  /** One chain step: the new state and the key of the new index. */
  function NextKey(c: Crypto, h: Half): (r: (Half, Bytes)) {
    var ctr: uint32 := (h.ctr + 1) % UINT32;
    var okm := c.hkdf(ZeroSalt, h.next, ChainNextInfo(ctr), 64);
    (Half(ctr, Slice(okm, 0, 32), h.prev), Slice(okm, 32, 64))
  }

  /** Steps to just before `at`, keeping the keys that stay inside the window. */
  function SkipTo(c: Crypto, h: Half, at: uint32, maxOoo: uint32): (r: Half)
    requires h.ctr < at
    ensures r.ctr == at - 1
    decreases at - h.ctr
  {
    if at <= h.ctr + 1 then h
    else
      var (h', k) := NextKey(c, h);
      var kept := if (h'.ctr + maxOoo) % UINT32 >= at then h'.(prev := h'.prev + [Entry(h'.ctr, k)]) else h';
      SkipTo(c, kept, at, maxOoo)
  }

  /** The key at an index: from the history, or by stepping forward at most `maxJump`. */
  function Key(c: Crypto, h: Half, at: uint32, p: Params): (r: Result<(Half, Bytes)>) {
    var maxOoo := p.Ooo();
    if at < h.ctr then
      var (k, prev) :- Get(h.prev, at, h.ctr, maxOoo);
      Ok((h.(prev := prev), k))
    else if at == h.ctr then Err(KeyAlreadyRequested)
    else if at - h.ctr > p.Jump() then Err(KeyJump)
    else
      var start := if at > (h.ctr + maxOoo) % UINT32 then h.(prev := []) else h;
      var before := SkipTo(c, start, at, maxOoo);
      Ok(NextKey(c, before.(prev := Gc(before.prev, before.ctr, maxOoo))))
  }

  // ----- the chain of epochs -----

  datatype Link = Link(send: Half, recv: Half)

  datatype Chain = Chain(
    dir: Direction, currentEpoch: nat, sendEpoch: nat, links: seq<Link>, nextRoot: Bytes, params: Params)

  /** What the reader of a stored chain asks: every chain key is whole or cleared. */
  predicate Readable(links: seq<Link>) {
    forall j | 0 <= j < |links| :: HalfReadable(links[j].send) && HalfReadable(links[j].recv)
  }

  predicate HalfReadable(h: Half) {
    h.next == [] || |h.next| == KEY_SIZE
  }

  /** The third of a 96-byte derivation that seeds a direction. */
  function SeedFor(gen: Bytes, d: Direction): (s: Bytes) {
    if d == A2B then Slice(gen, 32, 64) else Slice(gen, 64, 96)
  }

  function NewLink(gen: Bytes, dir: Direction): (l: Link) {
    Link(NewHalf(SeedFor(gen, dir)), NewHalf(SeedFor(gen, Switch(dir))))
  }

  function NewChain(c: Crypto, key: Bytes, dir: Direction, params: Params): (r: Chain) {
    var gen := c.hkdf(ZeroSalt, key, ChainStartInfo, 96);
    Chain(dir, 0, 0, [NewLink(gen, dir)], Slice(gen, 0, 32), params)
  }

  function AddEpoch(c: Crypto, ch: Chain, epoch: nat, secret: Bytes): (r: Result<Chain>) {
    if epoch != ch.currentEpoch + 1 then Err(ChainDecode)
    else
      var gen := c.hkdf(KeySalt(ch.nextRoot), secret, ChainAddEpochInfo, 96);
      Ok(ch.(currentEpoch := epoch, nextRoot := Slice(gen, 0, 32), links := ch.links + [NewLink(gen, ch.dir)]))
  }

  function EpochIdx(ch: Chain, epoch: nat): (r: Result<nat>)
    ensures r.Ok? ==> r.value < |ch.links|
  {
    if epoch > ch.currentEpoch then Err(EpochOutOfRange)
    else if ch.currentEpoch - epoch >= |ch.links| then Err(EpochOutOfRange)
    else Ok(|ch.links| - 1 - (ch.currentEpoch - epoch))
  }

  /** Forgets the send chains of the first `n` links. */
  function ClearSends(links: seq<Link>, n: nat): (r: seq<Link>)
    requires n <= |links|
    ensures |r| == |links|
  {
    seq(|links|, i requires 0 <= i < |links| =>
      if i < n then links[i].(send := links[i].send.(next := [])) else links[i])
  }

  /** The chain once its send epoch is `epoch`, whose link is at `idx`. */
  function EnterSendEpoch(ch: Chain, epoch: nat, idx: nat): (r: Chain)
    requires idx < |ch.links|
    ensures |r.links| == |ch.links|
      - (if ch.sendEpoch != epoch && idx > EPOCHS_TO_KEEP then idx - EPOCHS_TO_KEEP else 0)
  {
    if ch.sendEpoch == epoch then ch
    else
      var drop := if idx > EPOCHS_TO_KEEP then idx - EPOCHS_TO_KEEP else 0;
      ch.(sendEpoch := epoch, links := ClearSends(ch.links[drop..], idx - drop))
  }

  /** The next key of the send stream of an epoch, its index and the new chain. */
  function SendKey(c: Crypto, ch: Chain, epoch: nat): (r: Result<(Chain, uint32, Bytes)>) {
    if epoch < ch.sendEpoch then Err(SendKeyEpochDecreased)
    else
      var idx :- EpochIdx(ch, epoch);
      var t := EnterSendEpoch(ch, epoch, idx);
      var i := if ch.sendEpoch != epoch && idx > EPOCHS_TO_KEEP then EPOCHS_TO_KEEP else idx;
      var (half, key) := NextKey(c, t.links[i].send);
      Ok((t.(links := t.links[i := t.links[i].(send := half)]), half.ctr, key))
  }

  /** The receive key at an epoch and index; index 0 of epoch 0 stands for "no key". */
  function RecvKey(c: Crypto, ch: Chain, epoch: nat, index: uint32): (r: Result<(Chain, Bytes)>) {
    if epoch == 0 && index == 0 then Ok((ch, []))
    else
      var idx :- EpochIdx(ch, epoch);
      var (half, key) :- Key(c, ch.links[idx].recv, index, ch.params);
      Ok((ch.(links := ch.links[idx := ch.links[idx].(recv := half)]), key))
  }
}
