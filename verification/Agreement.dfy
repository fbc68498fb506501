/**
 Two ratchets over a lossy network: whenever a receive of a message succeeds it yields
 exactly the key its send yielded.
 */
module Agreement {
  import opened Words
  import opened Parties
  import opened Primitives
  import V1 = V1Machine
  import KC = KeyChain
  import opened KeyStream
  import opened V1Joint
  import opened V1Safety
  import opened WireMessage
  import opened Ratchet
  import opened RatchetRuns

  // ----- one key stream -----

  /** A receive direction that can only hand out keys of the stream of `seed`. */
  ghost predicate RecvOk(c: Crypto, seed: Bytes, h: KC.Half) {
    && h.next == StreamNext(c, seed, h.ctr)
    && AllOnStream(c, seed, h.prev)
  }

  ghost predicate AllOnStream(c: Crypto, seed: Bytes, es: seq<KC.Entry>) {
    forall k | 0 <= k < |es| :: es[k].idx > 0 && es[k].key == StreamKey(c, seed, es[k].idx)
  }

  lemma {:induction false} DropBelowSubset(es: seq<KC.Entry>, i: nat, horizon: nat)
    requires i <= |es|
    ensures forall e <- KC.DropBelow(es, i, horizon) :: e in es
    decreases |es| - i
  {
    if i < |es| {
      if es[i].idx < horizon {
        var r := KC.SwapRemove(es, i);
        assert forall k | 0 <= k < |r| :: r[k] in es;
        DropBelowSubset(r, i, horizon);
      } else {
        DropBelowSubset(es, i + 1, horizon);
      }
    }
  }

  lemma GcOnStream(c: Crypto, seed: Bytes, es: seq<KC.Entry>, current: KC.uint32, maxOoo: KC.uint32)
    requires AllOnStream(c, seed, es)
    ensures AllOnStream(c, seed, KC.Gc(es, current, maxOoo))
  {
    hide StreamKey;
    var r := KC.Gc(es, current, maxOoo);
    if |es| >= KC.TrimSize(maxOoo) && current >= maxOoo {
      DropBelowSubset(es, 0, current - maxOoo);
    }
    forall k | 0 <= k < |r| ensures r[k].idx > 0 && r[k].key == StreamKey(c, seed, r[k].idx) {
      assert r[k] in es;
    }
  }

  lemma {:induction false} SkipOnStream(c: Crypto, seed: Bytes, h: KC.Half, at: KC.uint32, maxOoo: KC.uint32)
    requires RecvOk(c, seed, h) && h.ctr < at
    ensures RecvOk(c, seed, KC.SkipTo(c, h, at, maxOoo))
    decreases at - h.ctr
  {
    hide StreamKey, StreamNext, KC.NextKey;
    if at > h.ctr + 1 {
      NextKeyIs(c, seed, h);
      var (h', k) := KC.NextKey(c, h);
      var kept := if (h'.ctr + maxOoo) % KC.UINT32 >= at then h'.(prev := h'.prev + [KC.Entry(h'.ctr, k)]) else h';
      SkipOnStream(c, seed, kept, at, maxOoo);
    }
  }

  /** A successful request yields the key of its index, even if 32-bit window sums wrap. */
  lemma KeyIsStreamKey(c: Crypto, seed: Bytes, h: KC.Half, at: KC.uint32, p: KC.Params)
    requires RecvOk(c, seed, h) && KC.Key(c, h, at, p).Ok?
    ensures at > 0 && KC.Key(c, h, at, p).value.1 == StreamKey(c, seed, at)
    ensures RecvOk(c, seed, KC.Key(c, h, at, p).value.0)
  {
    hide StreamKey, StreamNext, KC.NextKey, KC.SkipTo, KC.Gc;
    if at > h.ctr {
      var start := if at > (h.ctr + p.Ooo()) % KC.UINT32 then h.(prev := []) else h;
      SkipOnStream(c, seed, start, at, p.Ooo());
      var before := KC.SkipTo(c, start, at, p.Ooo());
      GcOnStream(c, seed, before.prev, before.ctr, p.Ooo());
      NextKeyIs(c, seed, before.(prev := KC.Gc(before.prev, before.ctr, p.Ooo())));
    }
  }

  // ----- the seeds of the epochs -----

  function DirOf(p: Party): (d: KC.Direction) {
    if p == Alice then KC.A2B else KC.B2A
  }

  /** The 96-byte derivation that opens a chain epoch, from the secrets of all epochs so far. */
  function Gen(c: Crypto, authKey: Bytes, xs: seq<Exchange>): (g: Bytes)
    requires forall i | 0 <= i < |xs| :: xs[i].Full?
  {
    if xs == [] then c.hkdf(ZeroSalt, authKey, ChainStartInfo, 96)
    else
      var n := |xs|;
      c.hkdf(KeySalt(Slice(Gen(c, authKey, xs[..n - 1]), 0, 32)), SecretOf(c, xs[n - 1], n), ChainAddEpochInfo, 96)
  }

  /** The exchanges of epochs 1 to `k` are complete as far as their secret goes. */
  ghost predicate Settled(l: Log, k: nat) {
    k <= l.Epoch() && forall e | 1 <= e <= k :: l.At(e).Full?
  }

  ghost function Known(l: Log, k: nat): (xs: seq<Exchange>)
    requires Settled(l, k)
    ensures |xs| == k && forall i | 0 <= i < k :: xs[i].Full?
  {
    seq(k, i requires 0 <= i < k => l.At(i + 1))
  }

  ghost function Seed(l: Log, k: nat, d: KC.Direction): (s: Bytes)
    requires Settled(l, k)
  {
    KC.SeedFor(Gen(l.c, l.authKey, Known(l, k)), d)
  }

  ghost function Root(l: Log, k: nat): (s: Bytes)
    requires Settled(l, k)
  {
    Slice(Gen(l.c, l.authKey, Known(l, k)), 0, 32)
  }

  lemma KnownGrows(l: Log, l': Log, k: nat)
    requires l.Ok() && l'.Ok() && Grows(l, l') && Settled(l, k)
    ensures Settled(l', k) && Known(l', k) == Known(l, k)
  {
    assert forall e | 1 <= e <= k :: V1Safety.Refines(l.At(e), l'.At(e));
    assert forall i | 0 <= i < k :: Known(l', k)[i] == l'.At(i + 1);
  }

  /** Every stream of a party's chain is the stream of its epoch and direction. */
  ghost predicate ChainAgrees(l: Log, ch: KC.Chain, p: Party) {
    && ch.dir == DirOf(p) && First(ch) >= 0
    && Settled(l, ch.currentEpoch) && ch.nextRoot == Root(l, ch.currentEpoch)
    && forall j | 0 <= j < |ch.links| :: LinkAgrees(l, ch, p, j)
  }

  ghost predicate LinkAgrees(l: Log, ch: KC.Chain, p: Party, j: nat)
    requires j < |ch.links| && First(ch) >= 0 && Settled(l, ch.currentEpoch)
  {
    var e := First(ch) + j;
    && RecvOk(l.c, Seed(l, e, DirOf(Other(p))), ch.links[j].recv)
    && (e >= ch.sendEpoch ==> ch.links[j].send.next == StreamNext(l.c, Seed(l, e, DirOf(p)), ch.links[j].send.ctr))
  }

  lemma ChainGrows(l: Log, l': Log, ch: KC.Chain, p: Party)
    requires l.Ok() && l'.Ok() && Grows(l, l') && ChainAgrees(l, ch, p)
    ensures ChainAgrees(l', ch, p)
  {
    hide Gen, RecvOk, StreamNext, Log.Ok;
    KnownGrows(l, l', ch.currentEpoch);
    forall j | 0 <= j < |ch.links| ensures LinkAgrees(l', ch, p, j) {
      assert LinkAgrees(l, ch, p, j);
      KnownGrows(l, l', First(ch) + j);
    }
  }

  lemma NewChainAgrees(l: Log, p: Party, params: KC.Params)
    requires l.Ok()
    ensures ChainAgrees(l, KC.NewChain(l.c, l.authKey, DirOf(p), params), p)
  {
    var ch := KC.NewChain(l.c, l.authKey, DirOf(p), params);
    assert Known(l, 0) == [];
    assert LinkAgrees(l, ch, p, 0);
  }

  lemma AddEpochAgrees(l: Log, ch: KC.Chain, p: Party)
    requires l.Ok() && ChainAgrees(l, ch, p)
    requires Settled(l, ch.currentEpoch + 1)
    ensures var e := ch.currentEpoch + 1;
      var r := KC.AddEpoch(l.c, ch, e, SecretOf(l.c, l.At(e), e));
      r.Ok? && ChainAgrees(l, r.value, p)
  {
    hide RecvOk, StreamNext, Log.Ok, SecretOf;
    var e := ch.currentEpoch + 1;
    var ch' := KC.AddEpoch(l.c, ch, e, SecretOf(l.c, l.At(e), e)).value;
    assert Known(l, e)[..e - 1] == Known(l, e - 1);
    forall j | 0 <= j < |ch'.links| ensures LinkAgrees(l, ch', p, j) {
      if j < |ch.links| {
        assert LinkAgrees(l, ch, p, j);
      } else {
        FreshHalf(l.c, Seed(l, e, DirOf(Other(p))));
        FreshHalf(l.c, Seed(l, e, DirOf(p)));
      }
    }
  }

  lemma FreshHalf(c: Crypto, seed: Bytes)
    ensures RecvOk(c, seed, KC.NewHalf(seed)) && StreamNext(c, seed, 0) == seed
  {
  }

  /** A send draws the next key of its epoch's stream. */
  lemma SendKeyAgrees(l: Log, ch: KC.Chain, p: Party, epoch: nat)
    requires l.Ok() && ChainAgrees(l, ch, p)
    requires ch.sendEpoch - 1 <= First(ch) <= ch.sendEpoch <= epoch <= ch.currentEpoch
    requires SendLink(ch, epoch).ctr + 1 < KC.UINT32
    ensures var r := KC.SendKey(l.c, ch, epoch);
      && r.Ok? && r.value.1 > 0 && Settled(l, epoch)
      && r.value.2 == StreamKey(l.c, Seed(l, epoch, DirOf(p)), r.value.1)
      && ChainAgrees(l, r.value.0, p)
  {
    hide Gen, RecvOk, StreamNext, StreamKey, KC.NextKey, KC.SendKey, Log.Ok;
    SendKeyShape(l.c, ch, epoch);
    var ch' := KC.SendKey(l.c, ch, epoch).value.0;
    assert LinkAgrees(l, ch, p, epoch - First(ch));
    NextKeyIs(l.c, Seed(l, epoch, DirOf(p)), SendLink(ch, epoch));
    forall j | 0 <= j < |ch'.links| ensures LinkAgrees(l, ch', p, j) {
      assert LinkAgrees(l, ch, p, j + First(ch') - First(ch));
    }
  }

  /** A successful receive yields the key at its index of the sender's stream. */
  lemma RecvKeyAgrees(l: Log, ch: KC.Chain, p: Party, epoch: nat, index: KC.uint32)
    requires l.Ok() && ChainAgrees(l, ch, p) && KC.RecvKey(l.c, ch, epoch, index).Ok?
    ensures var r := KC.RecvKey(l.c, ch, epoch, index).value;
      && ChainAgrees(l, r.0, p)
      && (if epoch == 0 && index == 0 then r.1 == []
          else index > 0 && Settled(l, epoch) && r.1 == StreamKey(l.c, Seed(l, epoch, DirOf(Other(p))), index))
  {
    hide Gen, RecvOk, StreamNext, StreamKey, KC.Key, Log.Ok;
    if epoch != 0 || index != 0 {
      var i := KC.EpochIdx(ch, epoch).value;
      assert LinkAgrees(l, ch, p, i) && First(ch) + i == epoch;
      KeyIsStreamKey(l.c, Seed(l, epoch, DirOf(Other(p))), ch.links[i].recv, index, ch.params);
      var ch' := KC.RecvKey(l.c, ch, epoch, index).value.0;
      forall j | 0 <= j < |ch'.links| ensures LinkAgrees(l, ch', p, j) {
        assert LinkAgrees(l, ch, p, j);
      }
    }
  }
}
