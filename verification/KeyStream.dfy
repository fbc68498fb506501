/**
 One direction of the key chain refines a one-shot random-access key stream: a counter
 and the set of indices already handed out.
 */
module KeyStream {
  import opened Words
  import opened Primitives
  import opened KeyChain

  /** The chain key after `n` steps from a seed. */
  function StreamNext(c: Crypto, seed: Bytes, n: nat): (k: Bytes) {
    if n == 0 then seed else Slice(c.hkdf(ZeroSalt, StreamNext(c, seed, n - 1), ChainNextInfo(n), 64), 0, 32)
  }

  /** The n-th message key of the stream, counting from one. */
  function StreamKey(c: Crypto, seed: Bytes, n: nat): (k: Bytes)
    requires n > 0
  {
    Slice(c.hkdf(ZeroSalt, StreamNext(c, seed, n - 1), ChainNextInfo(n), 64), 32, 64)
  }

  /** The simple machine: what has been handed out, and how far the stream has advanced. */
  datatype OneShot = OneShot(ctr: uint32, served: set<nat>) {
    /** The answer to a request, in terms of the indices served so far alone. */
    function Answer(at: uint32, p: Params): (e: Option<Error>) {
      if at > ctr then (if at - ctr > p.Jump() then Some(KeyJump) else None)
      else if at < ctr && at + p.Ooo() < ctr then Some(KeyTrimmed)
      else if at == 0 || at == ctr || at in served then Some(KeyAlreadyRequested)
      else None
    }

    function Serve(at: uint32): (o: OneShot) {
      OneShot(if at > ctr then at else ctr, served + {at})
    }
  }

  ghost predicate DistinctIdx(h: seq<Entry>) {
    forall i, j | 0 <= i < j < |h| :: h[i].idx != h[j].idx
  }

  ghost predicate Holds(h: seq<Entry>, idx: nat) {
    exists k | 0 <= k < |h| :: h[k].idx == idx
  }

  /** Entries are unserved keys of the stream below the counter. */
  ghost predicate EntriesOk(c: Crypto, seed: Bytes, h: seq<Entry>, ctr: nat, served: set<nat>) {
    && DistinctIdx(h)
    && forall k | 0 <= k < |h| ::
         1 <= h[k].idx < ctr && h[k].idx !in served && h[k].key == StreamKey(c, seed, h[k].idx)
  }

  /** Every unserved index of the window below `ctr` is at hand for a counter of `at`. */
  ghost predicate WindowHeld(h: seq<Entry>, ctr: nat, at: nat, maxOoo: nat, served: set<nat>) {
    forall i {:trigger Holds(h, i)} | 1 <= i < ctr && i + maxOoo >= at && i !in served :: Holds(h, i)
  }

  ghost predicate Refines(c: Crypto, seed: Bytes, p: Params, h: Half, o: OneShot) {
    && h.ctr == o.ctr && h.next == StreamNext(c, seed, h.ctr)
    && (forall i <- o.served :: 1 <= i <= o.ctr) && (o.ctr > 0 ==> o.ctr in o.served)
    && EntriesOk(c, seed, h.prev, h.ctr, o.served)
    && WindowHeld(h.prev, h.ctr, h.ctr, p.Ooo(), o.served)
  }

  /** No 32-bit sum of the step wraps. */
  predicate NoWrap(ctr: nat, at: nat, p: Params) {
    ctr + p.Ooo() < UINT32 && at + p.Ooo() < UINT32
  }

  function SizeBound(p: Params): (n: nat) {
    if TrimSize(p.Ooo()) - 1 > p.Ooo() + 1 then TrimSize(p.Ooo()) - 1 else p.Ooo() + 1
  }

  // ----- the history -----

  lemma SwapRemoveIs(h: seq<Entry>, i: nat)
    requires i < |h| && DistinctIdx(h)
    ensures var r := SwapRemove(h, i);
      && DistinctIdx(r)
      && (forall k | 0 <= k < |r| :: r[k] in h && r[k].idx != h[i].idx)
      && (forall e <- h | e.idx != h[i].idx :: e in r)
  {
    var r, n := SwapRemove(h, i), |h| - 1;
    forall e <- h | e.idx != h[i].idx ensures e in r {
      var k :| 0 <= k < |h| && h[k] == e;
      assert k == n ==> r[i] == e;
      assert k < n ==> r[k] == e;
    }
  }

  lemma {:induction false} DropBelowIs(h: seq<Entry>, i: nat, horizon: nat)
    requires i <= |h| && DistinctIdx(h) && forall k | 0 <= k < i :: h[k].idx >= horizon
    ensures var r := DropBelow(h, i, horizon);
      && DistinctIdx(r)
      && (forall k | 0 <= k < |r| :: r[k] in h && r[k].idx >= horizon)
      && (forall e <- h | e.idx >= horizon :: e in r)
    decreases |h| - i
  {
    if i < |h| {
      if h[i].idx < horizon {
        SwapRemoveIs(h, i);
        DropBelowIs(SwapRemove(h, i), i, horizon);
      } else {
        DropBelowIs(h, i + 1, horizon);
      }
    }
  }

  lemma {:induction false} DistinctSize(h: seq<Entry>, lo: nat, hi: nat)
    requires DistinctIdx(h) && lo <= hi && forall k | 0 <= k < |h| :: lo <= h[k].idx < hi
    ensures |h| <= hi - lo
  {
    var s: set<nat> := set k | 0 <= k < |h| :: h[k].idx;
    IdxSetSize(h, s);
    RangeIs(lo, hi - lo);
    SubsetSize(s, Range(lo, hi - lo));
  }

  lemma {:induction false} IdxSetSize(h: seq<Entry>, s: set<nat>)
    requires DistinctIdx(h) && s == set k | 0 <= k < |h| :: h[k].idx
    ensures |s| == |h|
    decreases |h|
  {
    if h != [] {
      var n := |h| - 1;
      var t: set<nat> := set k | 0 <= k < n :: h[..n][k].idx;
      IdxSetSize(h[..n], t);
      assert s == t + {h[n].idx as nat};
    }
  }

  /** Collecting garbage drops only what no request can reach any more, and bounds the size. */
  lemma GcKeeps(c: Crypto, seed: Bytes, h: seq<Entry>, current: uint32, p: Params, served: set<nat>)
    requires current + 1 < UINT32 && EntriesOk(c, seed, h, current + 1, served)
    requires WindowHeld(h, current + 1, current + 1, p.Ooo(), served)
    ensures var r := Gc(h, current, p.Ooo());
      && EntriesOk(c, seed, r, current + 1, served) && WindowHeld(r, current + 1, current + 1, p.Ooo(), served)
      && |r| <= SizeBound(p)
  {
    hide StreamKey;
    var maxOoo := p.Ooo();
    var r := Gc(h, current, maxOoo);
    if current < maxOoo {
      DistinctSize(h, 1, current + 1);
    } else if |h| >= TrimSize(maxOoo) {
      var horizon := current - maxOoo;
      DropBelowIs(h, 0, horizon);
      DistinctSize(r, horizon, current + 1);
      forall i {:trigger Holds(r, i)} | 1 <= i < current + 1 && i + maxOoo >= current + 1 && i !in served
        ensures Holds(r, i)
      {
        assert Holds(h, i);
        var k :| 0 <= k < |h| && h[k].idx == i;
        assert h[k] in r;
      }
    }
  }

  // ----- stepping forward -----

  lemma NextKeyIs(c: Crypto, seed: Bytes, h: Half)
    requires h.next == StreamNext(c, seed, h.ctr) && h.ctr + 1 < UINT32
    ensures var (h', k) := NextKey(c, h);
      && h'.ctr == h.ctr + 1 && h'.prev == h.prev
      && h'.next == StreamNext(c, seed, h'.ctr) && k == StreamKey(c, seed, h'.ctr)
  {
  }

  lemma {:induction false} SkipToIs(c: Crypto, seed: Bytes, h: Half, at: uint32, maxOoo: uint32, served: set<nat>)
    requires h.ctr < at && at + maxOoo < UINT32 && h.next == StreamNext(c, seed, h.ctr)
    requires EntriesOk(c, seed, h.prev, h.ctr + 1, served) && WindowHeld(h.prev, h.ctr + 1, at, maxOoo, served)
    requires forall i <- served :: i <= h.ctr
    ensures var r := SkipTo(c, h, at, maxOoo);
      && r.next == StreamNext(c, seed, at - 1)
      && EntriesOk(c, seed, r.prev, at, served) && WindowHeld(r.prev, at, at, maxOoo, served)
    decreases at - h.ctr
  {
    hide StreamNext, StreamKey, NextKey;
    if at > h.ctr + 1 {
      NextKeyIs(c, seed, h);
      var (h', k) := NextKey(c, h);
      var kept := if (h'.ctr + maxOoo) % UINT32 >= at then h'.(prev := h'.prev + [Entry(h'.ctr, k)]) else h';
      KeepSkipped(c, seed, h.prev, h'.ctr, k, kept.prev, at, maxOoo, served);
      SkipToIs(c, seed, kept, at, maxOoo, served);
    }
  }

  lemma KeepSkipped(c: Crypto, seed: Bytes, h: seq<Entry>, n: uint32, k: Bytes, r: seq<Entry>,
                    at: uint32, maxOoo: uint32, served: set<nat>)
    requires n > 0 && k == StreamKey(c, seed, n) && n !in served
    requires EntriesOk(c, seed, h, n, served) && WindowHeld(h, n, at, maxOoo, served)
    requires r == if n + maxOoo >= at then h + [Entry(n, k)] else h
    ensures EntriesOk(c, seed, r, n + 1, served) && WindowHeld(r, n + 1, at, maxOoo, served)
  {
    hide StreamKey;
    forall i {:trigger Holds(r, i)} | 1 <= i < n + 1 && i + maxOoo >= at && i !in served ensures Holds(r, i) {
      if i == n {
        assert r[|h|].idx == n;
      } else {
        assert Holds(h, i);
        var j :| 0 <= j < |h| && h[j].idx == i;
        assert r[j] == h[j];
      }
    }
  }

  // ----- one request -----

  lemma FutureKey(c: Crypto, seed: Bytes, p: Params, h: Half, o: OneShot, at: uint32)
    requires Refines(c, seed, p, h, o) && NoWrap(h.ctr, at, p)
    requires h.ctr < at && at - h.ctr <= p.Jump()
    ensures var r := Key(c, h, at, p);
      && r.Ok? && r.value.1 == StreamKey(c, seed, at)
      && Refines(c, seed, p, r.value.0, o.Serve(at)) && |r.value.0.prev| <= SizeBound(p)
  {
    hide StreamNext, StreamKey, NextKey, SkipTo, Gc;
    var maxOoo := p.Ooo();
    var start := if at > (h.ctr + maxOoo) % UINT32 then h.(prev := []) else h;
    assert EntriesOk(c, seed, start.prev, start.ctr + 1, o.served);
    assert WindowHeld(start.prev, start.ctr + 1, at, maxOoo, o.served);
    SkipToIs(c, seed, start, at, maxOoo, o.served);
    var before := SkipTo(c, start, at, maxOoo);
    GcKeeps(c, seed, before.prev, before.ctr, p, o.served);
    var trimmed := before.(prev := Gc(before.prev, before.ctr, maxOoo));
    NextKeyIs(c, seed, trimmed);
  }

  lemma PastKey(c: Crypto, seed: Bytes, p: Params, h: Half, o: OneShot, at: uint32)
    requires Refines(c, seed, p, h, o) && NoWrap(h.ctr, at, p) && at < h.ctr
    ensures var r := Key(c, h, at, p);
      match o.Answer(at, p)
      case Some(e) => r == Err(e)
      case None =>
        && r.Ok? && r.value.1 == StreamKey(c, seed, at)
        && Refines(c, seed, p, r.value.0, o.Serve(at)) && |r.value.0.prev| < |h.prev|
  {
    hide StreamNext, StreamKey, NextKey, SkipTo, Gc;
    var k := Find(h.prev, at);
    assert WindowHeld(h.prev, h.ctr, h.ctr, p.Ooo(), o.served);
    if o.Answer(at, p).None? {
      assert Holds(h.prev, at);
      assert k < |h.prev|;
      SwapRemoveIs(h.prev, k);
      TakeKeeps(c, seed, h, at, k, p, o);
    } else if at + p.Ooo() >= h.ctr {
      assert k == |h.prev|;
    }
  }

  lemma TakeKeeps(c: Crypto, seed: Bytes, h: Half, at: uint32, k: nat, p: Params, o: OneShot)
    requires Refines(c, seed, p, h, o) && k < |h.prev| && h.prev[k].idx == at && at < h.ctr
    ensures Refines(c, seed, p, h.(prev := SwapRemove(h.prev, k)), o.Serve(at))
  {
    hide StreamNext, StreamKey, SwapRemove;
    var r := SwapRemove(h.prev, k);
    SwapRemoveIs(h.prev, k);
    forall i {:trigger Holds(r, i)} | 1 <= i < h.ctr && i + p.Ooo() >= h.ctr && i !in o.served + {at as nat}
      ensures Holds(r, i)
    {
      assert Holds(h.prev, i);
      var j :| 0 <= j < |h.prev| && h.prev[j].idx == i;
      assert h.prev[j] in r;
    }
  }

  /**
   One request, answered exactly as the simple machine answers it: the same error, or the
   at-th key of the stream. The history never exceeds its bound.
   */
  lemma KeyRefines(c: Crypto, seed: Bytes, p: Params, h: Half, o: OneShot, at: uint32)
    requires Refines(c, seed, p, h, o) && NoWrap(h.ctr, at, p) && |h.prev| <= SizeBound(p)
    ensures var r := Key(c, h, at, p);
      match o.Answer(at, p)
      case Some(e) => r == Err(e)
      case None =>
        && at > 0 && r.Ok? && r.value.1 == StreamKey(c, seed, at)
        && Refines(c, seed, p, r.value.0, o.Serve(at)) && |r.value.0.prev| <= SizeBound(p)
  {
    if at < h.ctr {
      PastKey(c, seed, p, h, o, at);
    } else if at > h.ctr && at - h.ctr <= p.Jump() {
      FutureKey(c, seed, p, h, o, at);
    }
  }

  // ----- any sequence of requests -----

  /** The answers of the packed history to a sequence of requests; a refused one changes nothing. */
  function KeyRun(c: Crypto, h: Half, ats: seq<uint32>, p: Params): (r: (seq<Result<Bytes>>, Half))
    ensures |r.0| == |ats|
    decreases |ats|
  {
    if ats == [] then ([], h)
    else
      match Key(c, h, ats[0], p)
      case Ok((h', k)) => var (rest, last) := KeyRun(c, h', ats[1..], p); ([Ok(k)] + rest, last)
      case Err(e) => var (rest, last) := KeyRun(c, h, ats[1..], p); ([Err(e)] + rest, last)
  }

  /** The answers of the simple machine over the same stream. */
  function AnswerRun(c: Crypto, seed: Bytes, o: OneShot, ats: seq<uint32>, p: Params): (r: seq<Result<Bytes>>)
    ensures |r| == |ats|
    decreases |ats|
  {
    if ats == [] then []
    else
      match o.Answer(ats[0], p)
      case Some(e) => [Err(e)] + AnswerRun(c, seed, o, ats[1..], p)
      case None =>
        (if ats[0] > 0 then [Ok(StreamKey(c, seed, ats[0]))] else [Err(KeyAlreadyRequested)])
        + AnswerRun(c, seed, o.Serve(ats[0]), ats[1..], p)
  }

  lemma {:induction false} RunRefines(c: Crypto, seed: Bytes, p: Params, h: Half, o: OneShot, ats: seq<uint32>)
    requires Refines(c, seed, p, h, o) && |h.prev| <= SizeBound(p) && h.ctr + p.Ooo() < UINT32
    requires forall i | 0 <= i < |ats| :: ats[i] + p.Ooo() < UINT32
    ensures KeyRun(c, h, ats, p).0 == AnswerRun(c, seed, o, ats, p)
    ensures |KeyRun(c, h, ats, p).1.prev| <= SizeBound(p)
    decreases |ats|
  {
    hide Refines, Key, StreamKey, SizeBound;
    if ats != [] {
      KeyRefines(c, seed, p, h, o, ats[0]);
      match o.Answer(ats[0], p)
      case Some(e) => RunRefines(c, seed, p, h, o, ats[1..]);
      case None =>
        var h' := Key(c, h, ats[0], p).value.0;
        assert h'.ctr == o.Serve(ats[0]).ctr && h.ctr == o.ctr by { CountersAgree(c, seed, p, h, o, ats[0]); }
        RunRefines(c, seed, p, h', o.Serve(ats[0]), ats[1..]);
    }
  }

  lemma CountersAgree(c: Crypto, seed: Bytes, p: Params, h: Half, o: OneShot, at: uint32)
    requires Refines(c, seed, p, h, o)
    ensures h.ctr == o.ctr
    ensures Key(c, h, at, p).Ok? && Refines(c, seed, p, Key(c, h, at, p).value.0, o.Serve(at))
        ==> Key(c, h, at, p).value.0.ctr == o.Serve(at).ctr
  {
  }

  /** A fresh direction answers every request sequence like the one-shot stream of its seed. */
  lemma StreamRefinesOneShot(c: Crypto, seed: Bytes, p: Params, ats: seq<uint32>)
    requires forall i | 0 <= i < |ats| :: ats[i] + p.Ooo() < UINT32
    ensures KeyRun(c, NewHalf(seed), ats, p).0 == AnswerRun(c, seed, OneShot(0, {}), ats, p)
    ensures |KeyRun(c, NewHalf(seed), ats, p).1.prev| <= SizeBound(p)
  {
    RunRefines(c, seed, p, NewHalf(seed), OneShot(0, {}), ats);
  }

  /** Once served, an index is never served again, whatever is asked in between. */
  lemma {:induction false} ServedOnce(c: Crypto, seed: Bytes, o: OneShot, ats: seq<uint32>, p: Params, i: nat)
    requires i < |ats| && ats[i] in o.served && (forall k <- o.served :: k <= o.ctr)
    ensures AnswerRun(c, seed, o, ats, p)[i].Err?
    decreases |ats|
  {
    if i > 0 {
      ServedOnce(c, seed, if o.Answer(ats[0], p).None? then o.Serve(ats[0]) else o, ats[1..], p, i - 1);
    }
  }

  lemma {:induction false} AnsweredOnce(
      c: Crypto, seed: Bytes, o: OneShot, ats: seq<uint32>, p: Params, i: nat, j: nat)
    requires i < j < |ats| && ats[i] == ats[j] && (forall k <- o.served :: k <= o.ctr)
    ensures AnswerRun(c, seed, o, ats, p)[i].Err? || AnswerRun(c, seed, o, ats, p)[j].Err?
    decreases |ats|
  {
    var o' := if o.Answer(ats[0], p).None? then o.Serve(ats[0]) else o;
    if i == 0 {
      if o.Answer(ats[0], p).None? {
        ServedOnce(c, seed, o', ats[1..], p, j - 1);
      }
    } else {
      AnsweredOnce(c, seed, o', ats[1..], p, i - 1, j - 1);
    }
  }

  /** No key of a direction is handed out twice, whatever is asked. */
  lemma EachKeyAtMostOnce(c: Crypto, seed: Bytes, p: Params, ats: seq<uint32>, i: nat, j: nat)
    requires forall n | 0 <= n < |ats| :: ats[n] + p.Ooo() < UINT32
    requires i < j < |ats| && ats[i] == ats[j]
    ensures var rs := KeyRun(c, NewHalf(seed), ats, p).0; |rs| == |ats| && (rs[i].Err? || rs[j].Err?)
  {
    StreamRefinesOneShot(c, seed, p, ats);
    AnsweredOnce(c, seed, OneShot(0, {}), ats, p, i, j);
  }
}
