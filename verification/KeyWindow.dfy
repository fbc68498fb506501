/**
 The keys of one symmetric chain as a window onto a stream of indices: every index below
 the chain's position can be asked for once, unless 2000 later ones are still waiting.
 Both the session's and the group's skipped-key caches refine it.
 */
module KeyWindow {

  const MAX_FORWARD_JUMPS := 25000
  const MAX_MESSAGE_KEYS := 2000
  const UINT32 := 0x1_0000_0000

  datatype Answer = Served | Duplicate | TooFar

  predicate Ascending(s: seq<nat>) {
    forall i, j | 0 <= i < j < |s| :: s[i] < s[j]
  }

  /** The newest 2000 of an ascending list. */
  function Newest(s: seq<nat>): (r: seq<nat>)
    ensures |r| <= MAX_MESSAGE_KEYS
  {
    if |s| <= MAX_MESSAGE_KEYS then s else s[|s| - MAX_MESSAGE_KEYS..]
  }

  lemma NewestSmall(s: seq<nat>)
    requires |s| <= MAX_MESSAGE_KEYS
    ensures Newest(s) == s
  {
  }

  /** Dropping in between does not change what is kept in the end. */
  lemma NewestAgain(s: seq<nat>, t: seq<nat>)
    ensures Newest(Newest(s) + t) == Newest(s + t)
  {
    if |s| > MAX_MESSAGE_KEYS {
      var a, cut := s + t, |s| - MAX_MESSAGE_KEYS;
      assert Newest(s) + t == a[cut..];
      assert a[cut..][|t|..] == a[cut + |t|..];
    }
  }

  /** lo, lo + 1, ..., hi - 1. */
  function UpTo(lo: nat, hi: nat): (r: seq<nat>)
    requires lo <= hi
    ensures |r| == hi - lo && forall i | 0 <= i < |r| :: r[i] == lo + i
  {
    seq(hi - lo, i requires 0 <= i < hi - lo => lo + i)
  }

  /** The position of the chain and the skipped indices below it that are still held. */
  datatype Window = Window(next: nat, held: seq<nat>) {
    predicate Ok() {
      && Ascending(held) && |held| <= MAX_MESSAGE_KEYS
      && forall i | 0 <= i < |held| :: held[i] < next
    }

    function Without(i: nat): (w: Window) {
      Window(next, Remove(held, i))
    }

    function Skipped(i: nat): (r: seq<nat>)
      requires next <= i
    {
      Newest(held + UpTo(next, i))
    }

    function Request(i: nat): (r: (Window, Answer)) {
      if i < next then
        if i in held then (Without(i), Served) else (this, Duplicate)
      else if i - next > MAX_FORWARD_JUMPS then (this, TooFar)
      else (Window(i + 1, Skipped(i)), Served)
    }
  }

  /** The list without its first occurrence of i. */
  function Remove(s: seq<nat>, i: nat): (r: seq<nat>) {
    if s == [] then [] else if s[0] == i then s[1..] else [s[0]] + Remove(s[1..], i)
  }

  lemma {:induction false} RemoveIs(s: seq<nat>, i: nat)
    requires Ascending(s)
    ensures Ascending(Remove(s, i)) && |Remove(s, i)| <= |s|
    ensures forall x: nat :: x in Remove(s, i) <==> x in s && x != i
    decreases |s|
  {
    if s != [] {
      RemoveIs(s[1..], i);
      assert s == [s[0]] + s[1..];
      forall k | 0 <= k < |Remove(s[1..], i)| ensures Remove(s[1..], i)[k] > s[0] {
        assert Remove(s[1..], i)[k] in s[1..];
      }
    }
  }

  lemma RequestOk(w: Window, i: nat)
    requires w.Ok()
    ensures w.Request(i).0.Ok() && w.next <= w.Request(i).0.next
  {
    hide Remove;
    RemoveIs(w.held, i);
    if i < w.next {
      var w' := w.Without(i);
      forall k | 0 <= k < |w'.held| ensures w'.held[k] < w'.next {
        assert w'.held[k] in w.held;
      }
    }
  }

  lemma NewestDrops(s: seq<nat>, x: nat)
    requires Ascending(s) && x in s
    ensures x in Newest(s) || (|Newest(s)| == MAX_MESSAGE_KEYS && forall k | 0 <= k < |Newest(s)| :: Newest(s)[k] > x)
  {
    var k :| 0 <= k < |s| && s[k] == x;
    var cut := if |s| <= MAX_MESSAGE_KEYS then 0 else |s| - MAX_MESSAGE_KEYS;
    assert Newest(s) == s[cut..];
    if k >= cut {
      assert Newest(s)[k - cut] == x;
    }
  }

  /** An index leaves the window only by being served or behind 2000 later ones. */
  lemma LeavesOnlyWhenFull(w: Window, i: nat, x: nat)
    requires w.Ok() && x != i
    requires x in w.held || w.next <= x < w.Request(i).0.next
    ensures var held := w.Request(i).0.held;
      x in held || (|held| == MAX_MESSAGE_KEYS && forall k | 0 <= k < |held| :: held[k] > x)
  {
    hide Remove, Newest;
    RemoveIs(w.held, i);
    if i >= w.next && w.Request(i).1.Served? {
      var all := w.held + UpTo(w.next, i);
      assert x in all by {
        if x !in w.held {
          assert UpTo(w.next, i)[x - w.next] == x;
        }
      }
      NewestDrops(all, x);
    }
  }

  // ----- whole request sequences -----

  function After(w: Window, asks: seq<nat>): (r: Window) {
    if asks == [] then w else After(w, asks[..|asks| - 1]).Request(asks[|asks| - 1]).0
  }

  /** The n-th request is answered with its key. */
  predicate ServedAt(w: Window, asks: seq<nat>, n: nat)
    requires n < |asks|
  {
    After(w, asks[..n]).Request(asks[n]).1.Served?
  }

  lemma {:induction false} AfterOk(w: Window, asks: seq<nat>)
    requires w.Ok()
    ensures After(w, asks).Ok()
    decreases |asks|
  {
    if asks != [] {
      AfterOk(w, asks[..|asks| - 1]);
      RequestOk(After(w, asks[..|asks| - 1]), asks[|asks| - 1]);
    }
  }

  /** A served index is behind the position and no longer held, from then on. */
  lemma {:induction false} ServedIsGone(w: Window, asks: seq<nat>, n: nat, m: nat)
    requires w.Ok() && n < m <= |asks| && ServedAt(w, asks, n)
    ensures After(w, asks[..m]).Ok() && asks[n] < After(w, asks[..m]).next && asks[n] !in After(w, asks[..m]).held
    decreases m
  {
    hide Remove, Window.Skipped;
    AfterOk(w, asks[..m]);
    AfterOk(w, asks[..m - 1]);
    var was, i := After(w, asks[..m - 1]), asks[m - 1];
    assert asks[..m][..m - 1] == asks[..m - 1];
    assert After(w, asks[..m]) == was.Request(i).0;
    RemoveIs(was.held, i);
    if m == n + 1 {
      SkippedBelow(was, i);
    } else {
      ServedIsGone(w, asks, n, m - 1);
      SkippedBelow(was, i);
    }
  }

  /** Skipping to i holds only old entries and indices from the position up to i. */
  lemma SkippedBelow(w: Window, i: nat)
    requires w.Ok()
    ensures w.next <= i ==> forall x: nat | x in w.Skipped(i) :: (x in w.held || w.next <= x < i)
  {
    if w.next <= i {
      var all := w.held + UpTo(w.next, i);
      forall x: nat | x in w.Skipped(i) ensures x in w.held || w.next <= x < i {
        assert x in all;
      }
    }
  }

  /** No index is served twice, in any sequence of requests. */
  lemma EachIndexOnce(w: Window, asks: seq<nat>, n: nat, m: nat)
    requires w.Ok() && n < m < |asks| && ServedAt(w, asks, n) && ServedAt(w, asks, m)
    ensures asks[n] != asks[m]
  {
    ServedIsGone(w, asks, n, m);
  }
}
