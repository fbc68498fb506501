/**
 The state saved between the two encapsulation phases, and the repair of states written
 with the bytes of each 16-bit word swapped.
 */
module EncapsState {
  import opened Words
  import opened Zq
  import opened Rq
  import opened Ntt
  import opened RingCodec
  import opened Kpke

  const STATE_SIZE := 2080
  const E2_START := 1536
  const E2_END := 2048

  // ----- coefficients as signed words -----

  /** The 16-bit two's complement of the representative between -q/2 and q/2. */
  function Word(c: Fe): (w: nat)
    ensures w < 65536
  {
    if c > (Q - 1) / 2 then c - Q + 65536 else c
  }

  function Signed(w: nat): (v: int)
    requires w < 65536
  {
    if w >= 0x8000 then w - 65536 else w
  }

  /** The remainder of truncating division, as the source language computes it. */
  function TruncatedMod(v: int): (r: int) {
    if v >= 0 then v % Q else -((0 - v) % Q)
  }

  function FromBalanced(v: int): (c: Fe)
    ensures c == Mod(v)
  {
    var r := TruncatedMod(v);
    if r < 0 then r + Q else r
  }

  lemma WordRoundTrip(c: Fe)
    ensures FromBalanced(Signed(Word(c))) == c && Signed(Word(c)) == Centered(c)
  {
  }

  function WordAt(b: Bytes, i: nat): (w: nat)
    requires 2 * i + 1 < |b|
    ensures w < 65536
  {
    b[2 * i] as nat + 256 * b[2 * i + 1] as nat
  }

  function PolyToRaw(f: Poly): (b: Bytes)
    requires |f| == N
    ensures |b| == 512 && forall i | 0 <= i < N :: b[2 * i] == Word(f[i]) % 256 && b[2 * i + 1] == Word(f[i]) / 256
  {
    seq(512, k requires 0 <= k < 512 => if k % 2 == 0 then Word(f[k / 2]) % 256 else Word(f[k / 2]) / 256)
  }

  function RawToPoly(b: Bytes): (f: Poly)
    requires |b| == 512
    ensures |f| == N && forall i | 0 <= i < N :: f[i] == FromBalanced(Signed(WordAt(b, i)))
  {
    seq(N, i requires 0 <= i < N => FromBalanced(Signed(WordAt(b, i))))
  }

  lemma RawRoundTrip(f: Poly)
    requires |f| == N
    ensures RawToPoly(PolyToRaw(f)) == f
  {
    hide FromBalanced, Word, Signed, PolyToRaw, RawToPoly;
    var b := PolyToRaw(f);
    forall i | 0 <= i < N ensures RawToPoly(b)[i] == f[i] {
      WordRoundTrip(f[i]);
      assert WordAt(b, i) == Word(f[i]);
    }
  }

  // ----- the saved state -----

  datatype Saved = Saved(r: seq<Poly>, e2: Poly, m: Bytes)

  function EncodeState(r: seq<Poly>, e2: Poly, m: Bytes): (b: Bytes)
    requires IsVec(r, K) && |e2| == N && |m| == 32
    ensures |b| == STATE_SIZE
  {
    PolyToRaw(r[0]) + PolyToRaw(r[1]) + PolyToRaw(r[2]) + PolyToRaw(e2) + m
  }

  function DecodeState(b: Bytes): (s: Option<Saved>)
    ensures s.Some? <==> |b| == STATE_SIZE
    ensures s.Some? ==> IsVec(s.value.r, K) && |s.value.e2| == N && |s.value.m| == 32
  {
    if |b| != STATE_SIZE then None
    else Some(Saved([RawToPoly(b[..512]), RawToPoly(b[512..1024]), RawToPoly(b[1024..1536])],
                    RawToPoly(b[1536..2048]), b[2048..]))
  }

  lemma StateRoundTrip(r: seq<Poly>, e2: Poly, m: Bytes)
    requires IsVec(r, K) && |e2| == N && |m| == 32
    ensures DecodeState(EncodeState(r, e2, m)) == Some(Saved(r, e2, m))
  {
    hide PolyToRaw, RawToPoly;
    var p0, p1, p2, p3 := PolyToRaw(r[0]), PolyToRaw(r[1]), PolyToRaw(r[2]), PolyToRaw(e2);
    var b := EncodeState(r, e2, m);
    assert b == p0 + p1 + p2 + p3 + m;
    assert b[..512] == p0 && b[512..1024] == p1 && b[1024..1536] == p2 && b[1536..2048] == p3 && b[2048..] == m;
    RawRoundTrip(r[0]);
    RawRoundTrip(r[1]);
    RawRoundTrip(r[2]);
    RawRoundTrip(e2);
    assert [r[0], r[1], r[2]] == r;
  }

  // ----- swapped bytes -----

  predicate Undecided(v: int) {
    v == 0 || v == -1
  }

  predicate Swapped(v: int) {
    v == 0x100 || v == 0x200 || v == -0x101
  }

  /** The first word from index i on that decides, and whether it says the bytes are swapped. */
  function Flip(b: Bytes, i: nat): (flip: bool)
    requires |b| == STATE_SIZE && E2_START / 2 <= i <= E2_END / 2
    decreases E2_END / 2 - i, |b|
  {
    if i == E2_END / 2 then false
    else
      var v := Signed(WordAt(b, i));
      if Undecided(v) then Flip(b, i + 1) else Swapped(v)
  }

  /** Every word of the polynomials with its bytes swapped; the message is left alone. */
  function SwapWords(b: Bytes): (r: Bytes)
    requires |b| == STATE_SIZE
    ensures |r| == STATE_SIZE && r[E2_END..] == b[E2_END..]
    ensures forall i | 0 <= i < E2_END / 2 :: r[2 * i] == b[2 * i + 1] && r[2 * i + 1] == b[2 * i]
  {
    seq(E2_END, k requires 0 <= k < E2_END => if k % 2 == 0 then b[k + 1] else b[k - 1]) + b[E2_END..]
  }

  function FixEndianness(b: Bytes): (r: Option<Bytes>)
    ensures r.Some? <==> |b| == STATE_SIZE
    ensures r.Some? ==> |r.value| == STATE_SIZE
  {
    if |b| != STATE_SIZE then None
    else if Flip(b, E2_START / 2) then Some(SwapWords(b)) else Some(b)
  }

  lemma SwapTwice(b: Bytes)
    requires |b| == STATE_SIZE
    ensures SwapWords(SwapWords(b)) == b
  {
    var r := SwapWords(SwapWords(b));
    assert r[E2_END..] == b[E2_END..];
    forall k | 0 <= k < E2_END ensures r[k] == b[k] {
      var i := k / 2;
      assert r[2 * i] == b[2 * i] && r[2 * i + 1] == b[2 * i + 1];
    }
    assert r == r[..E2_END] + r[E2_END..] && b == b[..E2_END] + b[E2_END..];
  }

  /** Swapping keeps undecided words and turns each decided swapped word into a plain one. */
  lemma SwappedWord(b: Bytes, i: nat)
    requires |b| == STATE_SIZE && i < E2_END / 2
    ensures var v, w := Signed(WordAt(b, i)), Signed(WordAt(SwapWords(b), i));
      && (Undecided(v) <==> Undecided(w)) && !(Swapped(v) && Swapped(w))
      && (v == 1 || v == 2 || v == -2 ==> Swapped(w))
  {
    hide SwapWords;
  }

  lemma {:induction false} SwappedOnce(b: Bytes, i: nat)
    requires |b| == STATE_SIZE && E2_START / 2 <= i <= E2_END / 2 && Flip(b, i)
    ensures !Flip(SwapWords(b), i)
    decreases E2_END / 2 - i
  {
    hide SwapWords, Signed, Undecided, Swapped;
    if i < E2_END / 2 {
      SwappedWord(b, i);
      if Undecided(Signed(WordAt(b, i))) {
        SwappedOnce(b, i + 1);
      }
    }
  }

  /** Repairing a repaired state changes nothing, whatever the bytes. */
  lemma FixIsIdempotent(b: Bytes)
    requires |b| == STATE_SIZE
    ensures FixEndianness(FixEndianness(b).value) == FixEndianness(b)
  {
    hide SwapWords, Flip;
    if Flip(b, E2_START / 2) {
      SwappedOnce(b, E2_START / 2);
    }
  }

  /** The errors a sampled e2 can have. */
  predicate SmallErrors(e2: Poly) {
    forall i | 0 <= i < |e2| :: -2 <= Centered(e2[i]) <= 2
  }

  lemma StateWord(r: seq<Poly>, e2: Poly, m: Bytes, i: nat)
    requires IsVec(r, K) && |e2| == N && |m| == 32 && i < N
    ensures Signed(WordAt(EncodeState(r, e2, m), E2_START / 2 + i)) == Centered(e2[i])
  {
    hide PolyToRaw, Word, Signed, Centered;
    var p := PolyToRaw(e2);
    var front := PolyToRaw(r[0]) + PolyToRaw(r[1]) + PolyToRaw(r[2]);
    var b := EncodeState(r, e2, m);
    assert b == front + p + m;
    assert b[1536 + 2 * i] == p[2 * i] && b[1536 + 2 * i + 1] == p[2 * i + 1];
    WordRoundTrip(e2[i]);
  }

  lemma {:induction false} PlainStays(r: seq<Poly>, e2: Poly, m: Bytes, i: nat)
    requires IsVec(r, K) && |e2| == N && |m| == 32 && SmallErrors(e2) && i <= N
    ensures !Flip(EncodeState(r, e2, m), E2_START / 2 + i)
    decreases N - i
  {
    hide EncodeState, Signed, Centered;
    if i < N {
      StateWord(r, e2, m, i);
      PlainStays(r, e2, m, i + 1);
    }
  }

  /** A state written with sampled errors is left as it is. */
  lemma FixKeepsWritten(r: seq<Poly>, e2: Poly, m: Bytes)
    requires IsVec(r, K) && |e2| == N && |m| == 32 && SmallErrors(e2)
    ensures FixEndianness(EncodeState(r, e2, m)) == Some(EncodeState(r, e2, m))
  {
    hide EncodeState, SwapWords, Flip;
    PlainStays(r, e2, m, 0);
  }

  /** Some error from index i on that is neither 0 nor -1. */
  predicate Telling(e2: Poly, i: nat) {
    exists k | i <= k < |e2| :: !Undecided(Centered(e2[k]))
  }

  lemma {:induction false} SwappedIsSeen(r: seq<Poly>, e2: Poly, m: Bytes, i: nat)
    requires IsVec(r, K) && |e2| == N && |m| == 32 && SmallErrors(e2) && i <= N
    ensures Flip(SwapWords(EncodeState(r, e2, m)), E2_START / 2 + i) <==> Telling(e2, i)
    decreases N - i
  {
    hide EncodeState, SwapWords, Signed, Centered;
    if i < N {
      var b := EncodeState(r, e2, m);
      StateWord(r, e2, m, i);
      SwappedWord(b, E2_START / 2 + i);
      if Undecided(Centered(e2[i])) {
        SwappedIsSeen(r, e2, m, i + 1);
        assert Telling(e2, i) <==> Telling(e2, i + 1);
      }
    }
  }

  /**
   The repair undoes a swap of the written state exactly if some error is neither 0 nor
   -1, or the swap changed nothing in the first place.
   */
  lemma FixUndoesSwap(r: seq<Poly>, e2: Poly, m: Bytes)
    requires IsVec(r, K) && |e2| == N && |m| == 32 && SmallErrors(e2)
    ensures var b := EncodeState(r, e2, m);
      FixEndianness(SwapWords(b)) == Some(b) <==> Telling(e2, 0) || SwapWords(b) == b
  {
    hide EncodeState, SwapWords, Flip, Telling;
    var b := EncodeState(r, e2, m);
    SwappedIsSeen(r, e2, m, 0);
    SwapTwice(b);
  }

  // ----- as loops over the buffer -----

  method FixEncapsStateEndianness(state: Bytes) returns (r: Option<Bytes>)
    ensures r == FixEndianness(state)
  {
    hide Signed, SwapWords, Flip;
    if |state| != STATE_SIZE {
      return None;
    }
    var flip := false;
    var i := E2_START;
    ghost var k := E2_START / 2;
    while i + 1 < E2_END
      invariant E2_START / 2 <= k <= E2_END / 2 && i == 2 * k
      invariant !flip && Flip(state, E2_START / 2) == Flip(state, k)
    {
      FlipUnfold(state, k);
      var v := Signed(WordAt(state, i / 2));
      if Undecided(v) {
        i, k := i + 2, k + 1;
        continue;
      }
      flip := Swapped(v);
      break;
    }
    if i == E2_END {
      FlipUnfold(state, E2_END / 2);
    }
    assert flip == Flip(state, E2_START / 2);
    if !flip {
      return Some(state);
    }
    var out := new byte[STATE_SIZE](j requires 0 <= j < STATE_SIZE => state[j]);
    i, k := 0, 0;
    while i + 1 < E2_END
      invariant 0 <= k <= E2_END / 2 && i == 2 * k
      invariant forall j | 0 <= j < i :: out[j] == SwapWords(state)[j]
      invariant forall j | i <= j < STATE_SIZE :: out[j] == state[j]
    {
      assert SwapWords(state)[2 * k] == state[2 * k + 1] && SwapWords(state)[2 * k + 1] == state[2 * k];
      out[i], out[i + 1] := out[i + 1], out[i];
      i, k := i + 2, k + 1;
    }
    forall j | E2_END <= j < STATE_SIZE ensures out[j] == SwapWords(state)[j] {
      assert SwapWords(state)[E2_END..][j - E2_END] == state[E2_END..][j - E2_END];
    }
    assert out[..] == SwapWords(state);
    return Some(out[..]);
  }

  lemma FlipUnfold(b: Bytes, i: nat)
    requires |b| == STATE_SIZE && E2_START / 2 <= i <= E2_END / 2
    ensures Flip(b, i) == if i == E2_END / 2 then false
      else if Undecided(Signed(WordAt(b, i))) then Flip(b, i + 1) else Swapped(Signed(WordAt(b, i)))
  {
  }
}
