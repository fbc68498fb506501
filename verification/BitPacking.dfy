/**
 Numbers of d bits each packed into bytes: their bits, lowest first, one after the other,
 cut into eights; Algorithms 3 to 6 of FIPS 203.
 */
module BitPacking {
  import opened Words

  predicate AllBelow(f: seq<nat>, bound: nat) {
    forall i | 0 <= i < |f| :: f[i] < bound
  }

  /** The d lowest bits of each number. */
  function BitsOf(f: seq<nat>, d: nat): (bits: seq<bool>) {
    if f == [] then [] else ToBits(f[0], d) + BitsOf(f[1..], d)
  }

  /** The numbers formed by each consecutive d bits; a shorter remainder is dropped. */
  function NumbersOf(bits: seq<bool>, d: nat): (f: seq<nat>)
    requires d > 0
    ensures AllBelow(f, Pow2(d))
  {
    if |bits| < d then [] else [FromBits(bits[..d])] + NumbersOf(bits[d..], d)
  }

  lemma {:induction false} NumbersOfBits(f: seq<nat>, d: nat)
    requires d > 0 && AllBelow(f, Pow2(d))
    ensures NumbersOf(BitsOf(f, d), d) == f
    decreases |f|
  {
    if f != [] {
      var bits := BitsOf(f, d);
      assert bits[..d] == ToBits(f[0], d) && bits[d..] == BitsOf(f[1..], d);
      FromToBits(f[0], d);
      NumbersOfBits(f[1..], d);
    }
  }

  lemma {:induction false} BitsOfNumbers(bits: seq<bool>, d: nat, n: nat)
    requires d > 0 && |bits| == n * d
    ensures BitsOf(NumbersOf(bits, d), d) == bits && |NumbersOf(bits, d)| == n
    decreases n
  {
    if n == 0 {
      assert n * d == 0;
    } else {
      assert n * d == (n - 1) * d + d && (n - 1) * d >= 0;
      BitsOfNumbers(bits[d..], d, n - 1);
      ToFromBits(bits[..d]);
      assert bits == bits[..d] + bits[d..];
    }
  }

  lemma {:induction false} BitsLength(f: seq<nat>, d: nat)
    ensures |BitsOf(f, d)| == |f| * d
    decreases |f|
  {
    if f != [] {
      BitsLength(f[1..], d);
      assert |f| * d == (|f| - 1) * d + d;
    }
  }

  function Encode(f: seq<nat>, d: nat): (b: Bytes)
    ensures forall i | 0 <= i < |b| :: b[i] < 256
  {
    assert Pow2(8) == 256 by { Pow2Of8(); }
    NumbersOf(BitsOf(f, d), 8)
  }

  function Decode(b: Bytes, d: nat): (f: seq<nat>)
    requires d > 0
    ensures AllBelow(f, Pow2(d))
  {
    NumbersOf(BitsOf(b, 8), d)
  }

  lemma Pow2Of8()
    ensures Pow2(8) == 256
  {
    assert Pow2(4) == 16;
  }

  /** n numbers of d bits fill m bytes, and come back from them. */
  lemma DecodeEncode(f: seq<nat>, d: nat, m: nat)
    requires d > 0 && AllBelow(f, Pow2(d)) && |f| * d == m * 8
    ensures |Encode(f, d)| == m && Decode(Encode(f, d), d) == f
  {
    hide BitsOf, NumbersOf;
    BitsLength(f, d);
    BitsOfNumbers(BitsOf(f, d), 8, m);
    NumbersOfBits(f, d);
  }

  /** m bytes hold n numbers of d bits and are determined by them. */
  lemma EncodeDecode(b: Bytes, d: nat, n: nat)
    requires d > 0 && |b| * 8 == n * d
    ensures |Decode(b, d)| == n && Encode(Decode(b, d), d) == b
  {
    hide BitsOf, NumbersOf;
    Pow2Of8();
    BitsLength(b, 8);
    BitsOfNumbers(BitsOf(b, 8), d, n);
    NumbersOfBits(b, 8);
  }

  // ----- working group by group -----

  lemma {:induction false} BitsAppend(f: seq<nat>, g: seq<nat>, d: nat)
    ensures BitsOf(f + g, d) == BitsOf(f, d) + BitsOf(g, d)
    decreases |f|
  {
    if f == [] {
      assert f + g == g;
    } else {
      BitsAppend(f[1..], g, d);
      assert (f + g)[1..] == f[1..] + g;
    }
  }

  lemma {:induction false} NumbersAppend(x: seq<bool>, y: seq<bool>, d: nat, n: nat)
    requires d > 0 && |x| == n * d
    ensures NumbersOf(x + y, d) == NumbersOf(x, d) + NumbersOf(y, d)
    decreases n
  {
    if n == 0 {
      assert n * d == 0 && x + y == y;
    } else {
      assert n * d == (n - 1) * d + d && (n - 1) * d >= 0;
      NumbersAppend(x[d..], y, d, n - 1);
      assert (x + y)[..d] == x[..d] && (x + y)[d..] == x[d..] + y;
    }
  }

  /** A group that fills whole bytes is encoded on its own. */
  lemma EncodeAppend(f: seq<nat>, g: seq<nat>, d: nat, m: nat)
    requires |f| * d == m * 8
    ensures Encode(f + g, d) == Encode(f, d) + Encode(g, d)
  {
    hide BitsOf, NumbersOf;
    BitsAppend(f, g, d);
    BitsLength(f, d);
    NumbersAppend(BitsOf(f, d), BitsOf(g, d), 8, m);
  }

  lemma DecodeAppend(a: Bytes, b: Bytes, d: nat, n: nat)
    requires d > 0 && |a| * 8 == n * d
    ensures Decode(a + b, d) == Decode(a, d) + Decode(b, d)
  {
    hide BitsOf, NumbersOf;
    BitsAppend(a, b, 8);
    BitsLength(a, 8);
    NumbersAppend(BitsOf(a, 8), BitsOf(b, 8), d, n);
  }

  // ----- shifts and masks -----

  /** A number above m lower bits. */
  lemma {:induction false} BitsJoin(a: nat, b: nat, m: nat, n: nat)
    requires a < Pow2(m)
    ensures ToBits(a + Pow2(m) * b, m + n) == ToBits(a, m) + ToBits(b, n)
    decreases m
  {
    if m > 0 {
      var p := Pow2(m - 1);
      assert Pow2(m) * b == 2 * (p * b);
      BitsJoin(a / 2, b, m - 1, n);
      assert (a + Pow2(m) * b) / 2 == a / 2 + p * b && (a + Pow2(m) * b) % 2 == a % 2;
    }
  }

  /** The numbers of d bits in the binary form of a number. */
  lemma NumbersOfBinary(x: nat, d: nat, n: nat, low: nat, high: nat)
    requires d > 0 && x == low + Pow2(d) * high && low < Pow2(d)
    ensures NumbersOf(ToBits(x, d + n), d) == [low] + NumbersOf(ToBits(high, n), d)
  {
    BitsJoin(low, high, d, n);
    FromToBits(low, d);
    var bits := ToBits(x, d + n);
    assert bits[..d] == ToBits(low, d) && bits[d..] == ToBits(high, n);
  }

  lemma Powers()
    ensures Pow2(1) == 2 && Pow2(4) == 16 && Pow2(8) == 256 && Pow2(10) == 1024 && Pow2(12) == 4096
  {
    assert Pow2(3) == 8;
    assert Pow2(6) == 8 * Pow2(3);
    assert Pow2(9) == 8 * Pow2(6);
  }

  /** The bytes of a number of 8n bits. */
  function LowBytes(x: nat, n: nat): (b: Bytes)
    ensures |b| == n
  {
    if n == 0 then [] else [x % 256] + LowBytes(x / 256, n - 1)
  }

  lemma {:induction false} BytesOfBinary(x: nat, n: nat)
    ensures NumbersOf(ToBits(x, 8 * n), 8) == LowBytes(x, n)
    decreases n
  {
    if n > 0 {
      Powers();
      NumbersOfBinary(x, 8, 8 * (n - 1), x % 256, x / 256);
      BytesOfBinary(x / 256, n - 1);
    }
  }

  /** The number whose digits to the base 2^d are given, lowest first. */
  function NumberOf(g: seq<nat>, base: nat): (x: nat) {
    if g == [] then 0 else g[0] + base * NumberOf(g[1..], base)
  }

  lemma {:induction false} BinaryOfDigits(g: seq<nat>, d: nat)
    requires AllBelow(g, Pow2(d))
    ensures BitsOf(g, d) == ToBits(NumberOf(g, Pow2(d)), |g| * d)
    decreases |g|
  {
    if g == [] {
      assert |g| * d == 0;
    } else {
      BinaryOfDigits(g[1..], d);
      assert |g| * d == d + (|g| - 1) * d;
      BitsJoin(g[0], NumberOf(g[1..], Pow2(d)), d, (|g| - 1) * d);
    }
  }

  /** A group filling m bytes is encoded as the bytes of one number. */
  lemma EncodeGroup(g: seq<nat>, d: nat, m: nat)
    requires AllBelow(g, Pow2(d)) && |g| * d == 8 * m
    ensures Encode(g, d) == LowBytes(NumberOf(g, Pow2(d)), m)
  {
    hide BitsOf, NumbersOf, ToBits;
    BinaryOfDigits(g, d);
    BytesOfBinary(NumberOf(g, Pow2(d)), m);
  }

  /** Digits to the base 2^d of the number a group of bytes spells are what it decodes to. */
  lemma DecodeGroup(b: Bytes, d: nat, g: seq<nat>)
    requires d > 0 && AllBelow(g, Pow2(d)) && |g| * d == |b| * 8
    requires NumberOf(g, Pow2(d)) == NumberOf(b, 256)
    ensures Decode(b, d) == g
  {
    hide BitsOf, NumbersOf, ToBits, NumberOf;
    Powers();
    BinaryOfDigits(g, d);
    BinaryOfDigits(b, 8);
    NumbersOfBits(g, d);
  }

  lemma {:induction false} NumberSnoc(g: seq<nat>, x: nat)
    ensures NumberOf(g + [x], 2) == NumberOf(g, 2) + Pow2(|g|) * x
    decreases |g|
  {
    if g == [] {
      assert (g + [x])[1..] == [];
    } else {
      NumberSnoc(g[1..], x);
      assert (g + [x])[1..] == g[1..] + [x];
      assert 2 * (Pow2(|g| - 1) * x) == Pow2(|g|) * x;
    }
  }

  lemma NumberUnfold(g: seq<nat>, base: nat)
    requires g != []
    ensures NumberOf(g, base) == g[0] + base * (if |g| == 1 then 0 else NumberOf(g[1..], base))
  {
    if |g| == 1 {
      assert g[1..] == [];
    }
  }
}
