/** Compression of coefficients and the byte encodings of polynomials. */
module RingCodec {
  import opened Words
  import opened Zq
  import opened Rq
  import opened BitPacking

  // ----- compression -----

  /** The powers 2^d for the widths d the scheme uses. */
  predicate IsWidth(p: nat) {
    p == 2 || p == 16 || p == 1024
  }

  /** x 2^d / q rounded to the nearest integer, modulo 2^d; Definition 4.7 of FIPS 203. */
  function Rounded(x: Fe, p: nat): (y: nat)
    requires IsWidth(p)
  {
    ((2 * x * p + Q) / (2 * Q)) % p
  }

  /** The top bit of a - b in 32 bits: set when the difference underflows. */
  function Borrow(a: nat, b: nat): (r: nat)
    requires a < 0x8000_0000 && b < 0x8000_0000
    ensures r == if a < b then 1 else 0
  {
    ((a + UINT32 - b) % UINT32) / 0x8000_0000 % 2
  }

  /** Correcting the Barrett quotient by the remainder rounds to the nearest integer. */
  lemma RoundsToNearest(dividend: nat)
    requires dividend < 2 * Q * Q
    ensures var quotient := dividend * BARRETT_MULTIPLIER / BARRETT_SHIFT;
      var remainder := dividend - quotient * Q;
      && 0 <= remainder < 2 * Q
      && quotient + Borrow(Q / 2, remainder) + Borrow(Q + Q / 2, remainder) == (2 * dividend + Q) / (2 * Q)
  {
    hide Borrow;
    BarrettQuotient(dividend);
  }

  function Compress(x: Fe, p: nat): (y: nat)
    requires IsWidth(p)
    ensures y == Rounded(x, p) && y < p
  {
    var dividend := x * p;
    ProductBound(x, p, 3328, 1024);
    RoundsToNearest(dividend);
    assert 2 * x * p == 2 * dividend;
    var quotient := dividend * BARRETT_MULTIPLIER / BARRETT_SHIFT;
    var remainder := dividend - quotient * Q;
    (quotient + Borrow(Q / 2, remainder) + Borrow(Q + Q / 2, remainder)) % p
  }

  lemma HalvesRoundUp(dividend: nat, p: nat)
    requires IsWidth(p)
    ensures dividend / p + (dividend / (p / 2)) % 2 == (2 * dividend + p) / (2 * p)
  {
    if p == 2 {
      assert p / 2 == 1;
    } else if p == 16 {
      var k := dividend / 8;
      assert dividend / 16 == k / 2;
    } else {
      var k := dividend / 512;
      assert dividend / 1024 == k / 2;
    }
  }

  /** y q / 2^d rounded to the nearest integer; Definition 4.8 of FIPS 203. */
  function Decompress(y: nat, p: nat): (x: Fe)
    requires IsWidth(p) && y < p
    ensures x == (2 * y * Q + p) / (2 * p)
  {
    var dividend := y * Q;
    HalvesRoundUp(dividend, p);
    BelowQ(y, p);
    dividend / p + (dividend / (p / 2)) % 2
  }

  lemma BelowQ(y: nat, p: nat)
    requires IsWidth(p) && y < p
    ensures (2 * y * Q + p) / (2 * p) < Q
  {
  }

  lemma CompressDecompress(y: nat, p: nat)
    requires IsWidth(p) && y < p
    ensures Compress(Decompress(y, p), p) == y
  {
    hide Compress, Decompress;
  }

  /** The distance of a residue from 0: values above q / 2 count as negative. */
  function Centered(x: Fe): (c: int)
    ensures -1664 <= c <= 1664 && Mod(c) == x
  {
    if x > Q / 2 then x - Q else x
  }

  function Abs(c: int): (a: nat) {
    if c < 0 then 0 - c else c
  }

  /** Half a step of the coarser grid, rounded. */
  function StepBound(p: nat): (b: nat)
    requires IsWidth(p)
  {
    if p == 2 then 832 else if p == 16 then 104 else 2
  }

  lemma CenteredIs(x: Fe, y: Fe, c: int)
    requires -1664 <= c <= 1664 && (y - x == c || y - x == c - Q)
    ensures Centered(Minus(y, x)) == c
  {
  }

  /** Rounding to the grid and back, before the result is reduced modulo 2^d. */
  lemma GridError(x: Fe, p: nat)
    requires IsWidth(p)
    ensures var t := (2 * x * p + Q) / (2 * Q);
      && t <= p && Abs((2 * t * Q + p) / (2 * p) - x) <= StepBound(p)
      && (t == p ==> Q - x <= StepBound(p))
  {
  }

  /** Compressing loses at most half a step. */
  lemma CompressionError(x: Fe, p: nat)
    requires IsWidth(p)
    ensures Abs(Centered(Minus(Decompress(Compress(x, p), p), x))) <= StepBound(p)
  {
    hide Compress, Decompress, Centered, Minus;
    var t := (2 * x * p + Q) / (2 * Q);
    GridError(x, p);
    var y := Decompress(Compress(x, p), p);
    if t < p {
      assert Compress(x, p) == t;
      CenteredIs(x, y, y - x);
    } else {
      assert Compress(x, p) == 0;
      assert y == 0;
      CenteredIs(x, y, Q - x);
    }
  }

  function CompressAll(f: Poly, p: nat): (g: seq<nat>)
    requires IsWidth(p)
    ensures |g| == |f| && AllBelow(g, p) && forall i | 0 <= i < |f| :: g[i] == Compress(f[i], p)
  {
    seq(|f|, i requires 0 <= i < |f| => Compress(f[i], p))
  }

  function DecompressAll(g: seq<nat>, p: nat): (f: Poly)
    requires IsWidth(p) && AllBelow(g, p)
    ensures |f| == |g| && forall i | 0 <= i < |g| :: f[i] == Decompress(g[i], p)
  {
    seq(|g|, i requires 0 <= i < |g| => Decompress(g[i], p))
  }

  // ----- how the loops read and write one group -----

  lemma TwoDigits(g: seq<nat>, base: nat)
    requires |g| == 2
    ensures NumberOf(g, base) == g[0] + base * g[1]
  {
    hide NumberOf;
    NumberUnfold(g, base);
    NumberUnfold(g[1..], base);
  }

  lemma ThreeDigits(g: seq<nat>, base: nat)
    requires |g| == 3
    ensures NumberOf(g, base) == g[0] + base * (g[1] + base * g[2])
  {
    hide NumberOf;
    NumberUnfold(g, base);
    TwoDigits(g[1..], base);
  }

  lemma FourDigits(g: seq<nat>, base: nat)
    requires |g| == 4
    ensures NumberOf(g, base) == g[0] + base * (g[1] + base * (g[2] + base * g[3]))
  {
    hide NumberOf;
    NumberUnfold(g, base);
    ThreeDigits(g[1..], base);
  }

  lemma FiveDigits(g: seq<nat>, base: nat)
    requires |g| == 5
    ensures NumberOf(g, base) == g[0] + base * (g[1] + base * (g[2] + base * (g[3] + base * g[4])))
  {
    hide NumberOf;
    NumberUnfold(g, base);
    FourDigits(g[1..], base);
  }

  /** Three bytes from two 12-bit numbers. */
  function Bytes12(a: nat, b: nat): (r: Bytes) {
    var x := a + 4096 * b;
    [x % 256, x / 256 % 256, x / 65536 % 256]
  }

  /** Two 12-bit numbers from three bytes. */
  function Numbers12(b: Bytes): (r: seq<nat>)
    requires |b| == 3
    ensures |r| == 2
  {
    var d := b[0] as nat + 0x100 * b[1] as nat + 0x1_0000 * b[2] as nat;
    [d % 4096, d / 4096]
  }

  /** Five bytes from four 10-bit numbers. */
  function Bytes10(a: nat, b: nat, c: nat, d: nat): (r: Bytes) {
    var x := a + 0x400 * b + 0x10_0000 * c + 0x4000_0000 * d;
    [x % 256, x / 0x100 % 256, x / 0x1_0000 % 256, x / 0x100_0000 % 256, x / 0x1_0000_0000 % 256]
  }

  function Numbers10(b: Bytes): (r: seq<nat>)
    requires |b| == 5
    ensures |r| == 4
  {
    var x := b[0] as nat + 0x100 * b[1] as nat + 0x1_0000 * b[2] as nat + 0x100_0000 * b[3] as nat
      + 0x1_0000_0000 * b[4] as nat;
    [x % 0x400, x / 0x400 % 0x400, x / 0x10_0000 % 0x400, x / 0x4000_0000 % 0x400]
  }

  lemma Bytes12Encodes(g: seq<nat>)
    requires |g| == 2 && AllBelow(g, 4096)
    ensures Encode(g, 12) == Bytes12(g[0], g[1])
  {
    hide Encode, NumberOf;
    Powers();
    EncodeGroup(g, 12, 3);
    TwoDigits(g, 4096);
    LowThree(NumberOf(g, 4096));
  }

  lemma LowThree(x: nat)
    ensures LowBytes(x, 3) == [x % 256, x / 256 % 256, x / 65536 % 256]
  {
    assert LowBytes(x / 256 / 256, 1) == [x / 256 / 256 % 256];
    assert x / 256 / 256 == x / 65536;
  }

  lemma Numbers12Decodes(b: Bytes)
    requires |b| == 3
    ensures Decode(b, 12) == Numbers12(b) && AllBelow(Numbers12(b), 4096)
  {
    hide Decode, NumberOf;
    Powers();
    ThreeDigits(b, 256);
    TwoDigits(Numbers12(b), 4096);
    DecodeGroup(b, 12, Numbers12(b));
  }

  lemma Bytes10Encodes(g: seq<nat>)
    requires |g| == 4 && AllBelow(g, 1024)
    ensures Encode(g, 10) == Bytes10(g[0], g[1], g[2], g[3])
  {
    hide Encode, NumberOf;
    Powers();
    EncodeGroup(g, 10, 5);
    FourDigits(g, 1024);
    LowFive(NumberOf(g, 1024));
  }

  lemma LowFive(x: nat)
    ensures LowBytes(x, 5)
         == [x % 256, x / 0x100 % 256, x / 0x1_0000 % 256, x / 0x100_0000 % 256, x / 0x1_0000_0000 % 256]
  {
    LowThree(x / 0x1_0000);
    assert LowBytes(x, 5) == [x % 256] + ([x / 256 % 256] + LowBytes(x / 256 / 256, 3));
    assert x / 256 / 256 == x / 0x1_0000;
    assert x / 0x1_0000 / 0x100 == x / 0x100_0000 && x / 0x1_0000 / 0x1_0000 == x / 0x1_0000_0000;
  }

  lemma FourParts(x: nat)
    requires x < 0x100_0000_0000
    ensures x == x % 0x400
      + 0x400 * (x / 0x400 % 0x400 + 0x400 * (x / 0x10_0000 % 0x400 + 0x400 * (x / 0x4000_0000 % 0x400)))
  {
    var y := x / 0x400;
    var z := y / 0x400;
    assert x / 0x10_0000 == z && x / 0x4000_0000 == z / 0x400 && z / 0x400 < 0x400;
  }

  lemma Numbers10Decodes(b: Bytes)
    requires |b| == 5
    ensures Decode(b, 10) == Numbers10(b) && AllBelow(Numbers10(b), 1024)
  {
    hide Decode, NumberOf;
    Powers();
    FiveDigits(b, 256);
    FourDigits(Numbers10(b), 1024);
    FourParts(NumberOf(b, 256));
    DecodeGroup(b, 10, Numbers10(b));
  }

  lemma Pair4(g: seq<nat>, b: byte)
    requires |g| == 2 && AllBelow(g, 16)
    ensures Encode(g, 4) == [g[0] + 16 * g[1]]
    ensures Decode([b], 4) == [b % 16, b / 16]
  {
    hide Encode, Decode, NumberOf;
    Powers();
    EncodeGroup(g, 4, 1);
    TwoDigits(g, 16);
    var h: seq<nat> := [b % 16, b / 16];
    TwoDigits(h, 16);
    NumberUnfold([b], 256);
    DecodeGroup([b], 4, h);
    assert LowBytes(NumberOf(g, 16), 1) == [NumberOf(g, 16) % 256];
  }
}
