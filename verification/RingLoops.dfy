/** The byte codecs of polynomials as the loops that compute them. */
module RingLoops {
  import opened Words
  import opened Zq
  import opened Rq
  import opened BitPacking
  import opened RingCodec

  lemma EncodeStep(f: seq<nat>, i: nat, w: nat, d: nat, m: nat)
    requires i + w <= |f| && w * d == m * 8
    ensures Encode(f[i..], d) == Encode(f[i..i + w], d) + Encode(f[i + w..], d)
  {
    hide Encode;
    assert f[i..] == f[i..i + w] + f[i + w..];
    EncodeAppend(f[i..i + w], f[i + w..], d, m);
  }

  lemma DecodeStep(b: Bytes, i: nat, w: nat, d: nat, n: nat)
    requires d > 0 && i + w <= |b| && w * 8 == n * d
    ensures Decode(b[i..], d) == Decode(b[i..i + w], d) + Decode(b[i + w..], d)
  {
    hide Decode;
    assert b[i..] == b[i..i + w] + b[i + w..];
    DecodeAppend(b[i..i + w], b[i + w..], d, n);
  }

  /** What remains at the start of a loop and at its end. */
  lemma Ends<T>(s: seq<T>)
    ensures s[0..] == s && s[|s|..] == []
  {
  }

  // ----- twelve bits: keys -----

  method PolyByteEncode(f: Poly) returns (out: Bytes)
    requires |f| == 256
    ensures out == Encode(f, 12) && |out| == 384
  {
    hide Encode, Bytes12;
    out := [];
    var i := 0;
    Ends(f);
    while i < 256
      invariant 0 <= i <= 256 && i % 2 == 0
      invariant out + Encode(f[i..], 12) == Encode(f, 12)
    {
      EncodeStep(f, i, 2, 12, 3);
      Bytes12Encodes(f[i..i + 2]);
      out := out + Bytes12(f[i], f[i + 1]);
      i := i + 2;
    }
    Powers();
    DecodeEncode(f, 12, 384);
    DecodeEncode([], 12, 0);
  }

  lemma DecodeStep12(b: Bytes, j: nat, f: seq<nat>, all: seq<nat>)
    requires 3 * j + 3 <= |b| && |f| == 2 * j && f + Decode(b[3 * j..], 12) == all
    ensures var g := Numbers12(b[3 * j..3 * j + 3]);
      && 2 * j + 1 < |all| && all[2 * j] == g[0] && all[2 * j + 1] == g[1]
      && f + [g[0], g[1]] + Decode(b[3 * (j + 1)..], 12) == all
  {
    hide Decode, Numbers12;
    DecodeStep(b, 3 * j, 3, 12, 2);
    Numbers12Decodes(b[3 * j..3 * j + 3]);
    var g, rest := Numbers12(b[3 * j..3 * j + 3]), Decode(b[3 * j + 3..], 12);
    assert g == [g[0], g[1]];
    assert all == f + (g + rest) == f + g + rest;
  }

  /** Refuses a wrong length and any coefficient that is not reduced. */
  method PolyByteDecode(b: Bytes) returns (r: Option<Poly>)
    ensures r.Some? <==> |b| == 384 && AllBelow(Decode(b, 12), Q)
    ensures r.Some? ==> r.value == Decode(b, 12) && |r.value| == 256
  {
    hide Decode, Numbers12;
    if |b| != 384 {
      return None;
    }
    var f: Poly := [];
    var i, j := 0, 0;
    Ends(b);
    ghost var all := Decode(b, 12);
    EncodeDecode(b, 12, 256);
    while i < 256
      invariant 0 <= j <= 128 && i == 2 * j
      invariant |f| == i && f + Decode(b[3 * j..], 12) == all
    {
      var g := Numbers12(b[3 * j..3 * j + 3]);
      DecodeStep12(b, j, f, all);
      if g[0] >= Q || g[1] >= Q {
        return None;
      }
      f := f + [g[0], g[1]];
      i, j := i + 2, j + 1;
    }
    EncodeDecode([], 12, 0);
    return Some(f);
  }

  lemma DecompressAppend(g: seq<nat>, h: seq<nat>, p: nat)
    requires IsWidth(p) && AllBelow(g, p) && AllBelow(h, p)
    ensures AllBelow(g + h, p) && DecompressAll(g + h, p) == DecompressAll(g, p) + DecompressAll(h, p)
  {
    hide Decompress;
  }

  // ----- ten bits: the first ciphertext part -----

  method CompressAndEncode10(f: Poly) returns (out: Bytes)
    requires |f| == 256
    ensures out == Encode(CompressAll(f, 1024), 10) && |out| == 320
  {
    hide Encode, Bytes10, Compress, CompressAll;
    out := [];
    var i := 0;
    ghost var g := CompressAll(f, 1024);
    Ends(g);
    while i < 256
      invariant 0 <= i <= 256 && i % 4 == 0
      invariant out + Encode(g[i..], 10) == Encode(g, 10)
    {
      var (x0, x1, x2, x3) := (Compress(f[i], 1024), Compress(f[i + 1], 1024), Compress(f[i + 2], 1024),
        Compress(f[i + 3], 1024));
      EncodeStep(g, i, 4, 10, 5);
      assert g[i..i + 4] == [x0, x1, x2, x3];
      Bytes10Encodes([x0, x1, x2, x3]);
      out := out + Bytes10(x0, x1, x2, x3);
      i := i + 4;
    }
    Powers();
    DecodeEncode(g, 10, 320);
    DecodeEncode([], 10, 0);
  }

  lemma DecodeStep10(b: Bytes, j: nat, g: seq<nat>, all: seq<nat>)
    requires 5 * j + 5 <= |b| && g + Decode(b[5 * j..], 10) == all
    ensures var h := Numbers10(b[5 * j..5 * j + 5]);
      AllBelow(h, 1024) && g + h + Decode(b[5 * (j + 1)..], 10) == all
  {
    hide Decode, Numbers10;
    DecodeStep(b, 5 * j, 5, 10, 4);
    Numbers10Decodes(b[5 * j..5 * j + 5]);
    var h, rest := Numbers10(b[5 * j..5 * j + 5]), Decode(b[5 * j + 5..], 10);
    assert g + h + rest == g + (h + rest);
  }

  function DecompressFour(h: seq<nat>): (f: Poly)
    requires |h| == 4 && AllBelow(h, 1024)
    ensures f == DecompressAll(h, 1024)
  {
    [Decompress(h[0], 1024), Decompress(h[1], 1024), Decompress(h[2], 1024), Decompress(h[3], 1024)]
  }

  method DecodeAndDecompress10(b: Bytes) returns (f: Poly)
    requires |b| == 320
    ensures AllBelow(Decode(b, 10), 1024) && f == DecompressAll(Decode(b, 10), 1024) && |f| == 256
  {
    hide Decode, Numbers10, DecompressFour, DecompressAll;
    Powers();
    f := [];
    var i, j := 0, 0;
    Ends(b);
    ghost var g: seq<nat>, all := [], Decode(b, 10);
    EncodeDecode(b, 10, 256);
    while i < 256
      invariant 0 <= j <= 64 && i == 4 * j && |g| == i
      invariant AllBelow(g, 1024) && f == DecompressAll(g, 1024)
      invariant g + Decode(b[5 * j..], 10) == all
    {
      var h := Numbers10(b[5 * j..5 * j + 5]);
      DecodeStep10(b, j, g, all);
      DecompressAppend(g, h, 1024);
      f := f + DecompressFour(h);
      g := g + h;
      i, j := i + 4, j + 1;
    }
    EncodeDecode([], 10, 0);
  }

  // ----- four bits: the second ciphertext part -----

  method CompressAndEncode4(f: Poly) returns (out: Bytes)
    requires |f| == 256
    ensures out == Encode(CompressAll(f, 16), 4) && |out| == 128
  {
    hide Encode, Decode, Compress;
    out := [];
    var i := 0;
    ghost var g := CompressAll(f, 16);
    Ends(g);
    while i < 256
      invariant 0 <= i <= 256 && i % 2 == 0
      invariant out + Encode(g[i..], 4) == Encode(g, 4)
    {
      EncodeStep(g, i, 2, 4, 1);
      Pair4(g[i..i + 2], 0);
      out := out + [Compress(f[i], 16) + 16 * Compress(f[i + 1], 16)];
      i := i + 2;
    }
    Powers();
    DecodeEncode(g, 4, 128);
    DecodeEncode([], 4, 0);
  }

  method DecodeAndDecompress4(b: Bytes) returns (f: Poly)
    requires |b| == 128
    ensures AllBelow(Decode(b, 4), 16) && f == DecompressAll(Decode(b, 4), 16) && |f| == 256
  {
    hide Encode, Decode, Decompress;
    Powers();
    f := [];
    var i, j := 0, 0;
    Ends(b);
    ghost var g: seq<nat>, all := [], Decode(b, 4);
    EncodeDecode(b, 4, 256);
    while i < 256
      invariant 0 <= j <= 128 && i == 2 * j && |g| == i
      invariant AllBelow(g, 16) && f == DecompressAll(g, 16)
      invariant g + Decode(b[j..], 4) == all
    {
      DecodeStep(b, j, 1, 4, 2);
      assert b[j..j + 1] == [b[j]];
      Pair4([0, 0], b[j]);
      f := f + [Decompress(b[j] % 16, 16), Decompress(b[j] / 16, 16)];
      g := g + [b[j] % 16, b[j] / 16];
      i, j := i + 2, j + 1;
    }
    EncodeDecode([], 4, 0);
  }

  // ----- one bit: the message -----

  /** The bits of eight coefficients as a number. */
  method PackBits(f: Poly, j: nat) returns (acc: nat)
    requires 8 * j + 8 <= |f|
    ensures acc == NumberOf(CompressAll(f, 2)[8 * j..8 * j + 8], 2)
  {
    hide Compress, NumberOf, CompressAll;
    ghost var g := CompressAll(f, 2);
    var k, w := 0, 1;
    acc := 0;
    EmptyNumber();
    assert g[8 * j..8 * j + 0] == [];
    while k < 8
      invariant 0 <= k <= 8 && w == Pow2(k)
      invariant acc == NumberOf(g[8 * j..8 * j + k], 2)
    {
      assert g[8 * j..8 * j + k + 1] == g[8 * j..8 * j + k] + [g[8 * j + k]];
      NumberSnoc(g[8 * j..8 * j + k], g[8 * j + k]);
      acc := acc + w * Compress(f[8 * j + k], 2);
      w := 2 * w;
      k := k + 1;
    }
  }

  method CompressAndEncode1(f: Poly) returns (out: Bytes)
    requires |f| == 256
    ensures out == Encode(CompressAll(f, 2), 1) && |out| == 32
  {
    hide Encode, Compress, NumberOf, CompressAll;
    Powers();
    out := [];
    var j := 0;
    ghost var g := CompressAll(f, 2);
    Ends(g);
    while j < 32
      invariant 0 <= j <= 32
      invariant out + Encode(g[8 * j..], 1) == Encode(g, 1)
    {
      var acc := PackBits(f, j);
      EncodeStep(g, 8 * j, 8, 1, 1);
      EncodeGroup(g[8 * j..8 * j + 8], 1, 1);
      assert LowBytes(acc, 1) == [acc % 256];
      out := out + [acc % 256];
      j := j + 1;
    }
    DecodeEncode(g, 1, 32);
    DecodeEncode([], 1, 0);
  }

  lemma EmptyNumber()
    ensures NumberOf([], 2) == 0
  {
  }

  method DecodeAndDecompress1(b: Bytes) returns (f: Poly)
    requires |b| == 32
    ensures AllBelow(Decode(b, 1), 2) && f == DecompressAll(Decode(b, 1), 2) && |f| == 256
  {
    hide Decode, Decompress, NumberOf;
    Powers();
    f := [];
    var j := 0;
    Ends(b);
    ghost var g: seq<nat>, all := [], Decode(b, 1);
    EncodeDecode(b, 1, 256);
    while j < 32
      invariant 0 <= j <= 32 && |g| == 8 * j
      invariant AllBelow(g, 2) && f == DecompressAll(g, 2)
      invariant g + Decode(b[j..], 1) == all
    {
      var h: seq<nat>, x: nat := [], b[j];
      EmptyNumber();
      while |h| < 8
        invariant |h| <= 8 && AllBelow(h, 2) && AllBelow(g + h, 2) && f == DecompressAll(g + h, 2)
        invariant NumberOf(h, 2) + Pow2(|h|) * x == b[j]
      {
        var bit := x % 2;
        NumberSnoc(h, bit);
        assert Pow2(|h|) * x == Pow2(|h|) * bit + Pow2(|h| + 1) * (x / 2) by { Halve(Pow2(|h|), x); }
        f := f + [BitValue(bit)];
        assert g + (h + [bit]) == g + h + [bit];
        h, x := h + [bit], x / 2;
      }
      NumberUnfold([b[j]], 256);
      DecodeStep(b, j, 1, 1, 8);
      assert b[j..j + 1] == [b[j]];
      DecodeGroup([b[j]], 1, h);
      g := g + h;
      j := j + 1;
    }
    EncodeDecode([], 1, 0);
  }

  /** A message bit as a coefficient: 0 or q / 2 rounded up. */
  function BitValue(bit: nat): (x: Fe)
    requires bit < 2
    ensures x == Decompress(bit, 2)
  {
    bit * ((Q + 1) / 2)
  }

  lemma Halve(p: nat, x: nat)
    ensures p * x == p * (x % 2) + 2 * p * (x / 2)
  {
    assert x == x % 2 + 2 * (x / 2);
  }
}
