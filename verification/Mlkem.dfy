/**
 ML-KEM-768: key generation, encapsulation and decapsulation on bytes, over arbitrary
 hash functions, and exactly when decapsulation returns the encapsulated secret.
 */
module Mlkem {
  import opened Words
  import opened Zq
  import opened Rq
  import opened Ntt
  import opened BitPacking
  import opened RingCodec
  import opened Kpke

  /** The hash functions, and the rejection sampler that expands a seed into one entry of A. */
  datatype Hashes = Hashes(
    g: Bytes -> Bytes,               // SHA3-512
    h: Bytes -> Bytes,               // SHA3-256
    j: (Bytes, Bytes) -> Bytes,      // SHAKE256 of z and the ciphertext
    xof: (Bytes, nat, nat) -> Poly,  // seed and the two index bytes
    prf: (Bytes, nat) -> Bytes)      // SHAKE256 of a seed and a counter byte

  ghost predicate Sized(hs: Hashes) {
    && (forall x :: |hs.g(x)| == 64)
    && (forall x :: |hs.h(x)| == 32)
    && (forall z, c :: |hs.j(z, c)| == 32)
    && (forall seed, i, j :: |hs.xof(seed, i, j)| == N)
    && (forall seed, n :: |hs.prf(seed, n)| == 128)
  }

  // ----- sampling -----

  /** Differences of bit pairs, Algorithm 8 of FIPS 203 with eta = 2. */
  function Cbd(b: Bytes): (f: Poly)
    requires |b| == 128
    ensures |f| == N
  {
    CbdBits(b);
    var bits := Decode(b, 1);
    seq(N, i requires 0 <= i < N => Minus(bits[4 * i] + bits[4 * i + 1], bits[4 * i + 2] + bits[4 * i + 3]))
  }

  lemma CbdBits(b: Bytes)
    requires |b| == 128
    ensures |Decode(b, 1)| == 1024 && AllBelow(Decode(b, 1), 2)
  {
    Powers();
    EncodeDecode(b, 1, 1024);
  }

  /** Sampled errors are at most 2 in size. */
  lemma CbdIsSmall(b: Bytes, i: nat)
    requires |b| == 128 && i < N
    ensures -2 <= Centered(Cbd(b)[i]) <= 2
  {
    hide Decode;
    CbdBits(b);
  }

  /** Three consecutive samples from counter `n` on. */
  ghost function Sample3(hs: Hashes, seed: Bytes, n: nat): (v: seq<Poly>)
    requires Sized(hs)
    ensures IsVec(v, K)
  {
    [Cbd(hs.prf(seed, n)), Cbd(hs.prf(seed, n + 1)), Cbd(hs.prf(seed, n + 2))]
  }

  ghost function Matrix(hs: Hashes, rho: Bytes): (a: seq<Poly>)
    requires Sized(hs)
    ensures IsVec(a, 9)
  {
    seq(9, k requires 0 <= k < 9 => hs.xof(rho, k % 3, k / 3))
  }

  // ----- encryption on bytes -----

  function MessagePoly(m: Bytes): (mu: Poly)
    requires |m| == 32
    ensures |mu| == N
  {
    MessageBits(m);
    DecompressAll(Decode(m, 1), 2)
  }

  lemma MessageBits(m: Bytes)
    requires |m| == 32
    ensures |Decode(m, 1)| == 256 && AllBelow(Decode(m, 1), 2)
  {
    Powers();
    EncodeDecode(m, 1, 256);
  }

  function EncodeU(f: Poly): (b: Bytes)
    requires |f| == N
    ensures |b| == 320
  {
    Powers();
    DecodeEncode(CompressAll(f, 1024), 10, 320);
    Encode(CompressAll(f, 1024), 10)
  }

  function EncodeV(f: Poly): (b: Bytes)
    requires |f| == N
    ensures |b| == 128
  {
    Powers();
    DecodeEncode(CompressAll(f, 16), 4, 128);
    Encode(CompressAll(f, 16), 4)
  }

  function DecodeU(b: Bytes): (f: Poly)
    requires |b| == 320
    ensures |f| == N
  {
    Powers();
    EncodeDecode(b, 10, 256);
    DecompressAll(Decode(b, 10), 1024)
  }

  function DecodeV(b: Bytes): (f: Poly)
    requires |b| == 128
    ensures |f| == N
  {
    Powers();
    EncodeDecode(b, 4, 256);
    DecompressAll(Decode(b, 4), 16)
  }

  function EncodeMessage(w: Poly): (m: Bytes)
    requires |w| == N
    ensures |m| == 32
  {
    Powers();
    DecodeEncode(CompressAll(w, 2), 1, 32);
    Encode(CompressAll(w, 2), 1)
  }

  /** The first ciphertext part: u, which needs only A. */
  function FirstPart(a: seq<Poly>, r: seq<Poly>, e1: seq<Poly>): (c: Bytes)
    requires IsVec(a, 9) && IsVec(r, K) && IsVec(e1, K)
    ensures |c| == 960
  {
    EncodeU(CipherU(a, r, e1[0], 0)) + EncodeU(CipherU(a, r, e1[1], 1)) + EncodeU(CipherU(a, r, e1[2], 2))
  }

  /** The second ciphertext part: v, which needs the public vector. */
  function SecondPart(t: seq<Poly>, r: seq<Poly>, e2: Poly, m: Bytes): (c: Bytes)
    requires IsVec(t, K) && IsVec(r, K) && |e2| == N && |m| == 32
    ensures |c| == 128
  {
    EncodeV(CipherV(t, r, e2, MessagePoly(m)))
  }

  /** The three u polynomials a ciphertext carries. */
  function ReadU(c: Bytes): (u: seq<Poly>)
    requires |c| == 1088
    ensures IsVec(u, K)
  {
    [DecodeU(c[..320]), DecodeU(c[320..640]), DecodeU(c[640..960])]
  }

  function PkeDecrypt(s: seq<Poly>, c: Bytes): (m: Bytes)
    requires IsVec(s, K) && |c| == 1088
    ensures |m| == 32
  {
    EncodeMessage(Unmask(s, ReadU(c), DecodeV(c[960..])))
  }

  // ----- when decryption succeeds -----

  /** The noise a message bit survives: the two halves of the circle split at q / 4. */
  predicate NoiseOk(n: Fe, bit: nat) {
    -832 <= Centered(n) <= (if bit == 0 then 832 else 831)
  }

  lemma BitSurvives(bit: nat, n: Fe)
    requires bit < 2
    ensures Compress(Plus(Decompress(bit, 2), n), 2) == bit <==> NoiseOk(n, bit)
  {
    hide Compress, Decompress;
  }

  lemma RoundTripU(f: Poly)
    requires |f| == N
    ensures DecodeU(EncodeU(f)) == DecompressAll(CompressAll(f, 1024), 1024)
  {
    hide Encode, Decode;
    Powers();
    DecodeEncode(CompressAll(f, 1024), 10, 320);
  }

  lemma RoundTripV(f: Poly)
    requires |f| == N
    ensures DecodeV(EncodeV(f)) == DecompressAll(CompressAll(f, 16), 16)
  {
    hide Encode, Decode;
    Powers();
    DecodeEncode(CompressAll(f, 16), 4, 128);
  }

  /** An honest ciphertext carries u within 2 and v within 104 of what was computed. */
  lemma CompressionNoise(f: Poly, i: nat)
    requires |f| == N && i < N
    ensures Abs(Centered(Sub(DecodeU(EncodeU(f)), f)[i])) <= 2
    ensures Abs(Centered(Sub(DecodeV(EncodeV(f)), f)[i])) <= 104
  {
    hide Encode, Decode, Compress, Decompress, Centered, Minus;
    RoundTripU(f);
    RoundTripV(f);
    CompressionError(f[i], 1024);
    CompressionError(f[i], 16);
  }

  /** The message comes back exactly when every bit survives the noise on it. */
  lemma MessageSurvives(m: Bytes, n: Poly)
    requires |m| == 32 && |n| == N
    ensures |Decode(m, 1)| == N
    ensures EncodeMessage(Add(MessagePoly(m), n)) == m <==> forall i | 0 <= i < N :: NoiseOk(n[i], Decode(m, 1)[i])
  {
    hide Encode, Decode, Compress, Decompress, NoiseOk, Plus;
    MessageBits(m);
    Powers();
    EncodeDecode(m, 1, 256);
    var bits := Decode(m, 1);
    var w := Add(MessagePoly(m), n);
    var got := CompressAll(w, 2);
    DecodeEncode(got, 1, 32);
    forall i | 0 <= i < N ensures got[i] == bits[i] <==> NoiseOk(n[i], bits[i]) {
      BitSurvives(bits[i], n[i]);
    }
    if EncodeMessage(w) == m {
      assert got == bits;
    } else {
      assert got != bits;
    }
  }

  /** Both sides of one encryption of m, as the recipient sees it. */
  ghost function ExchangeOf(a: seq<Poly>, s: seq<Poly>, e: seq<Poly>, r: seq<Poly>, e1: seq<Poly>, e2: Poly,
      m: Bytes): (x: Exchange)
    requires IsVec(a, 9) && IsVec(s, K) && IsVec(e, K) && IsVec(r, K) && IsVec(e1, K) && |e2| == N && |m| == 32
    ensures x.Ok()
  {
    var c := FirstPart(a, r, e1) + SecondPart(PublicVector(a, s, e), r, e2, m);
    Exchange(a, s, e, r, e1, e2, MessagePoly(m), ReadU(c), DecodeV(c[960..]))
  }

  /**
   Decryption of an encryption gives back the message if and only if every coefficient
   of the combined noise stays in the range its message bit survives.
   */
  lemma DecryptIffNoiseOk(a: seq<Poly>, s: seq<Poly>, e: seq<Poly>, r: seq<Poly>, e1: seq<Poly>, e2: Poly, m: Bytes)
    requires IsVec(a, 9) && IsVec(s, K) && IsVec(e, K) && IsVec(r, K) && IsVec(e1, K) && |e2| == N && |m| == 32
    ensures |Decode(m, 1)| == N
    ensures var x := ExchangeOf(a, s, e, r, e1, e2, m);
      PkeDecrypt(s, FirstPart(a, r, e1) + SecondPart(PublicVector(a, s, e), r, e2, m)) == m
      <==> forall i | 0 <= i < N :: NoiseOk(x.Noise()[i], Decode(m, 1)[i])
  {
    hide Decode, NoiseOk, FirstPart, SecondPart, PublicVector, ReadU, Exchange.Noise, EncodeMessage, Unmask,
      MessagePoly;
    var x := ExchangeOf(a, s, e, r, e1, e2, m);
    UnmaskedIsNoisy(x);
    MessageSurvives(m, x.Noise());
  }

  /** A noise of at most 831 is always survived. */
  lemma SmallNoiseDecrypts(a: seq<Poly>, s: seq<Poly>, e: seq<Poly>, r: seq<Poly>, e1: seq<Poly>, e2: Poly, m: Bytes)
    requires IsVec(a, 9) && IsVec(s, K) && IsVec(e, K) && IsVec(r, K) && IsVec(e1, K) && |e2| == N && |m| == 32
    requires var n := ExchangeOf(a, s, e, r, e1, e2, m).Noise();
      forall i | 0 <= i < N :: -831 <= Centered(n[i]) <= 831
    ensures PkeDecrypt(s, FirstPart(a, r, e1) + SecondPart(PublicVector(a, s, e), r, e2, m)) == m
  {
    hide Decode, FirstPart, SecondPart, PublicVector, PkeDecrypt, Exchange.Noise, Centered, ExchangeOf;
    DecryptIffNoiseOk(a, s, e, r, e1, e2, m);
  }
}
