/**
 The key encapsulation and its incremental form: a key split into header and
 encapsulation key, and a ciphertext made in two phases from one and then the other.
 */
module Incremental {
  import opened Words
  import opened Zq
  import opened Rq
  import opened Ntt
  import opened BitPacking
  import opened RingCodec
  import opened Kpke
  import opened Mlkem
  import opened EncapsState
  import P = Primitives

  datatype DecapsKey = DecapsKey(z: Bytes, rho: Bytes, h: Bytes, t: seq<Poly>, a: seq<Poly>, s: seq<Poly>)

  // ----- keys on bytes -----

  function EncodePoly(f: Poly): (b: Bytes)
    requires |f| == N
    ensures |b| == 384
  {
    Powers();
    DecodeEncode(f, 12, 384);
    Encode(f, 12)
  }

  /** Refuses coefficients that are not reduced. */
  function DecodePoly(b: Bytes): (f: Option<Poly>)
    requires |b| == 384
    ensures f.Some? ==> |f.value| == N
  {
    EncodeDecode(b, 12, 256);
    if AllBelow(Decode(b, 12), Q) then Some(Decode(b, 12)) else None
  }

  lemma PolyRoundTrip(f: Poly)
    requires |f| == N
    ensures DecodePoly(EncodePoly(f)) == Some(f)
  {
    hide Encode, Decode;
    Powers();
    DecodeEncode(f, 12, 384);
  }

  function EncodeVec(v: seq<Poly>): (b: Bytes)
    requires IsVec(v, K)
    ensures |b| == 1152
  {
    EncodePoly(v[0]) + EncodePoly(v[1]) + EncodePoly(v[2])
  }

  function DecodeVec(b: Bytes): (v: Option<seq<Poly>>)
    requires |b| == 1152
    ensures v.Some? ==> IsVec(v.value, K)
  {
    var p, q, r := DecodePoly(b[..384]), DecodePoly(b[384..768]), DecodePoly(b[768..]);
    if p.Some? && q.Some? && r.Some? then Some([p.value, q.value, r.value]) else None
  }

  lemma VecRoundTrip(v: seq<Poly>)
    requires IsVec(v, K)
    ensures DecodeVec(EncodeVec(v)) == Some(v)
  {
    hide EncodePoly, DecodePoly;
    var b := EncodeVec(v);
    assert b[..384] == EncodePoly(v[0]) && b[384..768] == EncodePoly(v[1]) && b[768..] == EncodePoly(v[2]);
    PolyRoundTrip(v[0]);
    PolyRoundTrip(v[1]);
    PolyRoundTrip(v[2]);
    assert [v[0], v[1], v[2]] == v;
  }

  // ----- the key encapsulation -----

  /** Two seeds of 32 bytes each from one. */
  ghost function Seeds(hs: Hashes, x: Bytes): (r: (Bytes, Bytes))
    requires Mlkem.Sized(hs)
    ensures |r.0| == 32 == |r.1|
  {
    (hs.g(x)[..32], hs.g(x)[32..])
  }

  ghost function Secrets(hs: Hashes, d: Bytes, n: nat): (v: seq<Poly>)
    requires Mlkem.Sized(hs)
    ensures IsVec(v, K)
  {
    Transforms(Sample3(hs, Seeds(hs, d + [3]).1, n))
  }

  ghost predicate KeyOk(k: DecapsKey) {
    IsVec(k.t, K) && IsVec(k.a, 9) && IsVec(k.s, K) && |k.rho| == 32 && |k.h| == 32
  }

  ghost function KeyFrom(hs: Hashes, rho: Bytes, a: seq<Poly>, s: seq<Poly>, e: seq<Poly>, z: Bytes): (k: DecapsKey)
    requires Mlkem.Sized(hs) && |rho| == 32 && IsVec(a, 9) && IsVec(s, K) && IsVec(e, K)
    ensures KeyOk(k) && k.z == z
  {
    var t := PublicVector(a, s, e);
    DecapsKey(z, rho, hs.h(EncodeVec(t) + rho), t, a, s)
  }

  ghost function KeyGen(hs: Hashes, d: Bytes, z: Bytes): (k: DecapsKey)
    requires Mlkem.Sized(hs)
    ensures KeyOk(k) && k.z == z
  {
    var rho := Seeds(hs, d + [3]).0;
    KeyFrom(hs, rho, Matrix(hs, rho), Secrets(hs, d, 0), Secrets(hs, d, 3), z)
  }

  ghost function PkeEncrypt(hs: Hashes, t: seq<Poly>, a: seq<Poly>, m: Bytes, rnd: Bytes): (c: Bytes)
    requires Mlkem.Sized(hs) && IsVec(t, K) && IsVec(a, 9) && |m| == 32
    ensures |c| == 1088
  {
    var r := Transforms(Sample3(hs, rnd, 0));
    FirstPart(a, r, Sample3(hs, rnd, 3)) + SecondPart(t, r, Cbd(hs.prf(rnd, 6)), m)
  }

  /** Encrypting m under the randomness that m itself determines. */
  ghost function Encapsulated(hs: Hashes, t: seq<Poly>, a: seq<Poly>, h: Bytes, m: Bytes): (r: (Bytes, Bytes))
    requires Mlkem.Sized(hs) && IsVec(t, K) && IsVec(a, 9) && |m| == 32
    ensures |r.0| == 32 && |r.1| == 1088
  {
    var (ss, rnd) := Seeds(hs, m + h);
    (ss, PkeEncrypt(hs, t, a, m, rnd))
  }

  ghost function EncapsulateInternal(hs: Hashes, k: DecapsKey, m: Bytes): (r: (Bytes, Bytes))
    requires Mlkem.Sized(hs) && KeyOk(k) && |m| == 32
    ensures |r.0| == 32 && |r.1| == 1088
  {
    Encapsulated(hs, k.t, k.a, k.h, m)
  }

  /** A ciphertext that does not re-encrypt to itself yields a secret derived from z. */
  ghost function Decapsulate(hs: Hashes, k: DecapsKey, c: Bytes): (r: Option<Bytes>)
    requires Mlkem.Sized(hs) && KeyOk(k)
    ensures r.Some? <==> |c| == 1088
  {
    if |c| != 1088 then None
    else
      var (ss, again) := Encapsulated(hs, k.t, k.a, k.h, PkeDecrypt(k.s, c));
      if again == c then Some(ss) else Some(hs.j(k.z, c))
  }

  /** What one encapsulation of m to a key with the given errors draws, as the recipient sees it. */
  ghost function Drawn(hs: Hashes, k: DecapsKey, e: seq<Poly>, m: Bytes, rnd: Bytes): (x: Exchange)
    requires Mlkem.Sized(hs) && KeyOk(k) && IsVec(e, K) && |m| == 32
    ensures x.Ok()
  {
    ExchangeOf(k.a, k.s, e, Transforms(Sample3(hs, rnd, 0)), Sample3(hs, rnd, 3), Cbd(hs.prf(rnd, 6)), m)
  }

  /** The combined noise of encapsulating m to the key of seed d. */
  ghost function EncapsNoise(hs: Hashes, d: Bytes, z: Bytes, m: Bytes): (n: Poly)
    requires Mlkem.Sized(hs) && |m| == 32
    ensures |n| == N
  {
    var k := KeyGen(hs, d, z);
    Drawn(hs, k, Secrets(hs, d, 3), m, Seeds(hs, m + k.h).1).Noise()
  }

  ghost predicate NoiseSurvived(hs: Hashes, d: Bytes, z: Bytes, m: Bytes)
    requires Mlkem.Sized(hs) && |m| == 32
  {
    MessageBits(m);
    forall i | 0 <= i < N :: NoiseOk(EncapsNoise(hs, d, z, m)[i], Decode(m, 1)[i])
  }

  /** Decryption recovers m exactly when the noise is survived, and then both secrets agree. */
  lemma DecapsulateAgrees(hs: Hashes, d: Bytes, z: Bytes, m: Bytes)
    requires Mlkem.Sized(hs) && |m| == 32
    ensures var k := KeyGen(hs, d, z);
      var (ss, c) := EncapsulateInternal(hs, k, m);
      && (PkeDecrypt(k.s, c) == m <==> NoiseSurvived(hs, d, z, m))
      && (NoiseSurvived(hs, d, z, m) ==> Decapsulate(hs, k, c) == Some(ss))
  {
    hide PkeDecrypt, FirstPart, SecondPart, PublicVector, Exchange.Noise, NoiseOk, Decode, Cbd;
    var k := KeyGen(hs, d, z);
    var rnd := Seeds(hs, m + k.h).1;
    DecryptIffNoiseOk(k.a, k.s, Secrets(hs, d, 3), Transforms(Sample3(hs, rnd, 0)), Sample3(hs, rnd, 3),
      Cbd(hs.prf(rnd, 6)), m);
  }

  // ----- the incremental form -----

  function Header(k: DecapsKey): (b: Bytes) {
    k.rho + k.h
  }

  ghost function PublicKey(k: DecapsKey): (b: Bytes)
    requires KeyOk(k)
    ensures |b| == 1184
  {
    EncodeVec(k.t) + k.rho
  }

  ghost function Expanded(k: DecapsKey): (b: Bytes)
    requires KeyOk(k) && |k.z| == 32
    ensures |b| == 2400
  {
    EncodeVec(k.s) + PublicKey(k) + k.h + k.z
  }

  /** The parts of a parsed public key: the vector and the seed of the matrix. */
  ghost function ParsePublicKey(b: Bytes): (r: Option<(seq<Poly>, Bytes)>)
    ensures r.Some? ==> |b| == 1184 && IsVec(r.value.0, K) && |r.value.1| == 32
  {
    if |b| != 1184 then None
    else
      match DecodeVec(b[..1152])
      case None => None
      case Some(t) => Some((t, b[1152..]))
  }

  /** Parses the expanded key and checks the hash stored in it. */
  ghost function ParseExpanded(hs: Hashes, b: Bytes): (r: Option<DecapsKey>)
    requires Mlkem.Sized(hs)
    ensures r.Some? ==> |b| == 2400 && KeyOk(r.value)
  {
    if |b| != 2400 then None
    else
      var ek := b[1152..2336];
      match (DecodeVec(b[..1152]), ParsePublicKey(ek))
      case (Some(s), Some((t, rho))) =>
        if hs.h(ek) != b[2336..2368] then None
        else Some(DecapsKey(b[2368..], rho, hs.h(ek), t, Matrix(hs, rho), s))
      case _ => None
  }

  ghost function Encapsulate1(hs: Hashes, pk1: Bytes, m: Bytes): (p: Option<P.Phase1>)
    requires Mlkem.Sized(hs) && |m| == 32
    ensures p.Some? <==> |pk1| == 64
    ensures p.Some? ==> |p.value.ct1| == 960 && |p.value.es| == STATE_SIZE
  {
    if |pk1| != 64 then None
    else
      var (ss, rnd) := Seeds(hs, m + pk1[32..64]);
      var r := Transforms(Sample3(hs, rnd, 0));
      Some(P.Phase1(FirstPart(Matrix(hs, pk1[..32]), r, Sample3(hs, rnd, 3)),
        EncodeState(r, Cbd(hs.prf(rnd, 6)), m), ss))
  }

  function Encapsulate2(state: Bytes, pk2: Bytes): (c: Option<Bytes>)
    ensures c.Some? ==> |c.value| == 128
  {
    if |pk2| != 1152 then None
    else
      match FixEndianness(state)
      case None => None
      case Some(fixed) =>
        var saved := DecodeState(fixed).value;
        match DecodeVec(pk2)
        case None => None
        case Some(t) => Some(SecondPart(t, saved.r, saved.e2, saved.m))
  }

  ghost predicate ValidatePublicKeyParts(hs: Hashes, pk1: Bytes, pk2: Bytes)
    requires Mlkem.Sized(hs)
  {
    && |pk1| == 64 && |pk2| == 1152
    && hs.h(pk2 + pk1[..32]) == pk1[32..64]
    && ParsePublicKey(pk2 + pk1[..32]).Some?
  }

  ghost function DecapsulateCompressedKey(hs: Hashes, dk: Bytes, ct1: Bytes, ct2: Bytes): (r: Option<Bytes>)
    requires Mlkem.Sized(hs)
  {
    if |dk| != 2400 || |ct1| != 960 || |ct2| != 128 then None
    else
      match ParseExpanded(hs, dk)
      case None => None
      case Some(k) => Decapsulate(hs, k, ct1 + ct2)
  }

  /** A key whose matrix and hash belong to its seed and public vector, as generated keys' do. */
  ghost predicate Matching(hs: Hashes, k: DecapsKey)
    requires Mlkem.Sized(hs)
  {
    KeyOk(k) && |k.z| == 32 && k.a == Matrix(hs, k.rho) && k.h == hs.h(PublicKey(k))
  }

  lemma SampledErrorsAreSmall(b: Bytes)
    requires |b| == 128
    ensures SmallErrors(Cbd(b))
  {
    hide Cbd, Centered;
    forall i | 0 <= i < N ensures -2 <= Centered(Cbd(b)[i]) <= 2 {
      CbdIsSmall(b, i);
    }
  }

  /**
   The two phases together make the ciphertext and the secret of the one-step
   encapsulation, for every matching header and key and every message, through the
   saved state.
   */
  lemma TwoPhasesAreOne(hs: Hashes, k: DecapsKey, m: Bytes)
    requires Mlkem.Sized(hs) && Matching(hs, k) && |m| == 32
    ensures var p := Encapsulate1(hs, Header(k), m);
      && p.Some?
      && var ct2 := Encapsulate2(p.value.es, EncodeVec(k.t));
         && ct2.Some?
         && EncapsulateInternal(hs, k, m) == (p.value.ss, p.value.ct1 + ct2.value)
  {
    hide FirstPart, SecondPart, EncodeState, DecodeState, FixEndianness, Cbd, Matrix, EncodeVec, DecodeVec, PublicKey;
    assert Header(k)[..32] == k.rho && Header(k)[32..64] == k.h;
    var rnd := Seeds(hs, m + k.h).1;
    var r, e2 := Transforms(Sample3(hs, rnd, 0)), Cbd(hs.prf(rnd, 6));
    SampledErrorsAreSmall(hs.prf(rnd, 6));
    FixKeepsWritten(r, e2, m);
    StateRoundTrip(r, e2, m);
    VecRoundTrip(k.t);
  }

  /** Header and encapsulation key of a generated key validate. */
  lemma MatchingValidates(hs: Hashes, k: DecapsKey)
    requires Mlkem.Sized(hs) && Matching(hs, k)
    ensures ValidatePublicKeyParts(hs, Header(k), EncodeVec(k.t))
  {
    hide EncodeVec, DecodeVec, Matrix;
    assert Header(k)[..32] == k.rho && Header(k)[32..64] == k.h;
    assert PublicKey(k)[..1152] == EncodeVec(k.t) && PublicKey(k)[1152..] == k.rho;
    VecRoundTrip(k.t);
  }

  lemma ExpandedRoundTrip(hs: Hashes, k: DecapsKey)
    requires Mlkem.Sized(hs) && Matching(hs, k)
    ensures ParseExpanded(hs, Expanded(k)) == Some(k)
  {
    hide EncodeVec, DecodeVec, Matrix;
    var b := Expanded(k);
    assert b[..1152] == EncodeVec(k.s) && b[1152..2336] == PublicKey(k) && b[2336..2368] == k.h && b[2368..] == k.z;
    assert PublicKey(k)[..1152] == EncodeVec(k.t) && PublicKey(k)[1152..] == k.rho;
    VecRoundTrip(k.t);
    VecRoundTrip(k.s);
  }

  lemma GeneratedMatches(hs: Hashes, d: Bytes, z: Bytes)
    requires Mlkem.Sized(hs) && |z| == 32
    ensures Matching(hs, KeyGen(hs, d, z))
  {
    hide Matrix, EncodeVec, PublicVector, Secrets;
  }

  /** The incremental form returns the encapsulated secret whenever the noise is survived. */
  lemma IncrementalAgrees(hs: Hashes, d: Bytes, z: Bytes, m: Bytes)
    requires Mlkem.Sized(hs) && |z| == 32 && |m| == 32 && NoiseSurvived(hs, d, z, m)
    ensures var k := KeyGen(hs, d, z);
      var p := Encapsulate1(hs, Header(k), m);
      && p.Some?
      && var ct2 := Encapsulate2(p.value.es, EncodeVec(k.t));
         ct2.Some? && DecapsulateCompressedKey(hs, Expanded(k), p.value.ct1, ct2.value) == Some(p.value.ss)
  {
    hide KeyGen, NoiseSurvived, Encapsulate1, Encapsulate2, EncodeVec, ParseExpanded, Expanded, Decapsulate,
      EncapsulateInternal;
    var k := KeyGen(hs, d, z);
    GeneratedMatches(hs, d, z);
    TwoPhasesAreOne(hs, k, m);
    ExpandedRoundTrip(hs, k);
    DecapsulateAgrees(hs, d, z, m);
  }
}
