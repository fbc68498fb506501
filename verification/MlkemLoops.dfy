/** Key generation, encryption, decryption and the two encapsulation phases as loops. */
module MlkemLoops {
  import opened Words
  import opened Zq
  import opened Rq
  import opened Ntt
  import opened NttInPlace
  import opened BitPacking
  import opened RingCodec
  import opened RingLoops
  import opened Kpke
  import opened Mlkem
  import opened EncapsState
  import opened Incremental
  import P = Primitives

  // ----- coefficient loops -----

  method PolyAdd(a: Poly, b: Poly) returns (s: Poly)
    requires |a| == N == |b|
    ensures s == Add(a, b)
  {
    hide Plus;
    s := [];
    for i := 0 to N
      invariant |s| == i && s == Add(a, b)[..i]
    {
      s := s + [FieldAdd(a[i], b[i])];
    }
  }

  method PolySub(a: Poly, b: Poly) returns (s: Poly)
    requires |a| == N == |b|
    ensures s == Sub(a, b)
  {
    hide Minus;
    s := [];
    for i := 0 to N
      invariant |s| == i && s == Sub(a, b)[..i]
    {
      s := s + [FieldSub(a[i], b[i])];
    }
  }

  lemma EightParts(b: byte)
    ensures b == b % 2 + 2 * (b / 2 % 2 + 2 * (b / 4 % 2 + 2 * (b / 8 % 2
              + 2 * (b / 16 % 2 + 2 * (b / 32 % 2 + 2 * (b / 64 % 2 + 2 * (b / 128 % 2)))))))
  {
    var l, h := b % 16, b / 16;
    NibbleParts(l);
    NibbleParts(h);
    LowNibble(h, l);
    assert b / 32 == h / 2 && b / 64 == h / 4 && b / 128 == h / 8;
  }

  lemma NibbleParts(n: nat)
    requires n < 16
    ensures n == n % 2 + 2 * (n / 2 % 2 + 2 * (n / 4 % 2 + 2 * (n / 8 % 2)))
  {
  }

  lemma LowNibble(h: nat, l: nat)
    requires l < 16
    ensures var b := 16 * h + l;
      b % 2 == l % 2 && b / 2 % 2 == l / 2 % 2 && b / 4 % 2 == l / 4 % 2 && b / 8 % 2 == l / 8 % 2
  {
    Parity(8 * h, l);
    Parity(4 * h, l / 2);
    Parity(2 * h, l / 4);
    Parity(h, l / 8);
    var b := 16 * h + l;
    assert b / 2 == 2 * (4 * h) + l / 2 && b / 4 == 2 * (2 * h) + l / 4 && b / 8 == 2 * h + l / 8;
  }

  lemma Parity(k: nat, x: nat)
    ensures (2 * k + x) % 2 == x % 2
  {
  }

  lemma ByteBits(b: byte)
    ensures Decode([b], 1) == [b % 2, b / 2 % 2, b / 4 % 2, b / 8 % 2, b / 16 % 2, b / 32 % 2, b / 64 % 2, b / 128 % 2]
  {
    hide Decode, NumberOf;
    Powers();
    var g: seq<nat> := [b % 2, b / 2 % 2, b / 4 % 2, b / 8 % 2, b / 16 % 2, b / 32 % 2, b / 64 % 2, b / 128 % 2];
    FourDigits(g[4..], 2);
    NumberUnfold(g[3..], 2);
    NumberUnfold(g[2..], 2);
    NumberUnfold(g[1..], 2);
    NumberUnfold(g, 2);
    assert g[3..][1..] == g[4..] && g[2..][1..] == g[3..] && g[1..][1..] == g[2..];
    NumberUnfold([b], 256);
    EightParts(b);
    DecodeGroup([b], 1, g);
  }

  lemma {:induction false} BitsOfByte(b: Bytes, j: nat, k: nat)
    requires j < |b| && k < 8
    ensures |Decode(b, 1)| == 8 * |b| && |Decode([b[j]], 1)| == 8 && Decode(b, 1)[8 * j + k] == Decode([b[j]], 1)[k]
    decreases |b|
  {
    hide Decode;
    EncodeDecode(b, 1, 8 * |b|);
    EncodeDecode([b[j]], 1, 8);
    EncodeDecode(b[..1], 1, 8);
    EncodeDecode(b[1..], 1, 8 * |b[1..]|);
    assert b == b[..1] + b[1..] && b[..1] == [b[0]];
    DecodeAppend(b[..1], b[1..], 1, 8);
    if j > 0 {
      BitsOfByte(b[1..], j - 1, k);
    }
  }

  /** The two coefficients of one sampled byte. */
  lemma CbdAt(b: Bytes, j: nat)
    requires |b| == 128 && j < 128
    ensures var x := b[j];
      && Cbd(b)[2 * j] == Minus(x % 2 + x / 2 % 2, x / 4 % 2 + x / 8 % 2)
      && Cbd(b)[2 * j + 1] == Minus(x / 16 % 2 + x / 32 % 2, x / 64 % 2 + x / 128 % 2)
  {
    hide Decode, Minus;
    CbdBits(b);
    ByteBits(b[j]);
    BitsOfByte(b, j, 0);
    BitsOfByte(b, j, 1);
    BitsOfByte(b, j, 2);
    BitsOfByte(b, j, 3);
    BitsOfByte(b, j, 4);
    BitsOfByte(b, j, 5);
    BitsOfByte(b, j, 6);
    BitsOfByte(b, j, 7);
    assert 4 * (2 * j) == 8 * j && 4 * (2 * j + 1) == 8 * j + 4;
  }

  method SamplePolyCbd(hs: Hashes, seed: Bytes, n: nat) returns (f: Poly)
    requires Mlkem.Sized(hs)
    ensures f == Cbd(hs.prf(seed, n))
  {
    hide Cbd, Minus;
    var b := hs.prf(seed, n);
    f := [];
    for j := 0 to 128
      invariant f == Cbd(b)[..2 * j]
    {
      var x := b[j];
      CbdAt(b, j);
      var lo := FieldSub(x % 2 + x / 2 % 2, x / 4 % 2 + x / 8 % 2);
      var hi := FieldSub(x / 16 % 2 + x / 32 % 2, x / 64 % 2 + x / 128 % 2);
      f := f + [lo] + [hi];
    }
  }

  // ----- vectors -----

  /** The dot product of two transformed vectors on top of a start value. */
  method DotProduct(start: Poly, x: seq<Poly>, y: seq<Poly>) returns (s: Poly)
    requires |start| == N && IsVec(x, K) && IsVec(y, K)
    ensures s == Accumulate(start, x, y)
  {
    hide Add, PointMul;
    s := start;
    for j := 0 to K
      invariant s == Accumulate(start, x[..j], y[..j])
    {
      var p := NttMul(x[j], y[j]);
      s := PolyAdd(s, p);
      assert x[..j + 1][..j] == x[..j] && y[..j + 1][..j] == y[..j];
    }
    assert x[..K] == x && y[..K] == y;
  }

  /** Three consecutive samples. */
  method SampleThree(hs: Hashes, seed: Bytes, n: nat) returns (v: seq<Poly>)
    requires Mlkem.Sized(hs)
    ensures v == Sample3(hs, seed, n)
  {
    hide Cbd;
    v := [];
    var counter := n;
    for i := 0 to K
      invariant counter == n + i && v == Sample3(hs, seed, n)[..i]
    {
      var f := SamplePolyCbd(hs, seed, counter);
      v := v + [f];
      counter := counter + 1;
    }
  }

  method TransformThree(v: seq<Poly>) returns (w: seq<Poly>)
    requires IsVec(v, K)
    ensures w == Transforms(v)
  {
    hide Transform;
    w := [];
    for i := 0 to K
      invariant w == Transforms(v)[..i]
    {
      var f := NttForward(v[i]);
      w := w + [f];
    }
  }

  method ExpandMatrix(hs: Hashes, rho: Bytes) returns (a: seq<Poly>)
    requires Mlkem.Sized(hs)
    ensures a == Matrix(hs, rho)
  {
    a := [];
    for i := 0 to K
      invariant a == Matrix(hs, rho)[..3 * i]
    {
      for j := 0 to K
        invariant a == Matrix(hs, rho)[..3 * i + j]
      {
        assert (3 * i + j) % 3 == j && (3 * i + j) / 3 == i;
        a := a + [hs.xof(rho, j, i)];
      }
    }
  }

  // ----- encryption in two halves -----

  /** Each column of A times r, taken back, plus its error, compressed. */
  method MakeFirstPart(a: seq<Poly>, r: seq<Poly>, e1: seq<Poly>) returns (c: Bytes)
    requires IsVec(a, 9) && IsVec(r, K) && IsVec(e1, K)
    ensures c == FirstPart(a, r, e1)
  {
    hide Inverse, Accumulate, Add, EncodeU;
    var u: seq<Poly> := [];
    for i := 0 to K
      invariant |u| == i && forall k | 0 <= k < i :: |u[k]| == N && u[k] == CipherU(a, r, e1[k], k)
    {
      var uHat := DotProduct(Zero(N), [a[i], a[3 + i], a[6 + i]], r);
      var back := NttInverse(uHat);
      var f := PolyAdd(e1[i], back);
      u := u + [f];
    }
    var c0 := CompressAndEncode10(u[0]);
    var c1 := CompressAndEncode10(u[1]);
    var c2 := CompressAndEncode10(u[2]);
    assert c0 == EncodeU(u[0]) && c1 == EncodeU(u[1]) && c2 == EncodeU(u[2]) by {
      EncodeUIs(u[0]);
      EncodeUIs(u[1]);
      EncodeUIs(u[2]);
    }
    c := c0 + c1 + c2;
  }

  lemma EncodeUIs(f: Poly)
    requires |f| == N
    ensures EncodeU(f) == Encode(CompressAll(f, 1024), 10)
  {
  }

  method MakeSecondPart(t: seq<Poly>, r: seq<Poly>, e2: Poly, m: Bytes) returns (c: Bytes)
    requires IsVec(t, K) && IsVec(r, K) && |e2| == N && |m| == 32
    ensures c == SecondPart(t, r, e2, m)
  {
    hide Inverse, Accumulate, Add, Encode, Decode;
    var vHat := DotProduct(Zero(N), t, r);
    var mu := DecodeAndDecompress1(m);
    var back := NttInverse(vHat);
    var v := PolyAdd(back, e2);
    v := PolyAdd(v, mu);
    c := CompressAndEncode4(v);
  }

  method EncryptBytes(hs: Hashes, t: seq<Poly>, a: seq<Poly>, m: Bytes, rnd: Bytes) returns (c: Bytes)
    requires Mlkem.Sized(hs) && IsVec(t, K) && IsVec(a, 9) && |m| == 32
    ensures c == PkeEncrypt(hs, t, a, m, rnd)
  {
    hide FirstPart, SecondPart, Cbd, Transforms, Sample3;
    var r := SampleThree(hs, rnd, 0);
    r := TransformThree(r);
    var e1 := SampleThree(hs, rnd, 3);
    var e2 := SamplePolyCbd(hs, rnd, 6);
    var ct1 := MakeFirstPart(a, r, e1);
    var ct2 := MakeSecondPart(t, r, e2, m);
    c := ct1 + ct2;
  }

  method DecryptBytes(s: seq<Poly>, c: Bytes) returns (m: Bytes)
    requires IsVec(s, K) && |c| == 1088
    ensures m == PkeDecrypt(s, c)
  {
    hide Inverse, Accumulate, Sub, Encode, Decode, Transform;
    var u0 := DecodeAndDecompress10(c[..320]);
    var u1 := DecodeAndDecompress10(c[320..640]);
    var u2 := DecodeAndDecompress10(c[640..960]);
    var v := DecodeAndDecompress4(c[960..]);
    var u := [u0, u1, u2];
    var uHat := TransformThree(u);
    var mask := DotProduct(Zero(N), s, uHat);
    var back := NttInverse(mask);
    var w := PolySub(v, back);
    m := CompressAndEncode1(w);
  }

  // ----- keys and phases -----

  method EncodeThree(v: seq<Poly>) returns (b: Bytes)
    requires IsVec(v, K)
    ensures b == EncodeVec(v)
  {
    hide Encode;
    var b0 := PolyByteEncode(v[0]);
    var b1 := PolyByteEncode(v[1]);
    var b2 := PolyByteEncode(v[2]);
    b := b0 + b1 + b2;
  }

  method DecodeThree(b: Bytes) returns (v: Option<seq<Poly>>)
    requires |b| == 1152
    ensures v == DecodeVec(b)
  {
    hide Decode;
    var p := PolyByteDecode(b[..384]);
    if p.None? {
      return None;
    }
    var q := PolyByteDecode(b[384..768]);
    if q.None? {
      return None;
    }
    var r := PolyByteDecode(b[768..]);
    if r.None? {
      return None;
    }
    return Some([p.value, q.value, r.value]);
  }

  method KemKeyGen(hs: Hashes, d: Bytes, z: Bytes) returns (k: DecapsKey)
    requires Mlkem.Sized(hs)
    ensures k == KeyGen(hs, d, z)
  {
    hide Matrix, Transforms, Sample3, EncodeVec, Accumulate;
    var seeds := hs.g(d + [3]);
    var rho, sigma := seeds[..32], seeds[32..];
    var a := ExpandMatrix(hs, rho);
    var s := SampleThree(hs, sigma, 0);
    s := TransformThree(s);
    var e := SampleThree(hs, sigma, 3);
    e := TransformThree(e);
    var t: seq<Poly> := [];
    for i := 0 to K
      invariant |t| == i && forall j | 0 <= j < i :: |t[j]| == N && t[j] == PublicEntry(a, s, e[j], j)
    {
      var f := DotProduct(e[i], [a[3 * i], a[3 * i + 1], a[3 * i + 2]], s);
      t := t + [f];
    }
    assert t == PublicVector(a, s, e);
    var ek := EncodeThree(t);
    k := DecapsKey(z, rho, hs.h(ek + rho), t, a, s);
  }

  method DecapsulateBytes(hs: Hashes, k: DecapsKey, c: Bytes) returns (r: Option<Bytes>)
    requires Mlkem.Sized(hs) && KeyOk(k)
    ensures r == Decapsulate(hs, k, c)
  {
    hide PkeDecrypt, PkeEncrypt;
    if |c| != 1088 {
      return None;
    }
    var m := DecryptBytes(k.s, c);
    var g := hs.g(m + k.h);
    var again := EncryptBytes(hs, k.t, k.a, m, g[32..]);
    if again == c {
      return Some(g[..32]);
    } else {
      return Some(hs.j(k.z, c));
    }
  }

  method EncodeSaved(r: seq<Poly>, e2: Poly, m: Bytes) returns (b: Bytes)
    requires IsVec(r, K) && |e2| == N && |m| == 32
    ensures b == EncodeState(r, e2, m)
  {
    hide PolyToRaw;
    var b0 := PolyToBytes(r[0]);
    var b1 := PolyToBytes(r[1]);
    var b2 := PolyToBytes(r[2]);
    var b3 := PolyToBytes(e2);
    b := b0 + b1 + b2 + b3 + m;
  }

  method PolyToBytes(f: Poly) returns (b: Bytes)
    requires |f| == N
    ensures b == PolyToRaw(f)
  {
    hide PolyToRaw, Word;
    b := [];
    for i := 0 to N
      invariant b == PolyToRaw(f)[..2 * i]
    {
      var w := Word(f[i]);
      b := b + [w % 256] + [w / 256];
    }
  }

  method Encapsulate1Internal(hs: Hashes, pk1: Bytes, m: Bytes) returns (p: Option<P.Phase1>)
    requires Mlkem.Sized(hs) && |m| == 32
    ensures p == Encapsulate1(hs, pk1, m)
  {
    hide Matrix, Transforms, Sample3, FirstPart, EncodeState, Cbd;
    if |pk1| != 64 {
      return None;
    }
    var g := hs.g(m + pk1[32..64]);
    var a := ExpandMatrix(hs, pk1[..32]);
    var r := SampleThree(hs, g[32..], 0);
    r := TransformThree(r);
    var e1 := SampleThree(hs, g[32..], 3);
    var e2 := SamplePolyCbd(hs, g[32..], 6);
    var ct1 := MakeFirstPart(a, r, e1);
    var es := EncodeSaved(r, e2, m);
    return Some(P.Phase1(ct1, es, g[..32]));
  }

  method EncapsulateSecond(state: Bytes, pk2: Bytes) returns (c: Option<Bytes>)
    ensures c == Encapsulate2(state, pk2)
  {
    hide FixEndianness, DecodeVec, SecondPart, DecodeState;
    if |pk2| != 1152 {
      return None;
    }
    var fixed := FixEncapsStateEndianness(state);
    if fixed.None? {
      return None;
    }
    var saved := DecodeState(fixed.value).value;
    var t := DecodeThree(pk2);
    if t.None? {
      return None;
    }
    var ct2 := MakeSecondPart(t.value, saved.r, saved.e2, saved.m);
    return Some(ct2);
  }
}
