/**
 POLYVAL, the universal hash of AES-GCM-SIV: GF(2^128) modulo
 x^128 + x^127 + x^126 + x^121 + 1, section 3 of RFC 8452. A field element is its 128
 coefficients, lowest first; its two machine words are the halves.
 */
module Polyval {
  import opened Words
  import opened Gf2
  import opened BitPacking

  type Half = w: Bits | |w| == 64 witness Gf2.Zeros(64)
  type Element = w: Bits | |w| == 128 witness Gf2.Zeros(128)

  function Sparse(bits: set<nat>): (w: Element)
    ensures forall i | 0 <= i < 128 :: w[i] == (i in bits)
  {
    seq(128, i => i in bits)
  }

  /** The modulus without its leading bit. */
  const TAIL: Element := Sparse({0, 121, 126, 127})

  /** x^-128. */
  const X_INV_128: Element := Sparse({0, 114, 121, 124, 127})

  const ZERO: Element := Zeros(128)
  const ONE: Element := Unit(0, 128)

  function Times(a: Element, b: Element): (c: Element) {
    Mul(a, b, TAIL)
  }

  /** The product POLYVAL accumulates with. */
  function Dot(a: Element, b: Element): (c: Element) {
    Times(Times(a, b), X_INV_128)
  }

  // ----- the carry-less product of two words -----

  /** The word shifted left within 64 bits, and the bits that fall out of the top. */
  function Shl64(x: Half, i: nat): (c: Half)
    requires i < 64
  {
    Zeros(i) + x[..64 - i]
  }

  function Shr64(x: Half, i: nat): (c: Half)
    requires i <= 64
  {
    x[i..] + Zeros(i)
  }

  method Clmul64(x: Half, y: Half) returns (hi: Half, lo: Half)
    ensures lo + hi == Clmul(x, y)
  {
    hide Xor, When, Clmul, Shl64, Shr64;
    hi, lo := Zeros(64), Zeros(64);
    assert y[..0] == [];
    assert lo + hi == Clmul(x, []) + Zeros(64) by { ClmulNothing(x); }
    for i := 0 to 64
      invariant lo + hi == Clmul(x, y[..i]) + Zeros(64 - i)
    {
      ClmulRound(x, y, i, lo, hi);
      lo := Xor(lo, When(y[i], Shl64(x, i)));
      if i == 0 {
        continue;
      }
      hi := Xor(hi, When(y[i], Shr64(x, 64 - i)));
    }
    assert y[..64] == y && Zeros(0) == [];
  }

  lemma ClmulNothing(x: Half)
    ensures Clmul(x, []) == Zeros(64) && Zeros(64) + Zeros(64) == Clmul(x, []) + Zeros(64)
  {
  }

  lemma ClmulRound(x: Half, y: Half, i: nat, lo: Half, hi: Half)
    requires i < 64 && lo + hi == Clmul(x, y[..i]) + Zeros(64 - i)
    ensures Xor(lo, When(y[i], Shl64(x, i))) + (if i == 0 then hi else Xor(hi, When(y[i], Shr64(x, 64 - i))))
         == Clmul(x, y[..i + 1]) + Zeros(63 - i)
  {
    hide Clmul;
    ClmulSnoc(x, y[..i], y[i]);
    assert y[..i + 1] == y[..i] + [y[i]];
    RoundShift(Clmul(x, y[..i]), x, y[i], i, lo, hi);
  }

  /** Adding the shifted word to the low and the high word is adding it to the double word. */
  lemma RoundShift(c: Bits, x: Half, bit: bool, i: nat, lo: Half, hi: Half)
    requires i < 64 && |c| == 64 + i && lo + hi == c + Zeros(64 - i)
    ensures Xor(lo, When(bit, Shl64(x, i))) + (if i == 0 then hi else Xor(hi, When(bit, Shr64(x, 64 - i))))
         == Xor(c + [false], When(bit, Zeros(i) + x + [false])) + Zeros(63 - i)
  {
    hide Xor, When, Shl64, Shr64;
    var w := Zeros(i) + x + [false];
    var s := w + Zeros(63 - i);
    ShiftedWord(x, i);
    XorWiden(c + [false], When(bit, w), 63 - i);
    assert c + [false] + Zeros(63 - i) == c + Zeros(64 - i);
    assert When(bit, w) + Zeros(63 - i) == When(bit, s) by { WhenWiden(bit, w, 63 - i); }
    XorHalves(lo, hi, When(bit, s));
    WhenHalves(bit, s);
    if i == 0 {
      XorNothing(hi, bit);
    }
  }

  lemma ShiftedWord(x: Half, i: nat)
    requires i < 64
    ensures var s := Zeros(i) + x + [false] + Zeros(63 - i);
      s[..64] == Shl64(x, i) && s[64..] == if i == 0 then Zeros(64) else Shr64(x, 64 - i)
  {
  }

  lemma XorWiden(a: Bits, b: Bits, n: nat)
    requires |a| == |b|
    ensures Xor(a, b) + Zeros(n) == Xor(a + Zeros(n), b + Zeros(n))
  {
  }

  lemma WhenWiden(bit: bool, a: Bits, n: nat)
    ensures When(bit, a) + Zeros(n) == When(bit, a + Zeros(n))
  {
  }

  lemma XorHalves(lo: Half, hi: Half, s: Bits)
    requires |s| == 128
    ensures Xor(lo + hi, s) == Xor(lo, s[..64]) + Xor(hi, s[64..])
  {
  }

  lemma WhenHalves(bit: bool, s: Bits)
    requires |s| == 128
    ensures When(bit, s)[..64] == When(bit, s[..64]) && When(bit, s)[64..] == When(bit, s[64..])
  {
  }

  lemma XorNothing(hi: Half, bit: bool)
    ensures Xor(hi, When(bit, Zeros(64))) == hi
  {
  }

  // ----- Karatsuba -----

  lemma {:induction false} ClmulXorLeft(a: Bits, c: Bits, b: Bits)
    requires |a| == |c|
    ensures Clmul(Xor(a, c), b) == Xor(Clmul(a, b), Clmul(c, b))
    decreases |b|
  {
    if b != [] {
      ClmulXorLeft(a, c, b[1..]);
    }
  }

  lemma {:induction false} ClmulXorRight(a: Bits, b: Bits, c: Bits)
    requires |b| == |c|
    ensures Clmul(a, Xor(b, c)) == Xor(Clmul(a, b), Clmul(a, c))
    decreases |b|
  {
    if b != [] {
      assert Xor(b, c)[1..] == Xor(b[1..], c[1..]);
      ClmulXorRight(a, b[1..], c[1..]);
    }
  }

  lemma RightRearranges(bit: bool, a: Bits, r: Bits, s: Bits, n: nat, k: nat)
    requires n > 0 && |r| == |a| + n - 1 && |s| == |a| + k
    ensures Xor(When(bit, a + Zeros(n + k)), [false] + Xor(r + Zeros(k), Zeros(n - 1) + s))
         == Xor(Xor(When(bit, a + Zeros(n)), [false] + r) + Zeros(k), Zeros(n) + s)
  {
  }

  lemma {:induction false} ClmulAppendRight(a: Bits, b: Bits, c: Bits)
    ensures Clmul(a, b + c) == Xor(Clmul(a, b) + Zeros(|c|), Zeros(|b|) + Clmul(a, c))
    decreases |b|
  {
    hide Clmul, Xor, When;
    if b == [] {
      assert b + c == c;
      EmptyFactor(a, Clmul(a, c));
    } else {
      assert (b + c)[1..] == b[1..] + c;
      ClmulAppendRight(a, b[1..], c);
      ClmulUnfold(a, b + c);
      ClmulUnfold(a, b);
      RightRearranges(b[0], a, Clmul(a, b[1..]), Clmul(a, c), |b|, |c|);
    }
  }

  lemma EmptyFactor(a: Bits, s: Bits)
    requires |s| >= |a|
    ensures Clmul(a, []) == Zeros(|a|) && Xor(Clmul(a, []) + Zeros(|s| - |a|), Zeros(0) + s) == s
  {
  }

  lemma LeftRearranges(bit: bool, a: Bits, c: Bits, r: Bits, s: Bits, n: nat, rest: Bits, ab: Bits, cb: Bits)
    requires n > 0 && |r| == |a| + n - 1 && |s| == |c| + n - 1
    requires rest == Xor(r + Zeros(|c|), Zeros(|a|) + s)
    requires ab == Xor(When(bit, a + Zeros(n)), [false] + r)
    requires cb == Xor(When(bit, c + Zeros(n)), [false] + s)
    ensures Xor(When(bit, a + c + Zeros(n)), [false] + rest) == Xor(ab + Zeros(|c|), Zeros(|a|) + cb)
  {
  }

  lemma {:induction false} ClmulAppendLeft(a: Bits, c: Bits, b: Bits)
    ensures Clmul(a + c, b) == Xor(Clmul(a, b) + Zeros(|c|), Zeros(|a|) + Clmul(c, b))
    decreases |b|
  {
    if b == [] {
      assert Clmul(a + c, b) == Zeros(|a| + |c|);
    } else {
      ClmulAppendLeft(a, c, b[1..]);
      hide *;
      LeftRearranges(b[0], a, c, Clmul(a, b[1..]), Clmul(c, b[1..]), |b|, Clmul(a + c, b[1..]),
                     UnfoldedClmul(a, b), UnfoldedClmul(c, b));
      UnfoldedIs(a, b);
      UnfoldedIs(c, b);
      UnfoldedIs(a + c, b);
    }
  }

  /** One step of the product, named. */
  function UnfoldedClmul(a: Bits, b: Bits): (r: Bits)
    requires b != []
    ensures r == Xor(When(b[0], a + Zeros(|b|)), [false] + Clmul(a, b[1..]))
  {
    Xor(When(b[0], a + Zeros(|b|)), [false] + Clmul(a, b[1..]))
  }

  lemma UnfoldedIs(a: Bits, b: Bits)
    requires b != []
    ensures Clmul(a, b) == UnfoldedClmul(a, b)
  {
  }

  /** The four words of a double-length product, from three word products. */
  method Clmul128(a: Element, b: Element) returns (z0: Half, z1: Half, z2: Half, z3: Half)
    ensures z0 + z1 + z2 + z3 == Clmul(a, b)
  {
    hide Clmul, Xor;
    var alo: Half, ahi: Half, blo: Half, bhi: Half := a[..64], a[64..], b[..64], b[64..];
    var h0, l0 := Clmul64(alo, blo);
    var h1, l1 := Clmul64(ahi, bhi);
    var hm, lm := Clmul64(Xor(alo, ahi), Xor(blo, bhi));
    var midLo: Half := Xor(Xor(lm, l0), l1);
    var midHi: Half := Xor(Xor(hm, h0), h1);
    z0 := l0;
    z1 := Xor(h0, midLo);
    z2 := Xor(l1, midHi);
    z3 := h1;
    Karatsuba(alo, ahi, blo, bhi);
    assert alo + ahi == a && blo + bhi == b;
    Assemble(l0, h0, l1, h1, lm, hm);
  }

  /** (lo + x^64 hi)(lo' + x^64 hi') with the middle term from the product of the sums. */
  lemma Karatsuba(alo: Half, ahi: Half, blo: Half, bhi: Half)
    ensures var low, high := Clmul(alo, blo), Clmul(ahi, bhi);
      var mid := Xor(Xor(Clmul(Xor(alo, ahi), Xor(blo, bhi)), low), high);
      Clmul(alo + ahi, blo + bhi) == Xor(low + high, Zeros(64) + mid + Zeros(64))
  {
    hide Clmul, Xor, Zeros;
    var ll, lh, hl, hh := Clmul(alo, blo), Clmul(alo, bhi), Clmul(ahi, blo), Clmul(ahi, bhi);
    ClmulAppendLeft(alo, ahi, blo + bhi);
    ClmulAppendRight(alo, blo, bhi);
    ClmulAppendRight(ahi, blo, bhi);
    ClmulXorLeft(alo, ahi, Xor(blo, bhi));
    ClmulXorRight(alo, blo, bhi);
    ClmulXorRight(ahi, blo, bhi);
    MiddleTerm(ll, lh, hl, hh);
    CrossTerms(ll, lh, hl, hh);
  }

  lemma MiddleTerm(ll: Bits, lh: Bits, hl: Bits, hh: Bits)
    requires |ll| == |lh| == |hl| == |hh|
    ensures Xor(Xor(Xor(Xor(ll, lh), Xor(hl, hh)), ll), hh) == Xor(lh, hl)
  {
  }

  lemma CrossTerms(ll: Bits, lh: Bits, hl: Bits, hh: Bits)
    requires |ll| == 128 == |lh| && |hl| == 128 == |hh|
    ensures Xor(Xor(ll + Zeros(64), Zeros(64) + lh) + Zeros(64), Zeros(64) + Xor(hl + Zeros(64), Zeros(64) + hh))
         == Xor(ll + hh, Zeros(64) + Xor(lh, hl) + Zeros(64))
  {
  }

  lemma XorConcat(a: Bits, b: Bits, c: Bits, d: Bits)
    requires |a| == |c| && |b| == |d|
    ensures Xor(a + b, c + d) == Xor(a, c) + Xor(b, d)
  {
  }

  lemma XorZeros(a: Bits)
    ensures Xor(a, Zeros(|a|)) == a
  {
  }

  lemma Assemble(l0: Half, h0: Half, l1: Half, h1: Half, lm: Half, hm: Half)
    ensures var mid := Xor(Xor(lm + hm, l0 + h0), l1 + h1);
      l0 + Xor(h0, Xor(Xor(lm, l0), l1)) + Xor(l1, Xor(Xor(hm, h0), h1)) + h1
      == Xor((l0 + h0) + (l1 + h1), Zeros(64) + mid + Zeros(64))
  {
    hide Xor, Zeros;
    var midLo, midHi := Xor(Xor(lm, l0), l1), Xor(Xor(hm, h0), h1);
    XorConcat(lm, hm, l0, h0);
    XorConcat(Xor(lm, l0), Xor(hm, h0), l1, h1);
    assert Zeros(64) + (midLo + midHi) + Zeros(64) == (Zeros(64) + midLo) + (midHi + Zeros(64));
    XorConcat(l0 + h0, l1 + h1, Zeros(64) + midLo, midHi + Zeros(64));
    XorConcat(l0, h0, Zeros(64), midLo);
    XorConcat(l1, h1, midHi, Zeros(64));
    XorZeros(l0);
    XorZeros(h1);
  }

  // ----- reduction -----

  /** The modulus times x^base, in 256 bits. */
  function Modulus(base: nat): (m: Bits)
    requires base < 128
    ensures |m| == 256
  {
    (Zeros(base) + (TAIL + [true])) + Zeros(127 - base)
  }

  lemma ModulusBits(base: nat, i: nat)
    requires base < 128 && i < 256
    ensures Modulus(base)[i] == (i == base || i == base + 121 || i == base + 126 || i == base + 127 || i == base + 128)
  {
  }

  lemma FoldKeepsResidue(z: Bits, bit: bool, base: nat)
    requires |z| == 256 && base < 128
    ensures Residue(Xor(z, When(bit, Modulus(base))), TAIL) == Residue(z, TAIL)
  {
    hide Mul, Xor;
    ZeroResidue(base, 127 - base, TAIL);
    WhenResidue(bit, Modulus(base), TAIL);
    AddZeroResidue(z, When(bit, Modulus(base)), TAIL);
  }

  /** Folds each bit from 255 down to 128 into the four places the modulus gives it. */
  method Reduce(z0: Half, z1: Half, z2: Half, z3: Half) returns (lo: Half, hi: Half)
    ensures lo + hi == Residue(z0 + z1 + z2 + z3, TAIL)
  {
    hide Residue, Xor, When, Modulus;
    ghost var whole := z0 + z1 + z2 + z3;
    var start := z0 + z1 + z2 + z3;
    var z := new bool[256](i requires 0 <= i < 256 => start[i]);
    assert z[..] == whole;
    var k := 255;
    while k >= 128
      invariant 127 <= k <= 255
      invariant Residue(z[..], TAIL) == Residue(whole, TAIL)
      invariant forall i | k < i < 256 :: !z[i]
    {
      ghost var w := z[..];
      var bit := z[k];
      z[k] := false;
      var base := k - 128;
      z[base + 127] := z[base + 127] != bit;
      z[base + 126] := z[base + 126] != bit;
      z[base + 121] := z[base + 121] != bit;
      z[base] := z[base] != bit;
      FoldKeepsResidue(w, bit, base);
      forall i | 0 <= i < 256 ensures z[i] == Xor(w, When(bit, Modulus(base)))[i] {
        ModulusBits(base, i);
      }
      assert z[..] == Xor(w, When(bit, Modulus(base)));
      k := k - 1;
    }
    lo, hi := z[..64], z[64..128];
    ShortResidue(z[..]);
    assert lo + hi == z[..][..128];
  }

  lemma ShortResidue(z: Bits)
    requires |z| == 256 && forall i | 128 <= i < 256 :: !z[i]
    ensures Residue(z, TAIL) == z[..128]
  {
    hide Mul;
    assert z == z[..128] + Zeros(128);
    MulHighZeros(ONE, z[..128], 128, TAIL);
    OneMul(z[..128], TAIL);
  }

  method FieldMul(a: Element, b: Element) returns (c: Element)
    ensures c == Times(a, b)
  {
    hide Mul, Clmul;
    var z0, z1, z2, z3 := Clmul128(a, b);
    var lo, hi := Reduce(z0, z1, z2, z3);
    ResidueClmul(a, b, TAIL);
    OneMul(a, TAIL);
    c := Joined(lo, hi);
  }

  function Joined(lo: Bits, hi: Bits): (w: Bits) {
    lo + hi
  }

  method FieldDot(a: Element, b: Element) returns (c: Element)
    ensures c == Dot(a, b)
  {
    c := FieldMul(a, b);
    c := FieldMul(c, X_INV_128);
  }

  // ----- x^-128 -----

  /** x^k modulo the modulus. */
  function Mono(k: nat): (m: Element) {
    if k == 0 then ONE else XTimes(Mono(k - 1), TAIL)
  }

  lemma {:induction false} MonoIsUnit(k: nat)
    requires k < 128
    ensures Mono(k) == Unit(k, 128)
  {
    hide XTimes;
    if k > 0 {
      MonoIsUnit(k - 1);
      XTimesUnit(k - 1, TAIL);
    }
  }

  lemma MonoStep(k: nat)
    ensures Mono(k + 1) == XTimes(Mono(k), TAIL)
  {
  }

  lemma {:induction false} MonoTimes(i: nat, j: nat)
    ensures Times(Mono(i), Mono(j)) == Mono(i + j)
    decreases i
  {
    hide XTimes, Mul;
    if i == 0 {
      OneMul(Mono(j), TAIL);
    } else {
      MonoTimes(i - 1, j);
      MulXTimes(Mono(i - 1), Mono(j), TAIL);
    }
  }

  /** x^7 + x^6 + x^5 + 1, the inverse of x^121. */
  const U: Element := Sparse({0, 5, 6, 7})

  /** a U is a + x^5 a + x^6 a + x^7 a. */
  lemma TimesU(a: Element)
    ensures Times(a, U) == Xor(Xor(a, XPow(a, 5)), Xor(XPow(a, 6), XPow(a, 7)))
  {
    hide Mul, XTimes, Xor;
    MulCommutes(a, U, TAIL);
    assert U == Xor(Xor(Unit(0, 128), Unit(5, 128)), Xor(Unit(6, 128), Unit(7, 128))) by { USum(); }
    MulLinearLeft(Xor(Unit(0, 128), Unit(5, 128)), Xor(Unit(6, 128), Unit(7, 128)), a, TAIL);
    MulLinearLeft(Unit(0, 128), Unit(5, 128), a, TAIL);
    MulLinearLeft(Unit(6, 128), Unit(7, 128), a, TAIL);
    OneMul(a, TAIL);
    UnitTimes(5, a);
    UnitTimes(6, a);
    UnitTimes(7, a);
  }

  lemma USum()
    ensures U == Xor(Xor(Unit(0, 128), Unit(5, 128)), Xor(Unit(6, 128), Unit(7, 128)))
  {
  }

  function XPow(a: Element, k: nat): (c: Element)
    decreases k, |a|
  {
    if k == 0 then a else XTimes(XPow(a, k - 1), TAIL)
  }

  lemma {:induction false} UnitTimes(k: nat, a: Element)
    requires k < 128
    ensures Mul(Unit(k, 128), a, TAIL) == XPow(a, k)
    decreases k
  {
    hide Mul, XTimes;
    if k == 0 {
      OneMul(a, TAIL);
    } else {
      UnitTimes(k - 1, a);
      XTimesUnit(k - 1, TAIL);
      MulXTimes(Unit(k - 1, 128), a, TAIL);
    }
  }

  lemma {:induction false} XPowOfUnit(i: nat, k: nat)
    requires i + k < 128
    ensures XPow(Unit(i, 128), k) == Unit(i + k, 128)
    decreases k
  {
    hide XTimes;
    if k > 0 {
      XPowOfUnit(i, k - 1);
      XTimesUnit(i + k - 1, TAIL);
    }
  }

  /** U is the inverse of x^121. */
  lemma UInverts()
    ensures Times(Mono(121), U) == ONE
  {
    hide Mul, XTimes, Mono, XPow;
    MonoIsUnit(121);
    TimesU(Unit(121, 128));
    XPowOfUnit(121, 5);
    XPowOfUnit(121, 6);
    XPowStep(Unit(121, 128), 6);
    XTimesUnit(127, TAIL);
    assert Xor(Xor(Unit(121, 128), Unit(126, 128)), Xor(Unit(127, 128), TAIL)) == ONE;
  }

  lemma XPowStep(a: Element, k: nat)
    ensures XPow(a, k + 1) == XTimes(XPow(a, k), TAIL)
  {
  }

  lemma MonoTimesU(j: nat)
    requires j <= 120
    ensures Times(Mono(j), U) == Sparse({j, j + 5, j + 6, j + 7})
  {
    hide Mul, XTimes, Mono, XPow;
    MonoIsUnit(j);
    TimesU(Unit(j, 128));
    XPowOfUnit(j, 5);
    XPowOfUnit(j, 6);
    XPowOfUnit(j, 7);
    assert Xor(Xor(Unit(j, 128), Unit(j + 5, 128)), Xor(Unit(j + 6, 128), Unit(j + 7, 128)))
      == Sparse({j, j + 5, j + 6, j + 7});
  }

  lemma {:induction false} XPowOfMono(j: nat, k: nat)
    ensures XPow(Times(Mono(j), U), k) == Times(Mono(j + k), U)
    decreases k
  {
    hide Mul, XTimes, U;
    if k > 0 {
      XPowOfMono(j, k - 1);
      MulXTimes(Mono(j + k - 1), U, TAIL);
      MonoStep(j + k - 1);
    }
  }

  /** x^-128 is x^114 U^2. */
  lemma XInvIs()
    ensures X_INV_128 == Times(Times(Mono(114), U), U)
  {
    hide Mul, XTimes, Mono, XPow, Xor, Sparse, Unit;
    TimesU(Times(Mono(114), U));
    XPowOfMono(114, 5);
    XPowOfMono(114, 6);
    XPowOfMono(114, 7);
    MonoTimesU(114);
    MonoTimesU(119);
    MonoTimesU(120);
    UInverts();
    FourParts();
  }

  lemma FourParts()
    ensures Xor(Xor(Sparse({114, 119, 120, 121}), Sparse({119, 124, 125, 126})),
      Xor(Sparse({120, 125, 126, 127}), ONE)) == X_INV_128
  {
    hide Sparse;
    var s := Xor(Xor(Sparse({114, 119, 120, 121}), Sparse({119, 124, 125, 126})),
      Xor(Sparse({120, 125, 126, 127}), ONE));
    forall i | 0 <= i < 128 ensures s[i] == X_INV_128[i] {
      assert X_INV_128 == Sparse({0, 114, 121, 124, 127});
    }
  }

  lemma TimesComm(a: Element, b: Element)
    ensures Times(a, b) == Times(b, a)
  {
    MulCommutes(a, b, TAIL);
  }

  lemma TimesAssoc(a: Element, b: Element, c: Element)
    ensures Times(Times(a, b), c) == Times(a, Times(b, c))
  {
    MulAssociates(a, b, c, TAIL);
  }

  /** (a b)(c d) == (a c)(b d) */
  lemma TimesSwap(a: Element, b: Element, c: Element, d: Element)
    ensures Times(Times(a, b), Times(c, d)) == Times(Times(a, c), Times(b, d))
  {
    hide Times;
    TimesAssoc(a, b, Times(c, d));
    TimesAssoc(b, c, d);
    TimesComm(b, c);
    TimesAssoc(c, b, d);
    TimesAssoc(a, c, Times(b, d));
  }

  /** The constant is the inverse of x^128. */
  lemma XInvInverts()
    ensures Times(X_INV_128, Mono(128)) == ONE
  {
    hide Times, Mono, U;
    XInvIs();
    var m, u := Mono(114), U;
    TimesAssoc(m, u, u);
    TimesComm(Times(m, Times(u, u)), Mono(128));
    TimesAssoc(Mono(128), m, Times(u, u));
    MonoTimes(128, 114);
    MonoTimes(121, 121);
    TimesSwap(Mono(121), Mono(121), u, u);
    UInverts();
    TimesOne(ONE);
  }

  lemma TimesOne(a: Element)
    ensures Times(a, ONE) == a && Times(ONE, a) == a
  {
    OneMul(a, TAIL);
  }

  /** The dot product is the field product divided by x^128. */
  lemma DotTimesX128(a: Element, b: Element)
    ensures Times(Dot(a, b), Mono(128)) == Times(a, b)
  {
    hide Times, Mono;
    TimesAssoc(Times(a, b), X_INV_128, Mono(128));
    XInvInverts();
    TimesOne(Times(a, b));
  }

  lemma DotAssoc(a: Element, b: Element, c: Element)
    ensures Dot(Dot(a, b), c) == Dot(a, Dot(b, c))
  {
    hide Times;
    var i := X_INV_128;
    TimesAssoc(Times(a, b), i, c);
    TimesComm(i, c);
    TimesAssoc(Times(a, b), c, i);
    TimesAssoc(a, b, c);
    TimesAssoc(a, Times(b, c), i);
  }

  lemma DotXor(a: Element, b: Element, c: Element)
    ensures Dot(Xor(a, b), c) == Xor(Dot(a, c), Dot(b, c))
  {
    hide Mul, Xor;
    MulLinearLeft(a, b, c, TAIL);
    MulLinearLeft(Times(a, c), Times(b, c), X_INV_128, TAIL);
  }

  // ----- the hash -----

  /** A 16-byte block as a field element: bit 0 of byte 0 is the constant coefficient. */
  function Load(b: Bytes): (e: Element)
    requires |b| == 16
  {
    BitsLength(b, 8);
    BitsOf(b, 8)
  }

  function Store(e: Element): (b: Bytes) {
    Powers();
    NumbersOf(e, 8)
  }

  lemma LoadStore(b: Bytes, e: Element)
    ensures |b| == 16 ==> Store(Load(b)) == b
    ensures |Store(e)| == 16 && Load(Store(e)) == e
  {
    Powers();
    NumbersOfBits(b, 8);
    BitsOfNumbers(e, 8, 16);
  }

  /** H multiplied by itself n times more under the dot product: H^(n + 1). */
  function DotPower(h: Element, n: nat): (p: Element) {
    if n == 0 then h else Dot(DotPower(h, n - 1), h)
  }

  /** The sum of X_i H^(s - i + 1), section 3 of RFC 8452; the last block meets H once. */
  function PolyvalSum(h: Element, xs: seq<Element>): (e: Element) {
    if xs == [] then ZERO
    else Xor(Dot(xs[0], DotPower(h, |xs| - 1)), PolyvalSum(h, xs[1..]))
  }

  /** The running form: acc becomes (acc + X) H for each block. */
  function Horner(h: Element, acc: Element, xs: seq<Element>): (e: Element)
    decreases |xs|
  {
    if xs == [] then acc else Horner(h, Dot(Xor(acc, xs[0]), h), xs[1..])
  }

  lemma {:induction false} DotPowerFront(h: Element, n: nat)
    ensures DotPower(h, n + 1) == Dot(h, DotPower(h, n))
  {
    hide Dot;
    if n == 0 {
      assert DotPower(h, 1) == Dot(DotPower(h, 0), h);
    } else {
      DotPowerFront(h, n - 1);
      DotAssoc(h, DotPower(h, n - 1), h);
    }
  }

  /** The running form spreads out into the sum, with the accumulator on top. */
  lemma {:induction false} HornerIsSum(h: Element, acc: Element, xs: seq<Element>)
    ensures Horner(h, acc, xs)
         == if xs == [] then acc else Xor(Dot(acc, DotPower(h, |xs| - 1)), PolyvalSum(h, xs))
    decreases |xs|
  {
    hide Dot, Xor;
    if xs != [] {
      var n, x, rest := |xs| - 1, xs[0], xs[1..];
      HornerIsSum(h, Dot(Xor(acc, x), h), rest);
      DotXor(acc, x, DotPower(h, n));
      if rest == [] {
        XorZeros(Dot(x, h));
        DotXor(acc, x, h);
      } else {
        DotAssoc(Xor(acc, x), h, DotPower(h, n - 1));
        DotPowerFront(h, n - 1);
        XorAssoc(Dot(acc, DotPower(h, n)), Dot(x, DotPower(h, n)), PolyvalSum(h, rest));
      }
    }
  }

  lemma XorAssoc(a: Bits, b: Bits, c: Bits)
    requires |a| == |b| == |c|
    ensures Xor(Xor(a, b), c) == Xor(a, Xor(b, c))
  {
  }

  /** The whole blocks of a byte string; a remainder is not hashed. */
  function Blocks(b: Bytes): (xs: seq<Element>) {
    if |b| < 16 then [] else [Load(b[..16])] + Blocks(b[16..])
  }

  method PolyvalHash(h: Element, blocks: Bytes) returns (acc: Element)
    ensures acc == PolyvalSum(h, Blocks(blocks))
  {
    hide Dot, Xor, Load, PolyvalSum;
    acc := ZERO;
    var i := 0;
    assert blocks[0..] == blocks;
    while i + 16 <= |blocks|
      invariant 0 <= i <= |blocks|
      invariant Horner(h, acc, Blocks(blocks[i..])) == Horner(h, ZERO, Blocks(blocks))
    {
      assert blocks[i..][..16] == blocks[i..i + 16] && blocks[i..][16..] == blocks[i + 16..];
      var x := Load(blocks[i..i + 16]);
      assert Blocks(blocks[i..])[1..] == Blocks(blocks[i + 16..]);
      acc := FieldDot(Xor(acc, x), h);
      i := i + 16;
    }
    HornerIsSum(h, ZERO, Blocks(blocks));
    FromZero(h, Blocks(blocks));
  }

  lemma FromZero(h: Element, xs: seq<Element>)
    ensures Horner(h, ZERO, xs) == PolyvalSum(h, xs)
  {
    hide Dot, Xor, DotPower;
    HornerIsSum(h, ZERO, xs);
    if xs != [] {
      ZeroDot(DotPower(h, |xs| - 1));
      XorZeros(PolyvalSum(h, xs));
      XorComm(ZERO, PolyvalSum(h, xs));
    }
  }

  lemma ZeroDot(a: Element)
    ensures Dot(ZERO, a) == ZERO
  {
    ZerosMul(128, a, TAIL);
    ZerosMul(128, X_INV_128, TAIL);
  }

  lemma XorComm(a: Bits, b: Bits)
    requires |a| == |b|
    ensures Xor(a, b) == Xor(b, a)
  {
  }
}
