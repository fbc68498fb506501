/** The constants of the number-theoretic transform and how they are related. */
module NttTables {
  import opened Zq

  /** The powers of 17 in bit-reversed order, Appendix A of FIPS 203. */
  function Zeta(k: nat): (z: Fe)
    requires k < 128
  {
    if k < 64 then
      if k < 32 then
        if k < 16 then
          if k < 8 then
            if k == 0 then 1 else if k == 1 then 1729 else if k == 2 then 2580 else if k == 3 then 3289 else if k
            == 4 then 2642 else if k == 5 then 630 else if k == 6 then 1897 else 848
          else
            if k == 8 then 1062 else if k == 9 then 1919 else if k == 10 then 193 else if k == 11 then 797 else if k
            == 12 then 2786 else if k == 13 then 3260 else if k == 14 then 569 else 1746
        else
          if k < 24 then
            if k == 16 then 296 else if k == 17 then 2447 else if k == 18 then 1339 else if k == 19 then 1476
            else if k == 20 then 3046 else if k == 21 then 56 else if k == 22 then 2240 else 1333
          else
            if k == 24 then 1426 else if k == 25 then 2094 else if k == 26 then 535 else if k == 27 then 2882
            else if k == 28 then 2393 else if k == 29 then 2879 else if k == 30 then 1974 else 821
      else
        if k < 48 then
          if k < 40 then
            if k == 32 then 289 else if k == 33 then 331 else if k == 34 then 3253 else if k == 35 then 1756
            else if k == 36 then 1197 else if k == 37 then 2304 else if k == 38 then 2277 else 2055
          else
            if k == 40 then 650 else if k == 41 then 1977 else if k == 42 then 2513 else if k == 43 then 632
            else if k == 44 then 2865 else if k == 45 then 33 else if k == 46 then 1320 else 1915
        else
          if k < 56 then
            if k == 48 then 2319 else if k == 49 then 1435 else if k == 50 then 807 else if k == 51 then 452
            else if k == 52 then 1438 else if k == 53 then 2868 else if k == 54 then 1534 else 2402
          else
            if k == 56 then 2647 else if k == 57 then 2617 else if k == 58 then 1481 else if k == 59 then 648
            else if k == 60 then 2474 else if k == 61 then 3110 else if k == 62 then 1227 else 910
    else
      if k < 96 then
        if k < 80 then
          if k < 72 then
            if k == 64 then 17 else if k == 65 then 2761 else if k == 66 then 583 else if k == 67 then 2649
            else if k == 68 then 1637 else if k == 69 then 723 else if k == 70 then 2288 else 1100
          else
            if k == 72 then 1409 else if k == 73 then 2662 else if k == 74 then 3281 else if k == 75 then 233
            else if k == 76 then 756 else if k == 77 then 2156 else if k == 78 then 3015 else 3050
        else
          if k < 88 then
            if k == 80 then 1703 else if k == 81 then 1651 else if k == 82 then 2789 else if k == 83 then 1789
            else if k == 84 then 1847 else if k == 85 then 952 else if k == 86 then 1461 else 2687
          else
            if k == 88 then 939 else if k == 89 then 2308 else if k == 90 then 2437 else if k == 91 then 2388
            else if k == 92 then 733 else if k == 93 then 2337 else if k == 94 then 268 else 641
      else
        if k < 112 then
          if k < 104 then
            if k == 96 then 1584 else if k == 97 then 2298 else if k == 98 then 2037 else if k == 99 then 3220
            else if k == 100 then 375 else if k == 101 then 2549 else if k == 102 then 2090 else 1645
          else
            if k == 104 then 1063 else if k == 105 then 319 else if k == 106 then 2773 else if k == 107 then 757
            else if k == 108 then 2099 else if k == 109 then 561 else if k == 110 then 2466 else 2594
        else
          if k < 120 then
            if k == 112 then 2804 else if k == 113 then 1092 else if k == 114 then 403 else if k == 115 then 1026
            else if k == 116 then 1143 else if k == 117 then 2150 else if k == 118 then 2775 else 886
          else
            if k == 120 then 1722 else if k == 121 then 1212 else if k == 122 then 1874 else if k == 123 then 1029
            else if k == 124 then 2110 else if k == 125 then 2935 else if k == 126 then 885 else 2154
  }

  /** The constants of the 128 quadratic factors, Appendix A of FIPS 203. */
  function Gamma(k: nat): (g: Fe)
    requires k < 128
  {
    if k < 64 then
      if k < 32 then
        if k < 16 then
          if k < 8 then
            if k == 0 then 17 else if k == 1 then 3312 else if k == 2 then 2761 else if k == 3 then 568 else if k
            == 4 then 583 else if k == 5 then 2746 else if k == 6 then 2649 else 680
          else
            if k == 8 then 1637 else if k == 9 then 1692 else if k == 10 then 723 else if k == 11 then 2606
            else if k == 12 then 2288 else if k == 13 then 1041 else if k == 14 then 1100 else 2229
        else
          if k < 24 then
            if k == 16 then 1409 else if k == 17 then 1920 else if k == 18 then 2662 else if k == 19 then 667
            else if k == 20 then 3281 else if k == 21 then 48 else if k == 22 then 233 else 3096
          else
            if k == 24 then 756 else if k == 25 then 2573 else if k == 26 then 2156 else if k == 27 then 1173
            else if k == 28 then 3015 else if k == 29 then 314 else if k == 30 then 3050 else 279
      else
        if k < 48 then
          if k < 40 then
            if k == 32 then 1703 else if k == 33 then 1626 else if k == 34 then 1651 else if k == 35 then 1678
            else if k == 36 then 2789 else if k == 37 then 540 else if k == 38 then 1789 else 1540
          else
            if k == 40 then 1847 else if k == 41 then 1482 else if k == 42 then 952 else if k == 43 then 2377
            else if k == 44 then 1461 else if k == 45 then 1868 else if k == 46 then 2687 else 642
        else
          if k < 56 then
            if k == 48 then 939 else if k == 49 then 2390 else if k == 50 then 2308 else if k == 51 then 1021
            else if k == 52 then 2437 else if k == 53 then 892 else if k == 54 then 2388 else 941
          else
            if k == 56 then 733 else if k == 57 then 2596 else if k == 58 then 2337 else if k == 59 then 992
            else if k == 60 then 268 else if k == 61 then 3061 else if k == 62 then 641 else 2688
    else
      if k < 96 then
        if k < 80 then
          if k < 72 then
            if k == 64 then 1584 else if k == 65 then 1745 else if k == 66 then 2298 else if k == 67 then 1031
            else if k == 68 then 2037 else if k == 69 then 1292 else if k == 70 then 3220 else 109
          else
            if k == 72 then 375 else if k == 73 then 2954 else if k == 74 then 2549 else if k == 75 then 780
            else if k == 76 then 2090 else if k == 77 then 1239 else if k == 78 then 1645 else 1684
        else
          if k < 88 then
            if k == 80 then 1063 else if k == 81 then 2266 else if k == 82 then 319 else if k == 83 then 3010
            else if k == 84 then 2773 else if k == 85 then 556 else if k == 86 then 757 else 2572
          else
            if k == 88 then 2099 else if k == 89 then 1230 else if k == 90 then 561 else if k == 91 then 2768
            else if k == 92 then 2466 else if k == 93 then 863 else if k == 94 then 2594 else 735
      else
        if k < 112 then
          if k < 104 then
            if k == 96 then 2804 else if k == 97 then 525 else if k == 98 then 1092 else if k == 99 then 2237
            else if k == 100 then 403 else if k == 101 then 2926 else if k == 102 then 1026 else 2303
          else
            if k == 104 then 1143 else if k == 105 then 2186 else if k == 106 then 2150 else if k == 107 then 1179
            else if k == 108 then 2775 else if k == 109 then 554 else if k == 110 then 886 else 2443
        else
          if k < 120 then
            if k == 112 then 1722 else if k == 113 then 1607 else if k == 114 then 1212 else if k == 115 then 2117
            else if k == 116 then 1874 else if k == 117 then 1455 else if k == 118 then 1029 else 2300
          else
            if k == 120 then 2110 else if k == 121 then 1219 else if k == 122 then 2935 else if k == 123 then 394
            else if k == 124 then 885 else if k == 125 then 2444 else if k == 126 then 2154 else 1175
  }

  /** Node k of the transform's tree works modulo x^n - Root(k). */
  function Root(k: nat): (m: Fe)
    requires 1 <= k < 256
  {
    if k == 1 then Q - 1 else if k % 2 == 0 then Zeta(k / 2) else Neg(Zeta(k / 2))
  }

  lemma EvenSquaresFrom1(k: nat)
    requires 1 <= k < 16
    ensures Times(Zeta(2 * k), Zeta(2 * k)) == Zeta(k)
  {
  }

  lemma EvenSquaresFrom16(k: nat)
    requires 16 <= k < 32
    ensures Times(Zeta(2 * k), Zeta(2 * k)) == Zeta(k)
  {
  }

  lemma EvenSquaresFrom32(k: nat)
    requires 32 <= k < 48
    ensures Times(Zeta(2 * k), Zeta(2 * k)) == Zeta(k)
  {
  }

  lemma EvenSquaresFrom48(k: nat)
    requires 48 <= k < 64
    ensures Times(Zeta(2 * k), Zeta(2 * k)) == Zeta(k)
  {
  }

  lemma EvenSquares(k: nat)
    requires 1 <= k < 64
    ensures Times(Zeta(2 * k), Zeta(2 * k)) == Zeta(k)
  {
    hide Zeta, Gamma, Times;
    if k < 16 {
      EvenSquaresFrom1(k);
    } else if k < 32 {
      EvenSquaresFrom16(k);
    } else if k < 48 {
      EvenSquaresFrom32(k);
    } else {
      EvenSquaresFrom48(k);
    }
  }

  lemma OddEntriesFrom1(k: nat)
    requires 1 <= k < 16
    ensures Zeta(2 * k + 1) == Times(1729, Zeta(2 * k))
  {
  }

  lemma OddEntriesFrom16(k: nat)
    requires 16 <= k < 32
    ensures Zeta(2 * k + 1) == Times(1729, Zeta(2 * k))
  {
  }

  lemma OddEntriesFrom32(k: nat)
    requires 32 <= k < 48
    ensures Zeta(2 * k + 1) == Times(1729, Zeta(2 * k))
  {
  }

  lemma OddEntriesFrom48(k: nat)
    requires 48 <= k < 64
    ensures Zeta(2 * k + 1) == Times(1729, Zeta(2 * k))
  {
  }

  /** Odd entries are the even ones times 1729, a square root of -1. */
  lemma OddEntries(k: nat)
    requires 1 <= k < 64
    ensures Zeta(2 * k + 1) == Times(1729, Zeta(2 * k))
  {
    hide Zeta, Gamma, Times;
    if k < 16 {
      OddEntriesFrom1(k);
    } else if k < 32 {
      OddEntriesFrom16(k);
    } else if k < 48 {
      OddEntriesFrom32(k);
    } else {
      OddEntriesFrom48(k);
    }
  }

  /** Each zeta is a square root of the constant of the node it splits. */
  lemma ZetaSquared(k: nat)
    requires 1 <= k < 128
    ensures Times(Zeta(k), Zeta(k)) == Root(k)
  {
    hide Zeta, Times, Neg;
    if k == 1 {
      assert Zeta(1) == 1729 by { FirstZeta(); }
      RootOfMinusOne();
    } else {
      var i := k / 2;
      EvenSquares(i);
      OddEntries(i);
      SquareOfProduct(Zeta(2 * i));
      assert k == 2 * i || k == 2 * i + 1;
    }
  }

  lemma FirstZeta()
    ensures Zeta(1) == 1729
  {
  }

  lemma SquareOfProduct(z: Fe)
    ensures Times(Times(1729, z), Times(1729, z)) == Neg(Times(z, z))
  {
    hide Times;
    TimesAssoc(Times(1729, z), 1729, z);
    TimesComm(Times(1729, z), 1729);
    TimesAssoc(1729, 1729, z);
    assert Times(1729, 1729) == 3328 by { RootOfMinusOne(); }
    TimesAssoc(3328, z, z);
    NegOne();
    TimesNeg(1, Times(z, z));
    TimesComm(Times(z, z), 1);
    TimesComm(1, Times(z, z));
  }

  lemma RootOfMinusOne()
    ensures Times(1729, 1729) == Q - 1
  {
  }

  lemma GammaEvenFrom0(k: nat)
    requires 0 <= k < 16
    ensures Gamma(2 * k) == Zeta(64 + k)
  {
  }

  lemma GammaEvenFrom16(k: nat)
    requires 16 <= k < 32
    ensures Gamma(2 * k) == Zeta(64 + k)
  {
  }

  lemma GammaEvenFrom32(k: nat)
    requires 32 <= k < 48
    ensures Gamma(2 * k) == Zeta(64 + k)
  {
  }

  lemma GammaEvenFrom48(k: nat)
    requires 48 <= k < 64
    ensures Gamma(2 * k) == Zeta(64 + k)
  {
  }

  lemma GammaEven(k: nat)
    requires 0 <= k < 64
    ensures Gamma(2 * k) == Zeta(64 + k)
  {
    hide Zeta, Gamma, Times;
    if k < 16 {
      GammaEvenFrom0(k);
    } else if k < 32 {
      GammaEvenFrom16(k);
    } else if k < 48 {
      GammaEvenFrom32(k);
    } else {
      GammaEvenFrom48(k);
    }
  }

  lemma GammaOddFrom0(k: nat)
    requires 0 <= k < 16
    ensures Gamma(2 * k) + Gamma(2 * k + 1) == Q
  {
  }

  lemma GammaOddFrom16(k: nat)
    requires 16 <= k < 32
    ensures Gamma(2 * k) + Gamma(2 * k + 1) == Q
  {
  }

  lemma GammaOddFrom32(k: nat)
    requires 32 <= k < 48
    ensures Gamma(2 * k) + Gamma(2 * k + 1) == Q
  {
  }

  lemma GammaOddFrom48(k: nat)
    requires 48 <= k < 64
    ensures Gamma(2 * k) + Gamma(2 * k + 1) == Q
  {
  }

  lemma GammaOdd(k: nat)
    requires 0 <= k < 64
    ensures Gamma(2 * k) + Gamma(2 * k + 1) == Q
  {
    hide Zeta, Gamma, Times;
    if k < 16 {
      GammaOddFrom0(k);
    } else if k < 32 {
      GammaOddFrom16(k);
    } else if k < 48 {
      GammaOddFrom32(k);
    } else {
      GammaOddFrom48(k);
    }
  }

  lemma GammaIsRoot(j: nat)
    requires j < 128
    ensures Gamma(j) == Root(128 + j)
  {
    hide Zeta, Gamma;
    GammaEven(j / 2);
    GammaOdd(j / 2);
    assert j == 2 * (j / 2) || j == 2 * (j / 2) + 1;
  }

  /** The first node of the layer of node k. */
  function Base(k: nat): (c: nat)
    requires 1 <= k < 128
    ensures 1 <= c <= 64 && c <= k < 2 * c
  {
    if k < 2 then 1 else if k < 4 then 2 else if k < 8 then 4 else if k < 16 then 8
    else if k < 32 then 16 else if k < 64 then 32 else 64
  }

  /** The zeta by which the inverse transform joins the children of node k. */
  function Mirror(k: nat): (r: nat)
    requires 1 <= k < 128
    ensures r < 128
  {
    3 * Base(k) - 1 - k
  }

  lemma LowMirrorFrom1(k: nat)
    requires 1 <= k < 16
    ensures Times(Zeta(k), Zeta(Mirror(k))) == Q - 1
  {
  }

  lemma LowMirrorFrom16(k: nat)
    requires 16 <= k < 24
    ensures Times(Zeta(k), Zeta(Mirror(k))) == Q - 1
  {
  }

  lemma LowMirrorFrom24(k: nat)
    requires 24 <= k < 32
    ensures Times(Zeta(k), Zeta(Mirror(k))) == Q - 1
  {
  }

  lemma LowMirror(k: nat)
    requires 1 <= k < 32
    ensures Times(Zeta(k), Zeta(Mirror(k))) == Q - 1
  {
    hide Zeta, Gamma, Times;
    if k < 16 {
      LowMirrorFrom1(k);
    } else if k < 24 {
      LowMirrorFrom16(k);
    } else {
      LowMirrorFrom24(k);
    }
  }

  lemma MidMirrorFrom32(k: nat)
    requires 32 <= k < 48
    ensures Times(Zeta(k), Zeta(95 - k)) == Q - 1
  {
  }

  lemma MidMirrorFrom48(k: nat)
    requires 48 <= k < 64
    ensures Times(Zeta(k), Zeta(95 - k)) == Q - 1
  {
  }

  lemma MidMirror(k: nat)
    requires 32 <= k < 64
    ensures Times(Zeta(k), Zeta(95 - k)) == Q - 1
  {
    hide Zeta, Gamma, Times;
    if k < 48 {
      MidMirrorFrom32(k);
    } else {
      MidMirrorFrom48(k);
    }
  }

  lemma HighMirrorFrom64(k: nat)
    requires 64 <= k < 80
    ensures Times(Zeta(k), Zeta(191 - k)) == Q - 1
  {
  }

  lemma HighMirrorFrom80(k: nat)
    requires 80 <= k < 96
    ensures Times(Zeta(k), Zeta(191 - k)) == Q - 1
  {
  }

  lemma HighMirror(k: nat)
    requires 64 <= k < 96
    ensures Times(Zeta(k), Zeta(191 - k)) == Q - 1
  {
    hide Zeta, Gamma, Times;
    if k < 80 {
      HighMirrorFrom64(k);
    } else {
      HighMirrorFrom80(k);
    }
  }

  lemma ZetaMirror(k: nat)
    requires 1 <= k < 128
    ensures Times(Zeta(k), Zeta(Mirror(k))) == Q - 1
  {
    hide Zeta, Times;
    if k < 32 {
      LowMirror(k);
    } else if k < 64 {
      MidMirror(k);
    } else if k < 96 {
      HighMirror(k);
    } else {
      HighMirror(191 - k);
      TimesComm(Zeta(k), Zeta(191 - k));
    }
  }

}

