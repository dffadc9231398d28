/**
 What the constants of the hash are: the first 32 bits of the fractional parts of the cube roots of the
 first 64 primes (section 4.2.2 of FIPS 180-4), and of the square roots of the first eight (section 5.3.3).
 */
module Fips180Constants {
  import opened Fips180

  // ---------- The first 64 primes ----------

  ghost predicate IsPrime(p: nat) {
    p >= 2 && forall d, e :: d >= 2 && e >= 2 ==> d * e != p
  }

  // The primes from lo on that are below hi, in order
  ghost function PrimesIn(lo: nat, hi: nat): seq<nat>
    decreases hi - lo
  {
    if lo >= hi then [] else (if IsPrime(lo) then [lo] else []) + PrimesIn(lo + 1, hi)
  }

  const PRIMES_0: seq<nat> := [2, 3, 5, 7, 11, 13, 17, 19]
  const PRIMES_1: seq<nat> := [23, 29, 31, 37, 41, 43, 47, 53]
  const PRIMES_2: seq<nat> := [59, 61, 67, 71, 73, 79, 83, 89]
  const PRIMES_3: seq<nat> := [97, 101, 103, 107, 109, 113, 127, 131]
  const PRIMES_4: seq<nat> := [137, 139, 149, 151, 157, 163, 167, 173]
  const PRIMES_5: seq<nat> := [179, 181, 191, 193, 197, 199, 211, 223]
  const PRIMES_6: seq<nat> := [227, 229, 233, 239, 241, 251, 257, 263]
  const PRIMES_7: seq<nat> := [269, 271, 277, 281, 283, 293, 307, 311]

  const PRIMES: seq<nat> := PRIMES_0 + PRIMES_1 + PRIMES_2 + PRIMES_3 + PRIMES_4 + PRIMES_5 + PRIMES_6 + PRIMES_7

  // Not a multiple of a smaller prime below 19, which decides primality for numbers below 19 * 19
  predicate Sieved(p: nat) {
    && p >= 2
    && (p == 2 || p % 2 != 0) && (p == 3 || p % 3 != 0) && (p == 5 || p % 5 != 0) && (p == 7 || p % 7 != 0)
    && (p == 11 || p % 11 != 0) && (p == 13 || p % 13 != 0) && (p == 17 || p % 17 != 0)
  }

  function SievedIn(lo: nat, hi: nat): seq<nat>
    decreases hi - lo
  {
    if lo >= hi then [] else if Sieved(lo) then [lo] + SievedIn(lo + 1, hi) else SievedIn(lo + 1, hi)
  }

  lemma QuotientIsLarge(p: nat, q: nat)
    requires q >= 2 && p % q == 0 && p > q
    ensures p / q >= 2 && q * (p / q) == p
  {
    var e := p / q;
    assert q * e == p;
    assert e != 0 && e != 1;
  }

  // A number the sieve lets out is a product.
  lemma SievedOut(p: nat)
    requires p >= 2 && !Sieved(p)
    ensures !IsPrime(p)
  {
    var q := if p != 2 && p % 2 == 0 then 2 else if p != 3 && p % 3 == 0 then 3 else if p != 5 && p % 5 == 0 then 5
             else if p != 7 && p % 7 == 0 then 7 else if p != 11 && p % 11 == 0 then 11
             else if p != 13 && p % 13 == 0 then 13 else 17;
    QuotientIsLarge(p, q);
  }

  lemma MultipleDivides(q: nat, g: nat)
    requires q > 0
    ensures q * g % q == 0
  {
    var p := q * g;
    var k, r := p / q, p % q;
    assert p == q * k + r && 0 <= r < q;
    assert q * (g - k) == r;
    NoSmallMultiple(q, g - k);
  }

  lemma NoSmallMultiple(q: int, k: int)
    requires q > 0
    ensures k >= 1 ==> q * k >= q
    ensures k <= -1 ==> q * k <= -q
  {
    if k >= 1 {
      assert q * k == q + q * (k - 1);
    } else if k <= -1 {
      assert q * k == -q - q * (-1 - k);
    }
  }

  lemma LetOut(p: nat, q: nat)
    requires q in {2, 3, 5, 7, 11, 13, 17} && p > q && p % q == 0
    ensures !Sieved(p)
  {
  }

  lemma SievedMultiple(q: nat, g: nat)
    requires q in {2, 3, 5, 7, 11, 13, 17} && g >= 2
    ensures !Sieved(q * g)
  {
    hide Sieved;
    MultipleDivides(q, g);
    assert q * g > q;
    LetOut(q * g, q);
  }

  // A product with a factor below 19 is let out.
  lemma SmallFactor(d: nat, e: nat)
    requires 2 <= d <= 18 && e >= 2
    ensures !Sieved(d * e)
  {
    hide Sieved;
    var q := if d % 2 == 0 then 2 else if d % 3 == 0 then 3 else if d % 5 == 0 then 5 else d;
    var f := d / q;
    Regroup(q, f, d, e);
    SievedMultiple(q, f * e);
  }

  lemma Regroup(q: nat, f: nat, d: nat, e: nat)
    requires d == q * f && f >= 1 && e >= 2
    ensures d * e == q * (f * e) && f * e >= 2
  {
    assert f * e >= e;
  }

  lemma LargeFactors(d: nat, e: nat)
    requires d >= 19 && e >= 19
    ensures d * e >= 361
  {
    assert d * e >= 19 * e;
  }

  lemma SieveDecides(p: nat)
    requires p < 361
    ensures IsPrime(p) <==> Sieved(p)
  {
    if p >= 2 && !Sieved(p) {
      SievedOut(p);
    }
    if Sieved(p) {
      forall d, e | d >= 2 && e >= 2
        ensures d * e != p
      {
        hide Sieved;
        if d <= 18 {
          SmallFactor(d, e);
        } else if e <= 18 {
          SmallFactor(e, d);
          assert d * e == e * d;
        } else {
          LargeFactors(d, e);
        }
      }
    }
  }

  lemma {:induction false} SieveFinds(lo: nat, hi: nat)
    requires hi <= 361
    ensures PrimesIn(lo, hi) == SievedIn(lo, hi)
    decreases hi - lo
  {
    hide Sieved;
    if lo < hi {
      SieveDecides(lo);
      SieveFinds(lo + 1, hi);
    }
  }

  lemma {:induction false} SieveSplits(lo: nat, mid: nat, hi: nat)
    requires lo <= mid <= hi
    ensures SievedIn(lo, hi) == SievedIn(lo, mid) + SievedIn(mid, hi)
    decreases mid - lo
  {
    hide Sieved;
    if lo < mid {
      SieveSplits(lo + 1, mid, hi);
    }
  }

  lemma Primes0()
    ensures SievedIn(0, 8) == [2, 3, 5, 7]
  {
    assert SievedIn(7, 8) == [7];
    assert SievedIn(5, 8) == [5, 7];
    assert SievedIn(3, 8) == [3, 5, 7];
  }

  lemma Primes1()
    ensures SievedIn(8, 20) == [11, 13, 17, 19]
  {
    assert SievedIn(19, 20) == [19];
    assert SievedIn(17, 20) == [17, 19];
    assert SievedIn(13, 20) == [13, 17, 19];
  }

  lemma Primes2()
    ensures SievedIn(20, 38) == [23, 29, 31, 37]
  {
    assert SievedIn(37, 38) == [37];
    assert SievedIn(31, 38) == [31, 37];
    assert SievedIn(29, 38) == [29, 31, 37];
  }

  lemma Primes3()
    ensures SievedIn(38, 54) == [41, 43, 47, 53]
  {
    assert SievedIn(53, 54) == [53];
    assert SievedIn(47, 54) == [47, 53];
    assert SievedIn(43, 54) == [43, 47, 53];
  }

  lemma Primes4()
    ensures SievedIn(54, 72) == [59, 61, 67, 71]
  {
    assert SievedIn(71, 72) == [71];
    assert SievedIn(67, 72) == [67, 71];
    assert SievedIn(61, 72) == [61, 67, 71];
  }

  lemma Primes5()
    ensures SievedIn(72, 90) == [73, 79, 83, 89]
  {
    assert SievedIn(89, 90) == [89];
    assert SievedIn(83, 90) == [83, 89];
    assert SievedIn(79, 90) == [79, 83, 89];
  }

  lemma Primes6()
    ensures SievedIn(90, 108) == [97, 101, 103, 107]
  {
    assert SievedIn(107, 108) == [107];
    assert SievedIn(103, 108) == [103, 107];
    assert SievedIn(101, 108) == [101, 103, 107];
  }

  lemma Primes7()
    ensures SievedIn(108, 132) == [109, 113, 127, 131]
  {
    assert SievedIn(131, 132) == [131];
    assert SievedIn(127, 132) == [127, 131];
    assert SievedIn(113, 132) == [113, 127, 131];
  }

  lemma Primes8()
    ensures SievedIn(132, 152) == [137, 139, 149, 151]
  {
    assert SievedIn(151, 152) == [151];
    assert SievedIn(149, 152) == [149, 151];
    assert SievedIn(139, 152) == [139, 149, 151];
  }

  lemma Primes9()
    ensures SievedIn(152, 174) == [157, 163, 167, 173]
  {
    assert SievedIn(173, 174) == [173];
    assert SievedIn(167, 174) == [167, 173];
    assert SievedIn(163, 174) == [163, 167, 173];
  }

  lemma Primes10()
    ensures SievedIn(174, 194) == [179, 181, 191, 193]
  {
    assert SievedIn(193, 194) == [193];
    assert SievedIn(191, 194) == [191, 193];
    assert SievedIn(181, 194) == [181, 191, 193];
  }

  lemma Primes11()
    ensures SievedIn(194, 224) == [197, 199, 211, 223]
  {
    assert SievedIn(223, 224) == [223];
    assert SievedIn(211, 224) == [211, 223];
    assert SievedIn(199, 224) == [199, 211, 223];
  }

  lemma Primes12()
    ensures SievedIn(224, 240) == [227, 229, 233, 239]
  {
    assert SievedIn(239, 240) == [239];
    assert SievedIn(233, 240) == [233, 239];
    assert SievedIn(229, 240) == [229, 233, 239];
  }

  lemma Primes13()
    ensures SievedIn(240, 264) == [241, 251, 257, 263]
  {
    assert SievedIn(263, 264) == [263];
    assert SievedIn(257, 264) == [257, 263];
    assert SievedIn(251, 264) == [251, 257, 263];
  }

  lemma Primes14()
    ensures SievedIn(264, 282) == [269, 271, 277, 281]
  {
    assert SievedIn(281, 282) == [281];
    assert SievedIn(277, 282) == [277, 281];
    assert SievedIn(271, 282) == [271, 277, 281];
  }

  lemma Primes15()
    ensures SievedIn(282, 312) == [283, 293, 307, 311]
  {
    assert SievedIn(311, 312) == [311];
    assert SievedIn(307, 312) == [307, 311];
    assert SievedIn(293, 312) == [293, 307, 311];
  }

  lemma PrimesRow0()
    ensures SievedIn(0, 20) == PRIMES_0
  {
    hide SievedIn;
    Primes0();
    Primes1();
    SieveSplits(0, 8, 20);
  }

  lemma PrimesRow1()
    ensures SievedIn(20, 54) == PRIMES_1
  {
    hide SievedIn;
    Primes2();
    Primes3();
    SieveSplits(20, 38, 54);
  }

  lemma PrimesRow2()
    ensures SievedIn(54, 90) == PRIMES_2
  {
    hide SievedIn;
    Primes4();
    Primes5();
    SieveSplits(54, 72, 90);
  }

  lemma PrimesRow3()
    ensures SievedIn(90, 132) == PRIMES_3
  {
    hide SievedIn;
    Primes6();
    Primes7();
    SieveSplits(90, 108, 132);
  }

  lemma PrimesRow4()
    ensures SievedIn(132, 174) == PRIMES_4
  {
    hide SievedIn;
    Primes8();
    Primes9();
    SieveSplits(132, 152, 174);
  }

  lemma PrimesRow5()
    ensures SievedIn(174, 224) == PRIMES_5
  {
    hide SievedIn;
    Primes10();
    Primes11();
    SieveSplits(174, 194, 224);
  }

  lemma PrimesRow6()
    ensures SievedIn(224, 264) == PRIMES_6
  {
    hide SievedIn;
    Primes12();
    Primes13();
    SieveSplits(224, 240, 264);
  }

  lemma PrimesRow7()
    ensures SievedIn(264, 312) == PRIMES_7
  {
    hide SievedIn;
    Primes14();
    Primes15();
    SieveSplits(264, 282, 312);
  }

  // The sequence has all primes up to its last, in order, and 64 of them.
  lemma PrimesAreTheFirst()
    ensures PRIMES == PrimesIn(0, 312) && |PRIMES| == 64
  {
    hide SievedIn, PrimesIn;
    PrimesRow0();
    PrimesRow1();
    PrimesRow2();
    PrimesRow3();
    PrimesRow4();
    PrimesRow5();
    PrimesRow6();
    PrimesRow7();
    SieveSplits(0, 20, 54);
    SieveSplits(0, 54, 90);
    SieveSplits(0, 90, 132);
    SieveSplits(0, 132, 174);
    SieveSplits(0, 174, 224);
    SieveSplits(0, 224, 264);
    SieveSplits(0, 264, 312);
    SieveFinds(0, 312);
  }

  // ---------- The roots ----------

  // w is the first 32 fractional bits of the cube root of p, whose whole part is n.
  predicate CubeRootFraction(p: nat, n: nat, w: nat) {
    var x := n * 0x1_0000_0000 + w;
    w < 0x1_0000_0000 && x * x * x <= p * 0x1_0000_0000_0000_0000_0000_0000 < (x + 1) * (x + 1) * (x + 1)
  }

  predicate SquareRootFraction(p: nat, n: nat, w: nat) {
    var x := n * 0x1_0000_0000 + w;
    w < 0x1_0000_0000 && x * x <= p * 0x1_0000_0000_0000_0000 < (x + 1) * (x + 1)
  }

  ghost predicate IsCubeRootOf(p: nat, w: nat) {
    exists n :: CubeRootFraction(p, n, w)
  }

  ghost predicate IsSquareRootOf(p: nat, w: nat) {
    exists n :: SquareRootFraction(p, n, w)
  }

  lemma CubeRoots0()
    ensures forall i :: 0 <= i < 4 ==> IsCubeRootOf(PRIMES_0[i], K_0[i] as nat)
  {
    assert CubeRootFraction(2, 1, 0x428a2f98) && K_0[0] as nat == 0x428a2f98;
    assert CubeRootFraction(3, 1, 0x71374491) && K_0[1] as nat == 0x71374491;
    assert CubeRootFraction(5, 1, 0xb5c0fbcf) && K_0[2] as nat == 0xb5c0fbcf;
    assert CubeRootFraction(7, 1, 0xe9b5dba5) && K_0[3] as nat == 0xe9b5dba5;
  }

  lemma CubeRoots1()
    ensures forall i :: 4 <= i < 8 ==> IsCubeRootOf(PRIMES_0[i], K_0[i] as nat)
  {
    assert CubeRootFraction(11, 2, 0x3956c25b) && K_0[4] as nat == 0x3956c25b;
    assert CubeRootFraction(13, 2, 0x59f111f1) && K_0[5] as nat == 0x59f111f1;
    assert CubeRootFraction(17, 2, 0x923f82a4) && K_0[6] as nat == 0x923f82a4;
    assert CubeRootFraction(19, 2, 0xab1c5ed5) && K_0[7] as nat == 0xab1c5ed5;
  }

  lemma CubeRoots2()
    ensures forall i :: 0 <= i < 4 ==> IsCubeRootOf(PRIMES_1[i], K_1[i] as nat)
  {
    assert CubeRootFraction(23, 2, 0xd807aa98) && K_1[0] as nat == 0xd807aa98;
    assert CubeRootFraction(29, 3, 0x12835b01) && K_1[1] as nat == 0x12835b01;
    assert CubeRootFraction(31, 3, 0x243185be) && K_1[2] as nat == 0x243185be;
    assert CubeRootFraction(37, 3, 0x550c7dc3) && K_1[3] as nat == 0x550c7dc3;
  }

  lemma CubeRoots3()
    ensures forall i :: 4 <= i < 8 ==> IsCubeRootOf(PRIMES_1[i], K_1[i] as nat)
  {
    assert CubeRootFraction(41, 3, 0x72be5d74) && K_1[4] as nat == 0x72be5d74;
    assert CubeRootFraction(43, 3, 0x80deb1fe) && K_1[5] as nat == 0x80deb1fe;
    assert CubeRootFraction(47, 3, 0x9bdc06a7) && K_1[6] as nat == 0x9bdc06a7;
    assert CubeRootFraction(53, 3, 0xc19bf174) && K_1[7] as nat == 0xc19bf174;
  }

  lemma CubeRoots4()
    ensures forall i :: 0 <= i < 4 ==> IsCubeRootOf(PRIMES_2[i], K_2[i] as nat)
  {
    assert CubeRootFraction(59, 3, 0xe49b69c1) && K_2[0] as nat == 0xe49b69c1;
    assert CubeRootFraction(61, 3, 0xefbe4786) && K_2[1] as nat == 0xefbe4786;
    assert CubeRootFraction(67, 4, 0x0fc19dc6) && K_2[2] as nat == 0x0fc19dc6;
    assert CubeRootFraction(71, 4, 0x240ca1cc) && K_2[3] as nat == 0x240ca1cc;
  }

  lemma CubeRoots5()
    ensures forall i :: 4 <= i < 8 ==> IsCubeRootOf(PRIMES_2[i], K_2[i] as nat)
  {
    assert CubeRootFraction(73, 4, 0x2de92c6f) && K_2[4] as nat == 0x2de92c6f;
    assert CubeRootFraction(79, 4, 0x4a7484aa) && K_2[5] as nat == 0x4a7484aa;
    assert CubeRootFraction(83, 4, 0x5cb0a9dc) && K_2[6] as nat == 0x5cb0a9dc;
    assert CubeRootFraction(89, 4, 0x76f988da) && K_2[7] as nat == 0x76f988da;
  }

  lemma CubeRoots6()
    ensures forall i :: 0 <= i < 4 ==> IsCubeRootOf(PRIMES_3[i], K_3[i] as nat)
  {
    assert CubeRootFraction(97, 4, 0x983e5152) && K_3[0] as nat == 0x983e5152;
    assert CubeRootFraction(101, 4, 0xa831c66d) && K_3[1] as nat == 0xa831c66d;
    assert CubeRootFraction(103, 4, 0xb00327c8) && K_3[2] as nat == 0xb00327c8;
    assert CubeRootFraction(107, 4, 0xbf597fc7) && K_3[3] as nat == 0xbf597fc7;
  }

  lemma CubeRoots7()
    ensures forall i :: 4 <= i < 8 ==> IsCubeRootOf(PRIMES_3[i], K_3[i] as nat)
  {
    assert CubeRootFraction(109, 4, 0xc6e00bf3) && K_3[4] as nat == 0xc6e00bf3;
    assert CubeRootFraction(113, 4, 0xd5a79147) && K_3[5] as nat == 0xd5a79147;
    assert CubeRootFraction(127, 5, 0x06ca6351) && K_3[6] as nat == 0x06ca6351;
    assert CubeRootFraction(131, 5, 0x14292967) && K_3[7] as nat == 0x14292967;
  }

  lemma CubeRoots8()
    ensures forall i :: 0 <= i < 4 ==> IsCubeRootOf(PRIMES_4[i], K_4[i] as nat)
  {
    assert CubeRootFraction(137, 5, 0x27b70a85) && K_4[0] as nat == 0x27b70a85;
    assert CubeRootFraction(139, 5, 0x2e1b2138) && K_4[1] as nat == 0x2e1b2138;
    assert CubeRootFraction(149, 5, 0x4d2c6dfc) && K_4[2] as nat == 0x4d2c6dfc;
    assert CubeRootFraction(151, 5, 0x53380d13) && K_4[3] as nat == 0x53380d13;
  }

  lemma CubeRoots9()
    ensures forall i :: 4 <= i < 8 ==> IsCubeRootOf(PRIMES_4[i], K_4[i] as nat)
  {
    assert CubeRootFraction(157, 5, 0x650a7354) && K_4[4] as nat == 0x650a7354;
    assert CubeRootFraction(163, 5, 0x766a0abb) && K_4[5] as nat == 0x766a0abb;
    assert CubeRootFraction(167, 5, 0x81c2c92e) && K_4[6] as nat == 0x81c2c92e;
    assert CubeRootFraction(173, 5, 0x92722c85) && K_4[7] as nat == 0x92722c85;
  }

  lemma CubeRoots10()
    ensures forall i :: 0 <= i < 4 ==> IsCubeRootOf(PRIMES_5[i], K_5[i] as nat)
  {
    assert CubeRootFraction(179, 5, 0xa2bfe8a1) && K_5[0] as nat == 0xa2bfe8a1;
    assert CubeRootFraction(181, 5, 0xa81a664b) && K_5[1] as nat == 0xa81a664b;
    assert CubeRootFraction(191, 5, 0xc24b8b70) && K_5[2] as nat == 0xc24b8b70;
    assert CubeRootFraction(193, 5, 0xc76c51a3) && K_5[3] as nat == 0xc76c51a3;
  }

  lemma CubeRoots11()
    ensures forall i :: 4 <= i < 8 ==> IsCubeRootOf(PRIMES_5[i], K_5[i] as nat)
  {
    assert CubeRootFraction(197, 5, 0xd192e819) && K_5[4] as nat == 0xd192e819;
    assert CubeRootFraction(199, 5, 0xd6990624) && K_5[5] as nat == 0xd6990624;
    assert CubeRootFraction(211, 5, 0xf40e3585) && K_5[6] as nat == 0xf40e3585;
    assert CubeRootFraction(223, 6, 0x106aa070) && K_5[7] as nat == 0x106aa070;
  }

  lemma CubeRoots12()
    ensures forall i :: 0 <= i < 4 ==> IsCubeRootOf(PRIMES_6[i], K_6[i] as nat)
  {
    assert CubeRootFraction(227, 6, 0x19a4c116) && K_6[0] as nat == 0x19a4c116;
    assert CubeRootFraction(229, 6, 0x1e376c08) && K_6[1] as nat == 0x1e376c08;
    assert CubeRootFraction(233, 6, 0x2748774c) && K_6[2] as nat == 0x2748774c;
    assert CubeRootFraction(239, 6, 0x34b0bcb5) && K_6[3] as nat == 0x34b0bcb5;
  }

  lemma CubeRoots13()
    ensures forall i :: 4 <= i < 8 ==> IsCubeRootOf(PRIMES_6[i], K_6[i] as nat)
  {
    assert CubeRootFraction(241, 6, 0x391c0cb3) && K_6[4] as nat == 0x391c0cb3;
    assert CubeRootFraction(251, 6, 0x4ed8aa4a) && K_6[5] as nat == 0x4ed8aa4a;
    assert CubeRootFraction(257, 6, 0x5b9cca4f) && K_6[6] as nat == 0x5b9cca4f;
    assert CubeRootFraction(263, 6, 0x682e6ff3) && K_6[7] as nat == 0x682e6ff3;
  }

  lemma CubeRoots14()
    ensures forall i :: 0 <= i < 4 ==> IsCubeRootOf(PRIMES_7[i], K_7[i] as nat)
  {
    assert CubeRootFraction(269, 6, 0x748f82ee) && K_7[0] as nat == 0x748f82ee;
    assert CubeRootFraction(271, 6, 0x78a5636f) && K_7[1] as nat == 0x78a5636f;
    assert CubeRootFraction(277, 6, 0x84c87814) && K_7[2] as nat == 0x84c87814;
    assert CubeRootFraction(281, 6, 0x8cc70208) && K_7[3] as nat == 0x8cc70208;
  }

  lemma CubeRoots15()
    ensures forall i :: 4 <= i < 8 ==> IsCubeRootOf(PRIMES_7[i], K_7[i] as nat)
  {
    assert CubeRootFraction(283, 6, 0x90befffa) && K_7[4] as nat == 0x90befffa;
    assert CubeRootFraction(293, 6, 0xa4506ceb) && K_7[5] as nat == 0xa4506ceb;
    assert CubeRootFraction(307, 6, 0xbef9a3f7) && K_7[6] as nat == 0xbef9a3f7;
    assert CubeRootFraction(311, 6, 0xc67178f2) && K_7[7] as nat == 0xc67178f2;
  }

  // The round constants
  lemma ConstantsAreCubeRoots()
    ensures |K| == 64 && forall i :: 0 <= i < 64 ==> IsCubeRootOf(PRIMES[i], K[i] as nat)
  {
    hide IsCubeRootOf;
    CubeRoots0();
    CubeRoots1();
    CubeRoots2();
    CubeRoots3();
    CubeRoots4();
    CubeRoots5();
    CubeRoots6();
    CubeRoots7();
    CubeRoots8();
    CubeRoots9();
    CubeRoots10();
    CubeRoots11();
    CubeRoots12();
    CubeRoots13();
    CubeRoots14();
    CubeRoots15();
    forall i | 0 <= i < 64
      ensures IsCubeRootOf(PRIMES[i], K[i] as nat)
    {
      if
      case 0 <= i < 8 => assert PRIMES[i] == PRIMES_0[i - 0] && K[i] == K_0[i - 0];
      case 8 <= i < 16 => assert PRIMES[i] == PRIMES_1[i - 8] && K[i] == K_1[i - 8];
      case 16 <= i < 24 => assert PRIMES[i] == PRIMES_2[i - 16] && K[i] == K_2[i - 16];
      case 24 <= i < 32 => assert PRIMES[i] == PRIMES_3[i - 24] && K[i] == K_3[i - 24];
      case 32 <= i < 40 => assert PRIMES[i] == PRIMES_4[i - 32] && K[i] == K_4[i - 32];
      case 40 <= i < 48 => assert PRIMES[i] == PRIMES_5[i - 40] && K[i] == K_5[i - 40];
      case 48 <= i < 56 => assert PRIMES[i] == PRIMES_6[i - 48] && K[i] == K_6[i - 48];
      case 56 <= i < 64 => assert PRIMES[i] == PRIMES_7[i - 56] && K[i] == K_7[i - 56];
    }
  }

  lemma SquareRoots0()
    ensures IsSquareRootOf(PRIMES_0[0], INITIAL_HASH.a as nat)
    ensures IsSquareRootOf(PRIMES_0[1], INITIAL_HASH.b as nat)
  {
    assert SquareRootFraction(2, 1, 0x6a09e667) && INITIAL_HASH.a as nat == 0x6a09e667;
    assert SquareRootFraction(3, 1, 0xbb67ae85) && INITIAL_HASH.b as nat == 0xbb67ae85;
  }

  lemma SquareRoots1()
    ensures IsSquareRootOf(PRIMES_0[2], INITIAL_HASH.c as nat)
    ensures IsSquareRootOf(PRIMES_0[3], INITIAL_HASH.d as nat)
  {
    assert SquareRootFraction(5, 2, 0x3c6ef372) && INITIAL_HASH.c as nat == 0x3c6ef372;
    assert SquareRootFraction(7, 2, 0xa54ff53a) && INITIAL_HASH.d as nat == 0xa54ff53a;
  }

  lemma SquareRoots2()
    ensures IsSquareRootOf(PRIMES_0[4], INITIAL_HASH.e as nat)
    ensures IsSquareRootOf(PRIMES_0[5], INITIAL_HASH.f as nat)
  {
    assert SquareRootFraction(11, 3, 0x510e527f) && INITIAL_HASH.e as nat == 0x510e527f;
    assert SquareRootFraction(13, 3, 0x9b05688c) && INITIAL_HASH.f as nat == 0x9b05688c;
  }

  lemma SquareRoots3()
    ensures IsSquareRootOf(PRIMES_0[6], INITIAL_HASH.g as nat)
    ensures IsSquareRootOf(PRIMES_0[7], INITIAL_HASH.h as nat)
  {
    assert SquareRootFraction(17, 4, 0x1f83d9ab) && INITIAL_HASH.g as nat == 0x1f83d9ab;
    assert SquareRootFraction(19, 4, 0x5be0cd19) && INITIAL_HASH.h as nat == 0x5be0cd19;
  }

  // The initial words
  lemma InitialWordsAreSquareRoots()
    ensures IsSquareRootOf(PRIMES[0], INITIAL_HASH.a as nat)
    ensures IsSquareRootOf(PRIMES[1], INITIAL_HASH.b as nat)
    ensures IsSquareRootOf(PRIMES[2], INITIAL_HASH.c as nat)
    ensures IsSquareRootOf(PRIMES[3], INITIAL_HASH.d as nat)
    ensures IsSquareRootOf(PRIMES[4], INITIAL_HASH.e as nat)
    ensures IsSquareRootOf(PRIMES[5], INITIAL_HASH.f as nat)
    ensures IsSquareRootOf(PRIMES[6], INITIAL_HASH.g as nat)
    ensures IsSquareRootOf(PRIMES[7], INITIAL_HASH.h as nat)
  {
    hide IsSquareRootOf;
    SquareRoots0();
    SquareRoots1();
    SquareRoots2();
    SquareRoots3();
  }
}
