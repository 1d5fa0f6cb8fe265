/**
  Where the constants of SHA-256 come from, sections 4.2.2 and 5.3.3 of FIPS 180-4: the first 32 bits
  behind the point of the cube roots of the first 64 primes, and of the square roots of the first eight.
 */
module Sha256Constants {
  import opened BlockHash
  import opened Fips180

  // ---------- the first 64 primes ----------

  predicate IsPrime(n: nat) {
    n >= 2 && forall d :: 2 <= d < n ==> n % d != 0
  }

  function PrimeRow(r: nat): (p: seq<nat>)
    ensures |p| == 8
  {
    if r == 0 then [2, 3, 5, 7, 11, 13, 17, 19]
    else if r == 1 then [23, 29, 31, 37, 41, 43, 47, 53]
    else if r == 2 then [59, 61, 67, 71, 73, 79, 83, 89]
    else if r == 3 then [97, 101, 103, 107, 109, 113, 127, 131]
    else if r == 4 then [137, 139, 149, 151, 157, 163, 167, 173]
    else if r == 5 then [179, 181, 191, 193, 197, 199, 211, 223]
    else if r == 6 then [227, 229, 233, 239, 241, 251, 257, 263]
    else [269, 271, 277, 281, 283, 293, 307, 311]
  }

  function Prime(t: nat): nat {
    PrimeRow(t / 8)[t % 8]
  }

  /** Divisible by none of the primes up to 17. */
  predicate Sieved(n: nat) {
    n % 2 != 0 && n % 3 != 0 && n % 5 != 0 && n % 7 != 0 && n % 11 != 0 && n % 13 != 0 && n % 17 != 0
  }

  lemma SmallPrimes()
    ensures IsPrime(2) && IsPrime(3) && IsPrime(5) && IsPrime(7) && IsPrime(11) && IsPrime(13) && IsPrime(17)
    ensures forall n :: 0 <= n <= 17 ==> (IsPrime(n) <==> n in {2, 3, 5, 7, 11, 13, 17})
  {
    assert 4 % 2 == 0 && 6 % 2 == 0 && 8 % 2 == 0 && 9 % 3 == 0 && 10 % 2 == 0;
    assert 12 % 2 == 0 && 14 % 2 == 0 && 15 % 3 == 0 && 16 % 2 == 0;
  }

  lemma SievedIsPrime(n: nat)
    requires 17 < n < 361
    ensures IsPrime(n) <==> Sieved(n)
  {
    if Sieved(n) {
      forall d | 2 <= d < n
        ensures n % d != 0
      {
        if n % d == 0 {
          assert n == d * (n / d);
          NoDivisor(n, d, n / d);
        }
      }
    }
  }

  lemma NoDivisor(n: nat, d: nat, e: nat)
    requires n == d * e && n < 361 && d >= 2 && e >= 2
    ensures !Sieved(n)
  {
    if d <= 18 {
      SmallDivisor(n, d, e);
    } else if e <= 18 {
      SmallDivisor(n, e, d);
    } else {
      LargeProduct(d, e);
    }
  }

  lemma LargeProduct(d: nat, e: nat)
    requires d >= 19 && e >= 19
    ensures d * e >= 361
  {
    assert (d - 19) * (e - 19) >= 0;
  }

  lemma SmallDivisor(n: nat, d: nat, e: nat)
    requires n == d * e && 2 <= d <= 18
    ensures !Sieved(n)
  {
    var p := if d % 2 == 0 then 2 else if d % 3 == 0 then 3 else d;
    var k := d / p;
    assert d == p * k && p in {2, 3, 5, 7, 11, 13, 17};
    Regroup(p, k, e);
    Multiple(n, p, k * e);
  }

  lemma Regroup(p: nat, k: nat, e: nat)
    ensures p * k * e == p * (k * e)
  {
  }

  lemma Multiple(n: nat, p: nat, m: nat)
    requires p in {2, 3, 5, 7, 11, 13, 17} && n == p * m
    ensures !Sieved(n)
  {
    Multiples(m);
  }

  lemma Multiples(m: nat)
    ensures 2 * m % 2 == 0 && 3 * m % 3 == 0 && 5 * m % 5 == 0 && 7 * m % 7 == 0
    ensures 11 * m % 11 == 0 && 13 * m % 13 == 0 && 17 * m % 17 == 0
  {
  }

  /** No prime lies between neighbours in the list. */
  predicate InOrder(t: nat) {
    Prime(t) < Prime(t + 1) && IsGap(Prime(t), Prime(t + 1))
  }

  predicate IsGap(p: nat, q: nat) {
    IsPrime(p) && forall n :: p < n < q ==> !IsPrime(n)
  }

  lemma Gap(p: nat, q: nat)
    requires 17 <= p < q <= p + 14 && q < 361 && p % 2 != 0 && (p == 17 || Sieved(p))
    requires (p + 2 < q ==> !Sieved(p + 2)) && (p + 4 < q ==> !Sieved(p + 4))
    requires (p + 6 < q ==> !Sieved(p + 6)) && (p + 8 < q ==> !Sieved(p + 8))
    requires (p + 10 < q ==> !Sieved(p + 10)) && (p + 12 < q ==> !Sieved(p + 12))
    ensures IsGap(p, q)
  {
    hide IsPrime, Sieved;
    SmallPrimes();
    if p > 17 {
      SievedIsPrime(p);
    }
    forall n | p < n < q
      ensures !IsPrime(n)
    {
      SievedIsPrime(n);
      EvenOrOdd(p, n);
      EvenSieved(n);
    }
  }

  lemma EvenOrOdd(p: nat, n: nat)
    requires p % 2 != 0 && p < n < p + 14
    ensures n % 2 == 0 || n == p + 2 || n == p + 4 || n == p + 6 || n == p + 8 || n == p + 10 || n == p + 12
  {
  }

  lemma EvenSieved(n: nat)
    ensures n % 2 == 0 ==> !Sieved(n)
  {
  }

  lemma FirstRow(t: nat)
    requires t < 6
    ensures InOrder(t)
  {
    SmallPrimes();
  }

  lemma Gaps0()
    ensures IsGap(17, 19)
    ensures IsGap(19, 23)
  {
    hide IsGap, IsPrime;
    Gap(17, 19);
    Gap(19, 23);
  }

  lemma Row0(t: nat)
    requires 6 <= t <= 7
    ensures InOrder(t)
  {
    hide IsGap;
    Gaps0();
  }

  lemma Gaps1()
    ensures IsGap(23, 29)
    ensures IsGap(29, 31)
    ensures IsGap(31, 37)
    ensures IsGap(37, 41)
    ensures IsGap(41, 43)
    ensures IsGap(43, 47)
    ensures IsGap(47, 53)
    ensures IsGap(53, 59)
  {
    hide IsGap, IsPrime;
    Gap(23, 29);
    Gap(29, 31);
    Gap(31, 37);
    Gap(37, 41);
    Gap(41, 43);
    Gap(43, 47);
    Gap(47, 53);
    Gap(53, 59);
  }

  lemma Row1(t: nat)
    requires 8 <= t <= 15
    ensures InOrder(t)
  {
    hide IsGap;
    Gaps1();
  }

  lemma Gaps2()
    ensures IsGap(59, 61)
    ensures IsGap(61, 67)
    ensures IsGap(67, 71)
    ensures IsGap(71, 73)
    ensures IsGap(73, 79)
    ensures IsGap(79, 83)
    ensures IsGap(83, 89)
    ensures IsGap(89, 97)
  {
    hide IsGap, IsPrime;
    Gap(59, 61);
    Gap(61, 67);
    Gap(67, 71);
    Gap(71, 73);
    Gap(73, 79);
    Gap(79, 83);
    Gap(83, 89);
    Gap(89, 97);
  }

  lemma Row2(t: nat)
    requires 16 <= t <= 23
    ensures InOrder(t)
  {
    hide IsGap;
    Gaps2();
  }

  lemma Gaps3()
    ensures IsGap(97, 101)
    ensures IsGap(101, 103)
    ensures IsGap(103, 107)
    ensures IsGap(107, 109)
    ensures IsGap(109, 113)
    ensures IsGap(113, 127)
    ensures IsGap(127, 131)
    ensures IsGap(131, 137)
  {
    hide IsGap, IsPrime;
    Gap(97, 101);
    Gap(101, 103);
    Gap(103, 107);
    Gap(107, 109);
    Gap(109, 113);
    Gap(113, 127);
    Gap(127, 131);
    Gap(131, 137);
  }

  lemma Row3(t: nat)
    requires 24 <= t <= 31
    ensures InOrder(t)
  {
    hide IsGap;
    Gaps3();
  }

  lemma Gaps4()
    ensures IsGap(137, 139)
    ensures IsGap(139, 149)
    ensures IsGap(149, 151)
    ensures IsGap(151, 157)
    ensures IsGap(157, 163)
    ensures IsGap(163, 167)
    ensures IsGap(167, 173)
    ensures IsGap(173, 179)
  {
    hide IsGap, IsPrime;
    Gap(137, 139);
    Gap(139, 149);
    Gap(149, 151);
    Gap(151, 157);
    Gap(157, 163);
    Gap(163, 167);
    Gap(167, 173);
    Gap(173, 179);
  }

  lemma Row4(t: nat)
    requires 32 <= t <= 39
    ensures InOrder(t)
  {
    hide IsGap;
    Gaps4();
  }

  lemma Gaps5()
    ensures IsGap(179, 181)
    ensures IsGap(181, 191)
    ensures IsGap(191, 193)
    ensures IsGap(193, 197)
    ensures IsGap(197, 199)
    ensures IsGap(199, 211)
    ensures IsGap(211, 223)
    ensures IsGap(223, 227)
  {
    hide IsGap, IsPrime;
    Gap(179, 181);
    Gap(181, 191);
    Gap(191, 193);
    Gap(193, 197);
    Gap(197, 199);
    Gap(199, 211);
    Gap(211, 223);
    Gap(223, 227);
  }

  lemma Row5(t: nat)
    requires 40 <= t <= 47
    ensures InOrder(t)
  {
    hide IsGap;
    Gaps5();
  }

  lemma Gaps6()
    ensures IsGap(227, 229)
    ensures IsGap(229, 233)
    ensures IsGap(233, 239)
    ensures IsGap(239, 241)
    ensures IsGap(241, 251)
    ensures IsGap(251, 257)
    ensures IsGap(257, 263)
    ensures IsGap(263, 269)
  {
    hide IsGap, IsPrime;
    Gap(227, 229);
    Gap(229, 233);
    Gap(233, 239);
    Gap(239, 241);
    Gap(241, 251);
    Gap(251, 257);
    Gap(257, 263);
    Gap(263, 269);
  }

  lemma Row6(t: nat)
    requires 48 <= t <= 55
    ensures InOrder(t)
  {
    hide IsGap;
    Gaps6();
  }

  lemma Gaps7()
    ensures IsGap(269, 271)
    ensures IsGap(271, 277)
    ensures IsGap(277, 281)
    ensures IsGap(281, 283)
    ensures IsGap(283, 293)
    ensures IsGap(293, 307)
    ensures IsGap(307, 311)
  {
    hide IsGap, IsPrime;
    Gap(269, 271);
    Gap(271, 277);
    Gap(277, 281);
    Gap(281, 283);
    Gap(283, 293);
    Gap(293, 307);
    Gap(307, 311);
  }

  lemma Row7(t: nat)
    requires 56 <= t <= 62
    ensures InOrder(t)
  {
    hide IsGap;
    Gaps7();
  }

  lemma LastPrime()
    ensures IsPrime(Prime(63)) && Prime(63) == 311
  {
    hide IsPrime;
    SievedIsPrime(311);
  }

  /** Prime(t) runs through all primes from 2 on, in order. */
  lemma PrimesInOrder(t: nat)
    requires t < 63
    ensures InOrder(t) && Prime(0) == 2 && IsPrime(Prime(63))
  {
    hide InOrder, IsPrime;
    LastPrime();
    if t < 6 {
      FirstRow(t);
    } else if t < 8 {
      Row0(t);
    } else if t < 16 {
      Row1(t);
    } else if t < 24 {
      Row2(t);
    } else if t < 32 {
      Row3(t);
    } else if t < 40 {
      Row4(t);
    } else if t < 48 {
      Row5(t);
    } else if t < 56 {
      Row6(t);
    } else {
      Row7(t);
    }
  }

  // ---------- the roots ----------

  function Square(x: nat): nat {
    x * x
  }

  function Cube(x: nat): nat {
    x * x * x
  }

  /** n and 32 bits f behind the point are the cube root of p, cut off. */
  predicate IsCubeRoot(p: nat, n: nat, f: nat) {
    Cube(n * TWO32 + f) <= p * (TWO64 * TWO32) < Cube(n * TWO32 + f + 1)
  }

  predicate IsSquareRoot(p: nat, n: nat, f: nat) {
    Square(n * TWO32 + f) <= p * TWO64 < Square(n * TWO32 + f + 1)
  }

  /** The whole part of the cube root of p. */
  function WholeRoot(p: nat): nat {
    if p < 8 then 1 else if p < 27 then 2 else if p < 64 then 3 else if p < 125 then 4 else if p < 216 then 5 else 6
  }

  predicate HasRoot(t: nat)
    requires t < 64
  {
    IsCubeRoot(Prime(t), WholeRoot(Prime(t)), K(t) as int)
  }

  lemma Constants0()
    ensures K(0) == 0x428A2F98 && K(1) == 0x71374491 && K(2) == 0xB5C0FBCF && K(3) == 0xE9B5DBA5
    ensures K(4) == 0x3956C25B && K(5) == 0x59F111F1 && K(6) == 0x923F82A4 && K(7) == 0xAB1C5ED5
  {
  }

  lemma Primes0()
    ensures Prime(0) == 2 && Prime(1) == 3 && Prime(2) == 5 && Prime(3) == 7
    ensures Prime(4) == 11 && Prime(5) == 13 && Prime(6) == 17 && Prime(7) == 19
  {
  }

  lemma Roots0()
    ensures HasRoot(0) && HasRoot(1) && HasRoot(2) && HasRoot(3)
    ensures HasRoot(4) && HasRoot(5) && HasRoot(6) && HasRoot(7)
  {
    hide K, Prime;
    Constants0();
    Primes0();
  }

  lemma Constants1()
    ensures K(8) == 0xD807AA98 && K(9) == 0x12835B01 && K(10) == 0x243185BE && K(11) == 0x550C7DC3
    ensures K(12) == 0x72BE5D74 && K(13) == 0x80DEB1FE && K(14) == 0x9BDC06A7 && K(15) == 0xC19BF174
  {
  }

  lemma Primes1()
    ensures Prime(8) == 23 && Prime(9) == 29 && Prime(10) == 31 && Prime(11) == 37
    ensures Prime(12) == 41 && Prime(13) == 43 && Prime(14) == 47 && Prime(15) == 53
  {
  }

  lemma Roots1()
    ensures HasRoot(8) && HasRoot(9) && HasRoot(10) && HasRoot(11)
    ensures HasRoot(12) && HasRoot(13) && HasRoot(14) && HasRoot(15)
  {
    hide K, Prime;
    Constants1();
    Primes1();
  }

  lemma Constants2()
    ensures K(16) == 0xE49B69C1 && K(17) == 0xEFBE4786 && K(18) == 0x0FC19DC6 && K(19) == 0x240CA1CC
    ensures K(20) == 0x2DE92C6F && K(21) == 0x4A7484AA && K(22) == 0x5CB0A9DC && K(23) == 0x76F988DA
  {
  }

  lemma Primes2()
    ensures Prime(16) == 59 && Prime(17) == 61 && Prime(18) == 67 && Prime(19) == 71
    ensures Prime(20) == 73 && Prime(21) == 79 && Prime(22) == 83 && Prime(23) == 89
  {
  }

  lemma Roots2()
    ensures HasRoot(16) && HasRoot(17) && HasRoot(18) && HasRoot(19)
    ensures HasRoot(20) && HasRoot(21) && HasRoot(22) && HasRoot(23)
  {
    hide K, Prime;
    Constants2();
    Primes2();
  }

  lemma Constants3()
    ensures K(24) == 0x983E5152 && K(25) == 0xA831C66D && K(26) == 0xB00327C8 && K(27) == 0xBF597FC7
    ensures K(28) == 0xC6E00BF3 && K(29) == 0xD5A79147 && K(30) == 0x06CA6351 && K(31) == 0x14292967
  {
  }

  lemma Primes3()
    ensures Prime(24) == 97 && Prime(25) == 101 && Prime(26) == 103 && Prime(27) == 107
    ensures Prime(28) == 109 && Prime(29) == 113 && Prime(30) == 127 && Prime(31) == 131
  {
  }

  lemma Roots3()
    ensures HasRoot(24) && HasRoot(25) && HasRoot(26) && HasRoot(27)
    ensures HasRoot(28) && HasRoot(29) && HasRoot(30) && HasRoot(31)
  {
    hide K, Prime;
    Constants3();
    Primes3();
  }

  lemma Constants4()
    ensures K(32) == 0x27B70A85 && K(33) == 0x2E1B2138 && K(34) == 0x4D2C6DFC && K(35) == 0x53380D13
    ensures K(36) == 0x650A7354 && K(37) == 0x766A0ABB && K(38) == 0x81C2C92E && K(39) == 0x92722C85
  {
  }

  lemma Primes4()
    ensures Prime(32) == 137 && Prime(33) == 139 && Prime(34) == 149 && Prime(35) == 151
    ensures Prime(36) == 157 && Prime(37) == 163 && Prime(38) == 167 && Prime(39) == 173
  {
  }

  lemma Roots4()
    ensures HasRoot(32) && HasRoot(33) && HasRoot(34) && HasRoot(35)
    ensures HasRoot(36) && HasRoot(37) && HasRoot(38) && HasRoot(39)
  {
    hide K, Prime;
    Constants4();
    Primes4();
  }

  lemma Constants5()
    ensures K(40) == 0xA2BFE8A1 && K(41) == 0xA81A664B && K(42) == 0xC24B8B70 && K(43) == 0xC76C51A3
    ensures K(44) == 0xD192E819 && K(45) == 0xD6990624 && K(46) == 0xF40E3585 && K(47) == 0x106AA070
  {
  }

  lemma Primes5()
    ensures Prime(40) == 179 && Prime(41) == 181 && Prime(42) == 191 && Prime(43) == 193
    ensures Prime(44) == 197 && Prime(45) == 199 && Prime(46) == 211 && Prime(47) == 223
  {
  }

  lemma Roots5()
    ensures HasRoot(40) && HasRoot(41) && HasRoot(42) && HasRoot(43)
    ensures HasRoot(44) && HasRoot(45) && HasRoot(46) && HasRoot(47)
  {
    hide K, Prime;
    Constants5();
    Primes5();
  }

  lemma Constants6()
    ensures K(48) == 0x19A4C116 && K(49) == 0x1E376C08 && K(50) == 0x2748774C && K(51) == 0x34B0BCB5
    ensures K(52) == 0x391C0CB3 && K(53) == 0x4ED8AA4A && K(54) == 0x5B9CCA4F && K(55) == 0x682E6FF3
  {
  }

  lemma Primes6()
    ensures Prime(48) == 227 && Prime(49) == 229 && Prime(50) == 233 && Prime(51) == 239
    ensures Prime(52) == 241 && Prime(53) == 251 && Prime(54) == 257 && Prime(55) == 263
  {
  }

  lemma Roots6()
    ensures HasRoot(48) && HasRoot(49) && HasRoot(50) && HasRoot(51)
    ensures HasRoot(52) && HasRoot(53) && HasRoot(54) && HasRoot(55)
  {
    hide K, Prime;
    Constants6();
    Primes6();
  }

  lemma Constants7()
    ensures K(56) == 0x748F82EE && K(57) == 0x78A5636F && K(58) == 0x84C87814 && K(59) == 0x8CC70208
    ensures K(60) == 0x90BEFFFA && K(61) == 0xA4506CEB && K(62) == 0xBEF9A3F7 && K(63) == 0xC67178F2
  {
  }

  lemma Primes7()
    ensures Prime(56) == 269 && Prime(57) == 271 && Prime(58) == 277 && Prime(59) == 281
    ensures Prime(60) == 283 && Prime(61) == 293 && Prime(62) == 307 && Prime(63) == 311
  {
  }

  lemma Roots7()
    ensures HasRoot(56) && HasRoot(57) && HasRoot(58) && HasRoot(59)
    ensures HasRoot(60) && HasRoot(61) && HasRoot(62) && HasRoot(63)
  {
    hide K, Prime;
    Constants7();
    Primes7();
  }

  /** K(t) is the first 32 bits behind the point of the cube root of the t-th prime. */
  lemma KIsCubeRoot(t: nat)
    requires t < 64
    ensures HasRoot(t)
  {
    hide HasRoot;
    Roots0();
    Roots1();
    Roots2();
    Roots3();
    Roots4();
    Roots5();
    Roots6();
    Roots7();
  }

  lemma SquareRoots()
    ensures IsSquareRoot(2, 1, 0x6A09E667)
    ensures IsSquareRoot(3, 1, 0xBB67AE85)
    ensures IsSquareRoot(5, 2, 0x3C6EF372)
    ensures IsSquareRoot(7, 2, 0xA54FF53A)
    ensures IsSquareRoot(11, 3, 0x510E527F)
    ensures IsSquareRoot(13, 3, 0x9B05688C)
    ensures IsSquareRoot(17, 4, 0x1F83D9AB)
    ensures IsSquareRoot(19, 4, 0x5BE0CD19)
  {
  }

  lemma InitialValues()
    ensures var h := InitialHash();
      && (h.a as int) == 0x6A09E667
      && (h.b as int) == 0xBB67AE85
      && (h.c as int) == 0x3C6EF372
      && (h.d as int) == 0xA54FF53A
      && (h.e as int) == 0x510E527F
      && (h.f as int) == 0x9B05688C
      && (h.g as int) == 0x1F83D9AB
      && (h.h as int) == 0x5BE0CD19
  {
  }

  ghost predicate IsRoot(p: nat, f: nat) {
    exists n :: IsSquareRoot(p, n, f)
  }

  /** The initial hash value is the first 32 bits behind the point of the square roots of the first eight primes. */
  lemma InitialHashIsSquareRoots()
    ensures var h := InitialHash();
      && IsRoot(2, h.a as int) && IsRoot(3, h.b as int) && IsRoot(5, h.c as int) && IsRoot(7, h.d as int)
      && IsRoot(11, h.e as int) && IsRoot(13, h.f as int) && IsRoot(17, h.g as int) && IsRoot(19, h.h as int)
  {
    hide IsRoot, InitialHash;
    FractionsAreRoots();
    InitialValues();
  }

  lemma FractionsAreRoots()
    ensures IsRoot(2, 0x6A09E667) && IsRoot(3, 0xBB67AE85) && IsRoot(5, 0x3C6EF372) && IsRoot(7, 0xA54FF53A)
    ensures IsRoot(11, 0x510E527F) && IsRoot(13, 0x9B05688C) && IsRoot(17, 0x1F83D9AB) && IsRoot(19, 0x5BE0CD19)
  {
    hide IsSquareRoot;
    SquareRoots();
  }
}
