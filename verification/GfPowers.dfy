/**
  {03} generates the multiplicative group of GF(2^8): its powers 1..255 are the
  255 nonzero bytes, each once. The logarithm table, the inverses and the S-box
  of the AES engine all rest on this.
 */
module GfPowers {
  import opened Bytes
  import opened Gf256

  lemma {:induction false} PowAdd(i: nat, j: nat)
    ensures Mul(Pow3(i), Pow3(j)) == Pow3(i + j)
  {
    hide Mul, Times3;
    if i == 0 {
      MulOne(Pow3(j));
    } else {
      PowAdd(i - 1, j);
      MulTimes3(Pow3(i - 1), Pow3(j));
      assert Pow3(i + j) == Times3(Pow3(i - 1 + j));
    }
  }

  lemma Products()
    ensures Pow3(15) == 0x35 && Pow3(17) == 0xe1
    ensures Mul(0xe1, 0xe1) == 0x5c && Mul(0x5c, 0xe1) == 0x0c && Mul(0x5c, 0x5c) == 0xe0
    ensures Mul(0xe0, 0xe1) == 0xbd && Mul(0xbd, 0xbd) == 0xbc && Mul(0xbc, 0xbd) == 0x01
  {
    hide Pow3, Mul;
    LowPowers();
    FirstProducts();
    LastProducts();
  }

  lemma LowPowers()
    ensures Pow3(15) == 0x35 && Pow3(17) == 0xe1
  {
    assert Pow3(1) == 0x03;
    hide Pow3, Mul;
    LowProducts();
    PowAdd(1, 1);
    PowAdd(2, 1);
    PowAdd(2, 2);
    PowAdd(4, 3);
    PowAdd(4, 4);
    PowAdd(8, 7);
    PowAdd(8, 8);
    PowAdd(16, 1);
  }

  lemma LowProducts()
    ensures Mul(0x03, 0x03) == 0x05 && Mul(0x05, 0x03) == 0x0f && Mul(0x05, 0x05) == 0x11
    ensures Mul(0x11, 0x0f) == 0xff && Mul(0x11, 0x11) == 0x1a && Mul(0x1a, 0xff) == 0x35
    ensures Mul(0x1a, 0x1a) == 0x5f && Mul(0x5f, 0x03) == 0xe1
  {
  }

  lemma FirstProducts()
    ensures Mul(0xe1, 0xe1) == 0x5c && Mul(0x5c, 0xe1) == 0x0c && Mul(0x5c, 0x5c) == 0xe0
  {
  }

  lemma LastProducts()
    ensures Mul(0xe0, 0xe1) == 0xbd && Mul(0xbd, 0xbd) == 0xbc && Mul(0xbc, 0xbd) == 0x01
  {
  }

  /** 255 is a period, and none of 15, 51 and 85 is. */
  lemma Periods()
    ensures Pow3(255) == 1 && Pow3(85) != 1 && Pow3(51) != 1 && Pow3(15) != 1
  {
    hide Mul, Pow3;
    Products();
    PowAdd(17, 17);
    PowAdd(34, 17);
    PowAdd(34, 34);
    PowAdd(68, 17);
    PowAdd(85, 85);
    PowAdd(170, 85);
  }

  lemma {:induction false} PowNonzero(n: nat)
    ensures Pow3(n) != 0
  {
    hide Times3;
    if n > 0 {
      PowNonzero(n - 1);
      if Pow3(n) == 0 {
        Times3Zero();
        Times3Injective(Pow3(n - 1), 0);
      }
    }
  }

  lemma Times3Zero()
    ensures Times3(0) == 0
  {
  }

  /** Equal powers stay equal when the same power is divided out. */
  lemma {:induction false} Cancel(k: nat, i: nat, j: nat)
    requires Pow3(k + i) == Pow3(k + j)
    ensures Pow3(i) == Pow3(j)
  {
    hide Times3;
    if k > 0 {
      assert Pow3(k + i) == Times3(Pow3(k - 1 + i));
      assert Pow3(k + j) == Times3(Pow3(k - 1 + j));
      Times3Injective(Pow3(k - 1 + i), Pow3(k - 1 + j));
      Cancel(k - 1, i, j);
    }
  }

  lemma {:induction false} Repeat(d: nat, m: nat, r: nat)
    requires Pow3(d) == 1
    ensures Pow3(d * m + r) == Pow3(r)
    decreases m
  {
    hide Pow3, Mul;
    if m > 0 {
      Repeat(d, m - 1, r);
      assert d + (d * (m - 1) + r) == d * m + r;
      PowAdd(d, d * (m - 1) + r);
      MulOne(Pow3(d * (m - 1) + r));
    }
  }

  lemma DivisorsOf255(d: nat, q: nat)
    requires d * q == 255 && 0 < d < 255
    ensures 85 % d == 0 || 51 % d == 0 || 15 % d == 0
  {
    if d > 15 && q > 15 {
      ProductOfLarge(d, q);
    } else if d > 15 {
      OtherDivisor(d, q);
    }
  }

  lemma OtherDivisor(d: nat, q: nat)
    requires d * q == 255 && q <= 15 < d < 255
    ensures d == 17 || d == 51 || d == 85
  {
    if q <= 7 {
    } else {
    }
  }

  lemma ProductOfLarge(d: nat, q: nat)
    requires d > 15 && q > 15
    ensures d * q > 255
  {
    assert (d - 16) * (q - 16) >= 0;
  }

  /** No positive exponent below 255 takes {03} back to {01}. */
  lemma {:induction false} NoShortPeriod(d: nat)
    requires 0 < d < 255
    ensures Pow3(d) != 1
  {
    hide Pow3;
    if Pow3(d) == 1 {
      Periods();
      var q, r := 255 / d, 255 % d;
      Repeat(d, q, r);
      if r > 0 {
        NoShortPeriod(r);
      } else {
        DivisorsOf255(d, q);
        PeriodDividing(d, 85);
        PeriodDividing(d, 51);
        PeriodDividing(d, 15);
      }
    }
  }

  lemma PowZero()
    ensures Pow3(0) == 1
  {
  }

  lemma PeriodDividing(d: nat, n: nat)
    requires 0 < d && Pow3(d) == 1
    ensures n % d == 0 ==> Pow3(n) == 1
  {
    hide Pow3;
    PowZero();
    var q, r := n / d, n % d;
    assert n == d * q + r;
    Repeat(d, q, r);
  }

  lemma PowInjective(i: nat, j: nat)
    requires i < j < i + 255
    ensures Pow3(i) != Pow3(j)
  {
    hide Pow3;
    if Pow3(i) == Pow3(j) {
      Cancel(i, 0, j - i);
      PowZero();
      NoShortPeriod(j - i);
    }
  }

  // ---------- every nonzero byte is a power ----------

  ghost function Upto(n: nat): (s: set<int>)
    ensures |s| == n
    ensures forall k :: k in s <==> 1 <= k <= n
  {
    if n == 0 then {} else Upto(n - 1) + {n}
  }

  ghost function Image(n: nat): set<int> {
    if n == 0 then {} else Image(n - 1) + {Value(Pow3(n))}
  }

  lemma {:induction false} ImageMembers(n: nat, v: int)
    ensures v in Image(n) ==> exists k :: 1 <= k <= n && Value(Pow3(k)) == v
  {
    hide Value, Pow3;
    if n > 0 && v in Image(n) && v != Value(Pow3(n)) {
      ImageMembers(n - 1, v);
    }
  }

  lemma NewPower(n: nat)
    requires 1 <= n <= 255
    ensures Value(Pow3(n)) in Upto(255) && Value(Pow3(n)) !in Image(n - 1)
  {
    hide Value, Pow3, Upto;
    PowNonzero(n);
    ByteRange(Pow3(n));
    if Value(Pow3(n)) in Image(n - 1) {
      ImageMembers(n - 1, Value(Pow3(n)));
      var k :| 1 <= k <= n - 1 && Value(Pow3(k)) == Value(Pow3(n));
      ValueInjective(Pow3(k), Pow3(n));
      PowInjective(k, n);
    }
  }

  lemma {:induction false} ImageSize(n: nat)
    requires n <= 255
    ensures |Image(n)| == n && Image(n) <= Upto(255)
  {
    hide Value, Pow3, Upto;
    if n > 0 {
      ImageSize(n - 1);
      NewPower(n);
    }
  }

  lemma SubsetOfEqualSize(a: set<int>, b: set<int>)
    requires a <= b && |a| == |b|
    ensures a == b
  {
    assert |b| == |a| + |b - a|;
    assert b - a == {};
  }

  /** Every nonzero byte is {03}^k for some k in 1..255. */
  lemma PowSurjective(x: bv8) returns (k: nat)
    requires x != 0
    ensures 1 <= k <= 255 && Pow3(k) == x
  {
    hide Value, Pow3;
    ImageSize(255);
    SubsetOfEqualSize(Image(255), Upto(255));
    ByteRange(x);
    ImageMembers(255, Value(x));
    k :| 1 <= k <= 255 && Value(Pow3(k)) == Value(x);
    ValueInjective(Pow3(k), x);
  }

  // ---------- products and inverses through powers ----------

  lemma MulCommutative(a: bv8, b: bv8)
    ensures Mul(a, b) == Mul(b, a)
  {
    hide Mul, Pow3;
    if a != 0 && b != 0 {
      var i := PowSurjective(a);
      var j := PowSurjective(b);
      PowAdd(i, j);
      PowAdd(j, i);
    } else {
      MulZero(a);
      MulZero(b);
    }
  }

  lemma {:induction false} MulBitsZero(a: bv8, k: nat)
    ensures MulBits(a, 0, k) == 0 && MulBits(0, a, k) == 0
    decreases k
  {
    hide XTime, Half, LowBit;
    if k > 0 {
      XTimeConstants();
      assert !LowBit(0) && Half(0) == 0 by { ZeroBits(); }
      MulBitsZero(XTime(a), k - 1);
      MulBitsZero(Half(a), k - 1);
    }
  }

  lemma ZeroBits()
    ensures !LowBit(0) && Half(0) == 0
  {
  }

  lemma MulZero(a: bv8)
    ensures Mul(a, 0) == 0 && Mul(0, a) == 0
  {
    hide MulBits;
    MulBitsZero(a, 8);
  }

  /** The multiplicative inverse of section 4.2, with {00} paired with itself as the S-box asks. */
  ghost predicate AreInverse(a: bv8, b: bv8) {
    if a == 0 then b == 0 else Mul(a, b) == 1
  }

  lemma InverseByPowers(k: nat)
    requires k <= 255
    ensures AreInverse(Pow3(k), Pow3(255 - k))
  {
    hide Mul, Pow3;
    PowNonzero(k);
    Periods();
    PowAdd(k, 255 - k);
  }

  lemma InverseUnique(a: bv8, b: bv8, c: bv8)
    requires AreInverse(a, b) && AreInverse(a, c)
    ensures b == c
  {
    hide Mul, Pow3;
    if a != 0 {
      MulZero(a);
      var k := PowSurjective(a);
      var i := PowSurjective(b);
      var j := PowSurjective(c);
      PowAdd(k, i);
      PowAdd(k, j);
      Cancel(k, i, j);
    }
  }

  lemma InverseSymmetric(a: bv8, b: bv8)
    requires AreInverse(a, b)
    ensures AreInverse(b, a)
  {
    hide Mul;
    MulZero(a);
    MulCommutative(a, b);
  }

  lemma InverseExists(a: bv8)
    ensures exists b :: AreInverse(a, b)
  {
    hide Mul, Pow3;
    if a == 0 {
      assert AreInverse(0, 0);
    } else {
      var k := PowSurjective(a);
      InverseByPowers(k);
    }
  }

  ghost function Inverse(a: bv8): (b: bv8)
    ensures AreInverse(a, b)
  {
    InverseExists(a);
    var b :| AreInverse(a, b);
    b
  }
}
