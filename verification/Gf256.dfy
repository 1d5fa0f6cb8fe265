/**
  The field GF(2^8) of section 4 of FIPS 197, and the powers of {03} from which
  the table generator of the AES engine builds its logarithm and S-box tables.
 */
module Gf256 {

  /** Multiplication by {02}, section 4.2.1 of FIPS 197. */
  function XTime(x: bv8): bv8 {
    (x << 1) ^ (if x & 0x80 != 0 then 0x1b else 0)
  }

  /** Addition, section 4.1 of FIPS 197. */
  function Add(a: bv8, b: bv8): bv8 {
    a ^ b
  }

  predicate LowBit(b: bv8) {
    b & 1 != 0
  }

  function Half(b: bv8): bv8 {
    b >> 1
  }

  /** The sum of `a` times x^i over the bits i < k that are set in `b`. */
  function MulBits(a: bv8, b: bv8, k: nat): bv8
    decreases k
  {
    if k == 0 then 0
    else Add(if LowBit(b) then a else 0, MulBits(XTime(a), Half(b), k - 1))
  }

  /** The product {a} . {b} of section 4.2 of FIPS 197. */
  function Mul(a: bv8, b: bv8): bv8 {
    MulBits(a, b, 8)
  }

  function Times3(x: bv8): bv8 {
    Add(x, XTime(x))
  }

  /** {03} to the n-th power. */
  function Pow3(n: nat): bv8 {
    if n == 0 then 1 else Times3(Pow3(n - 1))
  }

  // ---------- addition ----------

  lemma AddZero(a: bv8)
    ensures Add(a, 0) == a && Add(0, a) == a
  {
  }

  lemma AddLaws(a: bv8, b: bv8, c: bv8)
    ensures Add(Add(a, b), c) == Add(a, Add(b, c))
    ensures Add(a, b) == Add(b, a)
  {
  }

  lemma AddSwap(a: bv8, b: bv8, c: bv8, d: bv8)
    ensures Add(Add(a, b), Add(c, d)) == Add(Add(a, c), Add(b, d))
  {
    hide Add;
    AddLaws(a, b, Add(c, d));
    AddLaws(b, c, d);
    AddLaws(c, b, d);
    AddLaws(a, c, Add(b, d));
  }

  // ---------- multiplication distributes over addition ----------

  function XTimeBits(x: bv8): bv8 {
    var t := x >> 7;
    (x << 1) ^ t ^ (t << 1) ^ (t << 3) ^ (t << 4)
  }

  lemma XTimeIsXTimeBits(x: bv8)
    ensures XTime(x) == XTimeBits(x)
  {
  }

  lemma XTimeBitsAdd(a: bv8, b: bv8)
    ensures XTimeBits(a ^ b) == XTimeBits(a) ^ XTimeBits(b)
  {
  }

  lemma XTimeAdd(a: bv8, b: bv8)
    ensures XTime(Add(a, b)) == Add(XTime(a), XTime(b))
  {
    hide XTimeBits, XTime;
    XTimeIsXTimeBits(a);
    XTimeIsXTimeBits(b);
    XTimeIsXTimeBits(a ^ b);
    XTimeBitsAdd(a, b);
  }

  lemma XTimeConstants()
    ensures XTime(0) == 0 && XTime(0x01) == 0x02 && XTime(0x02) == 0x04 && XTime(0x04) == 0x08
    ensures XTime(0x08) == 0x10 && XTime(0x10) == 0x20 && XTime(0x20) == 0x40 && XTime(0x40) == 0x80
  {
  }

  lemma Times3Injective(a: bv8, b: bv8)
    requires Times3(a) == Times3(b)
    ensures a == b
  {
  }

  lemma {:induction false} MulBitsAddLeft(a: bv8, c: bv8, b: bv8, k: nat)
    ensures MulBits(Add(a, c), b, k) == Add(MulBits(a, b, k), MulBits(c, b, k))
    decreases k
  {
    hide XTime, Add, LowBit, Half;
    if k == 0 {
      AddZero(0);
    } else {
      XTimeAdd(a, c);
      MulBitsAddLeft(XTime(a), XTime(c), Half(b), k - 1);
      var p, q := MulBits(XTime(a), Half(b), k - 1), MulBits(XTime(c), Half(b), k - 1);
      AddSwap(a, c, p, q);
      AddZero(p);
      AddZero(q);
      AddZero(Add(p, q));
    }
  }

  lemma AddBits(b: bv8, c: bv8, x: bv8)
    ensures Half(Add(b, c)) == Add(Half(b), Half(c))
    ensures (if LowBit(Add(b, c)) then x else 0) == Add(if LowBit(b) then x else 0, if LowBit(c) then x else 0)
  {
  }

  lemma {:induction false} MulBitsAddRight(a: bv8, b: bv8, c: bv8, k: nat)
    ensures MulBits(a, Add(b, c), k) == Add(MulBits(a, b, k), MulBits(a, c, k))
    decreases k
  {
    hide XTime, Add, LowBit, Half;
    if k == 0 {
      AddZero(0);
    } else {
      MulBitsAddRight(XTime(a), Half(b), Half(c), k - 1);
      AddBits(b, c, a);
      AddSwap(if LowBit(b) then a else 0, if LowBit(c) then a else 0,
              MulBits(XTime(a), Half(b), k - 1), MulBits(XTime(a), Half(c), k - 1));
    }
  }

  lemma {:induction false} MulBitsXTime(a: bv8, b: bv8, k: nat)
    ensures MulBits(XTime(a), b, k) == XTime(MulBits(a, b, k))
    decreases k
  {
    hide XTime, Add, LowBit, Half;
    XTimeConstants();
    XTimeAdd(if LowBit(b) then a else 0, if k == 0 then 0 else MulBits(XTime(a), Half(b), k - 1));
    if k != 0 {
      MulBitsXTime(XTime(a), Half(b), k - 1);
    }
  }

  /** Multiplying by {03} commutes with multiplying by any b. */
  lemma MulTimes3(a: bv8, b: bv8)
    ensures Mul(Times3(a), b) == Times3(Mul(a, b))
  {
    hide XTime, Add, LowBit, Half;
    MulBitsAddLeft(a, XTime(a), b, 8);
    MulBitsXTime(a, b, 8);
  }

  lemma ShiftStep(h: bv8)
    ensures Add(if LowBit(h) then 0x01 else 0, Half(h) << 1) == h
    ensures Add(if LowBit(h) then 0x02 else 0, Half(h) << 2) == h << 1
    ensures Add(if LowBit(h) then 0x04 else 0, Half(h) << 3) == h << 2
    ensures Add(if LowBit(h) then 0x08 else 0, Half(h) << 4) == h << 3
    ensures Add(if LowBit(h) then 0x10 else 0, Half(h) << 5) == h << 4
    ensures Add(if LowBit(h) then 0x20 else 0, Half(h) << 6) == h << 5
    ensures Add(if LowBit(h) then 0x40 else 0, Half(h) << 7) == h << 6
    ensures Add(if LowBit(h) then 0x80 else 0, 0) == h << 7
  {
  }

  lemma MulOneTail(h: bv8)
    ensures MulBits(0x10, h, 4) == h << 4
  {
    hide XTime, Add, LowBit, Half;
    XTimeConstants();
    var h1 := Half(h);
    var h2 := Half(h1);
    var h3 := Half(h2);
    assert MulBits(0x80, h3, 1) == h3 << 7 by { ShiftStep(h3); }
    assert MulBits(0x40, h2, 2) == h2 << 6 by { ShiftStep(h2); }
    assert MulBits(0x20, h1, 3) == h1 << 5 by { ShiftStep(h1); }
    ShiftStep(h);
  }

  lemma MulOne(b: bv8)
    ensures Mul(1, b) == b
  {
    hide XTime, Add, LowBit, Half;
    XTimeConstants();
    var b1 := Half(b);
    var b2 := Half(b1);
    var b3 := Half(b2);
    MulOneTail(Half(b3));
    assert MulBits(0x08, b3, 5) == b3 << 3 by { ShiftStep(b3); }
    assert MulBits(0x04, b2, 6) == b2 << 2 by { ShiftStep(b2); }
    assert MulBits(0x02, b1, 7) == b1 << 1 by { ShiftStep(b1); }
    ShiftStep(b);
  }
}
