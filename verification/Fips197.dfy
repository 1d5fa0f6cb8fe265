/**
  The cipher, its inverse, the equivalent inverse cipher and the key expansion of
  FIPS 197, written as in sections 5.1, 5.2, 5.3 and 5.3.5, with the theorem that
  the equivalent inverse cipher undoes the cipher.
 */
module Fips197 {
  import opened Words
  import opened Gf256
  import opened GfPowers

  // ---------- the S-box, section 5.1.1 ----------

  function RotateLeft(b: bv8): bv8 {
    (b << 1) | (b >> 7)
  }

  function Bit(b: bv8, i: nat): bv8
    requires i < 8
  {
    (b >> i) & 1
  }

  /** Bit i of the affine map: b_i + b_(i+4) + b_(i+5) + b_(i+6) + b_(i+7) + c_i, indices mod 8, c = {63}. */
  function AffineBit(b: bv8, i: nat): bv8
    requires i < 8
  {
    Bit(b, i) ^ Bit(b, (i + 4) % 8) ^ Bit(b, (i + 5) % 8) ^ Bit(b, (i + 6) % 8) ^ Bit(b, (i + 7) % 8) ^ Bit(0x63, i)
  }

  function Affine(b: bv8): bv8 {
    AffineBit(b, 0) | (AffineBit(b, 1) << 1) | (AffineBit(b, 2) << 2) | (AffineBit(b, 3) << 3)
    | (AffineBit(b, 4) << 4) | (AffineBit(b, 5) << 5) | (AffineBit(b, 6) << 6) | (AffineBit(b, 7) << 7)
  }

  /** The four rotations and the constant added up. */
  function FourRotated(b: bv8): bv8 {
    var r1 := RotateLeft(b);
    var r2 := RotateLeft(r1);
    var r3 := RotateLeft(r2);
    var r4 := RotateLeft(r3);
    b ^ r1 ^ r2 ^ r3 ^ r4 ^ 0x63
  }

  lemma EightBits(b: bv8)
    ensures Bit(b, 0) == b & 1 && Bit(b, 1) == (b >> 1) & 1 && Bit(b, 2) == (b >> 2) & 1 && Bit(b, 3) == (b >> 3) & 1
    ensures Bit(b, 4) == (b >> 4) & 1 && Bit(b, 5) == (b >> 5) & 1 && Bit(b, 6) == (b >> 6) & 1 && Bit(b, 7) == b >> 7
  {
  }

  lemma BitsJoin(b: bv8)
    ensures b == Bit(b, 0) | (Bit(b, 1) << 1) | (Bit(b, 2) << 2) | (Bit(b, 3) << 3)
               | (Bit(b, 4) << 4) | (Bit(b, 5) << 5) | (Bit(b, 6) << 6) | (Bit(b, 7) << 7)
  {
    hide Bit;
    EightBits(b);
  }

  lemma LowBitsRotate(b: bv8)
    ensures Bit(FourRotated(b), 0) == AffineBit(b, 0) && Bit(FourRotated(b), 1) == AffineBit(b, 1)
    ensures Bit(FourRotated(b), 2) == AffineBit(b, 2) && Bit(FourRotated(b), 3) == AffineBit(b, 3)
  {
    hide Bit;
    EightBits(b);
    EightBits(0x63);
    EightBits(FourRotated(b));
  }

  lemma HighBitsRotate(b: bv8)
    ensures Bit(FourRotated(b), 4) == AffineBit(b, 4) && Bit(FourRotated(b), 5) == AffineBit(b, 5)
    ensures Bit(FourRotated(b), 6) == AffineBit(b, 6) && Bit(FourRotated(b), 7) == AffineBit(b, 7)
  {
    hide Bit;
    EightBits(b);
    EightBits(0x63);
    EightBits(FourRotated(b));
  }

  /** The eight bit formulas at once, as rotations. */
  lemma AffineRotates(b: bv8)
    ensures Affine(b) == FourRotated(b)
  {
    hide Bit, AffineBit, FourRotated;
    LowBitsRotate(b);
    HighBitsRotate(b);
    BitsJoin(FourRotated(b));
  }

  function InvAffine(b: bv8): bv8 {
    var y := b ^ 0x63;
    var r1 := RotateLeft(y);
    var r3 := RotateLeft(RotateLeft(r1));
    var r6 := RotateLeft(RotateLeft(RotateLeft(r3)));
    r1 ^ r3 ^ r6
  }

  ghost function SBox(a: bv8): bv8 {
    Affine(Inverse(a))
  }

  /** The inverse S-box of section 5.3.2. */
  ghost function InvSBox(b: bv8): bv8 {
    Inverse(InvAffine(b))
  }

  lemma AffineInverts(b: bv8)
    ensures InvAffine(Affine(b)) == b && Affine(InvAffine(b)) == b
  {
    hide Affine;
    AffineRotates(b);
    AffineRotates(InvAffine(b));
  }

  /** The S-box is a bijection and InvSBox is its inverse. */
  lemma SBoxInverts(b: bv8)
    ensures InvSBox(SBox(b)) == b && SBox(InvSBox(b)) == b
  {
    hide Affine, InvAffine, AreInverse;
    AffineInverts(b);
    AffineInverts(Inverse(b));
    InverseSymmetric(b, Inverse(b));
    InverseUnique(Inverse(b), b, Inverse(Inverse(b)));
    var a := InvAffine(b);
    InverseSymmetric(a, Inverse(a));
    InverseUnique(Inverse(a), a, Inverse(Inverse(a)));
  }

  // ---------- columns ----------

  datatype Column = Column(b0: bv8, b1: bv8, b2: bv8, b3: bv8)

  function AddColumn(c: Column, d: Column): Column {
    Column(Add(c.b0, d.b0), Add(c.b1, d.b1), Add(c.b2, d.b2), Add(c.b3, d.b3))
  }

  function Sum4(a: bv8, b: bv8, c: bv8, d: bv8): bv8 {
    Add(Add(a, b), Add(c, d))
  }

  function Sum3(a: bv8, b: bv8, c: bv8): bv8 {
    Add(a, Add(b, c))
  }

  /** Section 5.1.3. */
  function MixColumn(c: Column): Column {
    Column(
      Sum4(XTime(c.b0), Times3(c.b1), c.b2, c.b3),
      Sum4(c.b0, XTime(c.b1), Times3(c.b2), c.b3),
      Sum4(c.b0, c.b1, XTime(c.b2), Times3(c.b3)),
      Sum4(Times3(c.b0), c.b1, c.b2, XTime(c.b3)))
  }

  /** Section 5.3.3. */
  function InvMixColumn(c: Column): Column {
    Column(
      Sum4(Mul(0x0e, c.b0), Mul(0x0b, c.b1), Mul(0x0d, c.b2), Mul(0x09, c.b3)),
      Sum4(Mul(0x09, c.b0), Mul(0x0e, c.b1), Mul(0x0b, c.b2), Mul(0x0d, c.b3)),
      Sum4(Mul(0x0d, c.b0), Mul(0x09, c.b1), Mul(0x0e, c.b2), Mul(0x0b, c.b3)),
      Sum4(Mul(0x0b, c.b0), Mul(0x0d, c.b1), Mul(0x09, c.b2), Mul(0x0e, c.b3)))
  }

  lemma MulAdd(k: bv8, a: bv8, b: bv8)
    ensures Mul(k, Add(a, b)) == Add(Mul(k, a), Mul(k, b))
  {
    hide MulBits, Add;
    MulBitsAddRight(k, a, b, 8);
  }

  lemma MulSum4(k: bv8, a: bv8, b: bv8, c: bv8, d: bv8)
    ensures Mul(k, Sum4(a, b, c, d)) == Sum4(Mul(k, a), Mul(k, b), Mul(k, c), Mul(k, d))
  {
    hide Mul, Add;
    MulAdd(k, Add(a, b), Add(c, d));
    MulAdd(k, a, b);
    MulAdd(k, c, d);
  }

  lemma Sum4Swap(a: bv8, b: bv8, c: bv8, d: bv8, e: bv8, f: bv8, g: bv8, h: bv8)
    ensures Add(Sum4(a, b, c, d), Sum4(e, f, g, h)) == Sum4(Add(a, e), Add(b, f), Add(c, g), Add(d, h))
  {
    hide Add;
    AddSwap(Add(a, b), Add(c, d), Add(e, f), Add(g, h));
    AddSwap(a, b, e, f);
    AddSwap(c, d, g, h);
  }

  /** Swapping rows and columns of a 4 by 4 sum. */
  lemma SumSquare(a: Column, b: Column, c: Column, d: Column)
    ensures Sum4(Sum4(a.b0, a.b1, a.b2, a.b3), Sum4(b.b0, b.b1, b.b2, b.b3),
                 Sum4(c.b0, c.b1, c.b2, c.b3), Sum4(d.b0, d.b1, d.b2, d.b3))
         == Sum4(Sum4(a.b0, b.b0, c.b0, d.b0), Sum4(a.b1, b.b1, c.b1, d.b1),
                 Sum4(a.b2, b.b2, c.b2, d.b2), Sum4(a.b3, b.b3, c.b3, d.b3))
  {
    hide Add;
    Sum4Swap(a.b0, a.b1, a.b2, a.b3, b.b0, b.b1, b.b2, b.b3);
    Sum4Swap(c.b0, c.b1, c.b2, c.b3, d.b0, d.b1, d.b2, d.b3);
    Sum4Swap(Add(a.b0, b.b0), Add(a.b1, b.b1), Add(a.b2, b.b2), Add(a.b3, b.b3),
             Add(c.b0, d.b0), Add(c.b1, d.b1), Add(c.b2, d.b2), Add(c.b3, d.b3));
  }

  // ---------- the inverse column matrix ----------

  lemma MulBy(k: bv8, x: bv8)
    ensures Mul(k, x) == MulBits(x, k, 8)
  {
    hide MulBits;
    MulCommutative(k, x);
  }

  /** The four matrix coefficients as sums of repeated doublings. */
  lemma CoefficientProducts(x: bv8)
    ensures var x1 := XTime(x); var x2 := XTime(x1); var x3 := XTime(x2);
      && Mul(0x09, x) == Add(x, x3)
      && Mul(0x0b, x) == Sum3(x, x1, x3)
      && Mul(0x0d, x) == Sum3(x, x2, x3)
      && Mul(0x0e, x) == Sum3(x1, x2, x3)
  {
    hide XTime, Add, Mul;
    BitsOfCoefficients();
    var x1 := XTime(x);
    var x2 := XTime(x1);
    var x3 := XTime(x2);
    MulBy(0x09, x);
    MulBy(0x0b, x);
    MulBy(0x0d, x);
    MulBy(0x0e, x);
    MulBitsZero(XTime(x3), 4);
    AddZero(x3);
    assert MulBits(x3, 0x01, 5) == x3;
    AddZero(x3);
    AddZero(Add(x2, x3));
    assert MulBits(x2, 0x02, 6) == x3;
    assert MulBits(x2, 0x03, 6) == Add(x2, x3);
    assert MulBits(x1, 0x04, 7) == x3;
    assert MulBits(x1, 0x05, 7) == Add(x1, x3);
    assert MulBits(x1, 0x06, 7) == Add(x2, x3);
    assert MulBits(x1, 0x07, 7) == Add(x1, Add(x2, x3));
    AddZero(Add(x1, Add(x2, x3)));
  }

  lemma BitsOfCoefficients()
    ensures Half(0x0e) == 0x07 && Half(0x0d) == 0x06 && Half(0x0b) == 0x05 && Half(0x09) == 0x04
    ensures Half(0x07) == 0x03 && Half(0x06) == 0x03 && Half(0x05) == 0x02 && Half(0x04) == 0x02
    ensures Half(0x03) == 0x01 && Half(0x02) == 0x01 && Half(0x01) == 0x00
    ensures !LowBit(0x0e) && LowBit(0x0d) && LowBit(0x0b) && LowBit(0x09) && LowBit(0x07) && !LowBit(0x06)
    ensures LowBit(0x05) && !LowBit(0x04) && LowBit(0x03) && !LowBit(0x02) && LowBit(0x01)
  {
  }

  lemma AddIsXor(a: bv8, b: bv8)
    ensures Add(a, b) == a ^ b
  {
  }

  lemma Sum3IsXor(a: bv8, b: bv8, c: bv8)
    ensures Sum3(a, b, c) == a ^ (b ^ c)
  {
  }

  lemma Sum4IsXor(a: bv8, b: bv8, c: bv8, d: bv8)
    ensures Sum4(a, b, c, d) == (a ^ b) ^ (c ^ d)
  {
  }

  lemma XorCancellation1(x: bv8, x1: bv8, x2: bv8, x3: bv8, x4: bv8, p: bv8, q: bv8, r: bv8, s: bv8)
    requires p == x2 ^ (x3 ^ x4) && q == x ^ (x1 ^ x3)
    requires r == x ^ (x2 ^ x3) && s == (x ^ x3) ^ (x1 ^ x4)
    ensures (p ^ q) ^ (r ^ s) == x
  {
  }

  lemma Cancellation1(x: bv8, x1: bv8, x2: bv8, x3: bv8, x4: bv8, p: bv8, q: bv8, r: bv8, s: bv8)
    requires p == Sum3(x2, x3, x4) && q == Sum3(x, x1, x3)
    requires r == Sum3(x, x2, x3) && s == Add(Add(x, x3), Add(x1, x4))
    ensures Sum4(p, q, r, s) == x
  {
    hide Add, Sum3, Sum4;
    Sum3IsXor(x2, x3, x4);
    Sum3IsXor(x, x1, x3);
    Sum3IsXor(x, x2, x3);
    AddIsXor(x, x3);
    AddIsXor(x1, x4);
    AddIsXor(Add(x, x3), Add(x1, x4));
    Sum4IsXor(p, q, r, s);
    XorCancellation1(x, x1, x2, x3, x4, p, q, r, s);
  }

  lemma XorCancellation2(x: bv8, x1: bv8, x2: bv8, x3: bv8, x4: bv8, p: bv8, q: bv8, r: bv8, s: bv8)
    requires p == (x1 ^ (x2 ^ x3)) ^ (x2 ^ (x3 ^ x4)) && q == x1 ^ (x2 ^ x4)
    requires r == x ^ (x2 ^ x3) && s == x ^ x3
    ensures (p ^ q) ^ (r ^ s) == 0
  {
  }

  lemma Cancellation2(x: bv8, x1: bv8, x2: bv8, x3: bv8, x4: bv8, p: bv8, q: bv8, r: bv8, s: bv8)
    requires p == Add(Sum3(x1, x2, x3), Sum3(x2, x3, x4)) && q == Sum3(x1, x2, x4)
    requires r == Sum3(x, x2, x3) && s == Add(x, x3)
    ensures Sum4(p, q, r, s) == 0
  {
    hide Add, Sum3, Sum4;
    Sum3IsXor(x1, x2, x3);
    Sum3IsXor(x2, x3, x4);
    AddIsXor(Sum3(x1, x2, x3), Sum3(x2, x3, x4));
    Sum3IsXor(x1, x2, x4);
    Sum3IsXor(x, x2, x3);
    AddIsXor(x, x3);
    Sum4IsXor(p, q, r, s);
    XorCancellation2(x, x1, x2, x3, x4, p, q, r, s);
  }

  lemma XorCancellation3(x: bv8, x1: bv8, x2: bv8, x3: bv8, x4: bv8, p: bv8, q: bv8, r: bv8, s: bv8)
    requires p == x1 ^ (x2 ^ x3) && q == (x ^ (x1 ^ x3)) ^ (x1 ^ (x2 ^ x4))
    requires r == x1 ^ (x3 ^ x4) && s == x ^ x3
    ensures (p ^ q) ^ (r ^ s) == 0
  {
  }

  lemma Cancellation3(x: bv8, x1: bv8, x2: bv8, x3: bv8, x4: bv8, p: bv8, q: bv8, r: bv8, s: bv8)
    requires p == Sum3(x1, x2, x3) && q == Add(Sum3(x, x1, x3), Sum3(x1, x2, x4))
    requires r == Sum3(x1, x3, x4) && s == Add(x, x3)
    ensures Sum4(p, q, r, s) == 0
  {
    hide Add, Sum3, Sum4;
    Sum3IsXor(x1, x2, x3);
    Sum3IsXor(x, x1, x3);
    Sum3IsXor(x1, x2, x4);
    AddIsXor(Sum3(x, x1, x3), Sum3(x1, x2, x4));
    Sum3IsXor(x1, x3, x4);
    AddIsXor(x, x3);
    Sum4IsXor(p, q, r, s);
    XorCancellation3(x, x1, x2, x3, x4, p, q, r, s);
  }

  lemma XorCancellation4(x: bv8, x1: bv8, x2: bv8, x3: bv8, x4: bv8, p: bv8, q: bv8, r: bv8, s: bv8)
    requires p == x1 ^ (x2 ^ x3) && q == x ^ (x1 ^ x3)
    requires r == (x ^ (x2 ^ x3)) ^ (x1 ^ (x3 ^ x4)) && s == x1 ^ x4
    ensures (p ^ q) ^ (r ^ s) == 0
  {
  }

  lemma Cancellation4(x: bv8, x1: bv8, x2: bv8, x3: bv8, x4: bv8, p: bv8, q: bv8, r: bv8, s: bv8)
    requires p == Sum3(x1, x2, x3) && q == Sum3(x, x1, x3)
    requires r == Add(Sum3(x, x2, x3), Sum3(x1, x3, x4)) && s == Add(x1, x4)
    ensures Sum4(p, q, r, s) == 0
  {
    hide Add, Sum3, Sum4;
    Sum3IsXor(x1, x2, x3);
    Sum3IsXor(x, x1, x3);
    Sum3IsXor(x, x2, x3);
    Sum3IsXor(x1, x3, x4);
    AddIsXor(Sum3(x, x2, x3), Sum3(x1, x3, x4));
    AddIsXor(x1, x4);
    Sum4IsXor(p, q, r, s);
    XorCancellation4(x, x1, x2, x3, x4, p, q, r, s);
  }

  lemma MulTimes3Right(k: bv8, x: bv8)
    ensures Mul(k, Times3(x)) == Add(Mul(k, x), Mul(k, XTime(x)))
  {
    hide Mul, Add, XTime;
    MulAdd(k, x, XTime(x));
  }

  /** One input byte's share in each row of InvMixColumn(MixColumn(c)): itself in its own row, nothing elsewhere. */
  lemma MatrixProducts(x: bv8)
    ensures Sum4(Mul(0x0e, XTime(x)), Mul(0x0b, x), Mul(0x0d, x), Mul(0x09, Times3(x))) == x
    ensures Sum4(Mul(0x0e, Times3(x)), Mul(0x0b, XTime(x)), Mul(0x0d, x), Mul(0x09, x)) == 0
    ensures Sum4(Mul(0x0e, x), Mul(0x0b, Times3(x)), Mul(0x0d, XTime(x)), Mul(0x09, x)) == 0
    ensures Sum4(Mul(0x0e, x), Mul(0x0b, x), Mul(0x0d, Times3(x)), Mul(0x09, XTime(x))) == 0
  {
    hide Mul, XTime, Times3, Add, Sum3, Sum4;
    var x1 := XTime(x);
    var x2 := XTime(x1);
    var x3 := XTime(x2);
    var x4 := XTime(x3);
    CoefficientProducts(x);
    CoefficientProducts(x1);
    MulTimes3Right(0x09, x);
    MulTimes3Right(0x0b, x);
    MulTimes3Right(0x0d, x);
    MulTimes3Right(0x0e, x);
    Cancellation1(x, x1, x2, x3, x4, Mul(0x0e, x1), Mul(0x0b, x), Mul(0x0d, x), Mul(0x09, Times3(x)));
    Cancellation2(x, x1, x2, x3, x4, Mul(0x0e, Times3(x)), Mul(0x0b, x1), Mul(0x0d, x), Mul(0x09, x));
    Cancellation3(x, x1, x2, x3, x4, Mul(0x0e, x), Mul(0x0b, Times3(x)), Mul(0x0d, x1), Mul(0x09, x));
    Cancellation4(x, x1, x2, x3, x4, Mul(0x0e, x), Mul(0x0b, x), Mul(0x0d, Times3(x)), Mul(0x09, x1));
  }

  lemma Sum4Rotate(a: bv8, b: bv8, c: bv8, d: bv8)
    ensures Sum4(a, b, c, d) == Sum4(b, c, d, a)
  {
    hide Add;
    AddLaws(a, b, Add(c, d));
    AddLaws(a, Add(b, Add(c, d)), 0);
    AddLaws(b, Add(c, d), a);
    AddLaws(c, d, a);
    AddLaws(b, c, Add(d, a));
  }

  lemma Sum4Unit(b: bv8)
    ensures Sum4(b, 0, 0, 0) == b && Sum4(0, b, 0, 0) == b && Sum4(0, 0, b, 0) == b && Sum4(0, 0, 0, b) == b
  {
    hide Add;
    AddZero(b);
    AddZero(0);
  }

  /** A row of the inverse matrix applied to a mixed column, regrouped by input byte. */
  lemma RowByInput(k0: bv8, k1: bv8, k2: bv8, k3: bv8, c: Column)
    ensures var m := MixColumn(c);
      Sum4(Mul(k0, m.b0), Mul(k1, m.b1), Mul(k2, m.b2), Mul(k3, m.b3))
      == Sum4(Sum4(Mul(k0, XTime(c.b0)), Mul(k1, c.b0), Mul(k2, c.b0), Mul(k3, Times3(c.b0))),
              Sum4(Mul(k0, Times3(c.b1)), Mul(k1, XTime(c.b1)), Mul(k2, c.b1), Mul(k3, c.b1)),
              Sum4(Mul(k0, c.b2), Mul(k1, Times3(c.b2)), Mul(k2, XTime(c.b2)), Mul(k3, c.b2)),
              Sum4(Mul(k0, c.b3), Mul(k1, c.b3), Mul(k2, Times3(c.b3)), Mul(k3, XTime(c.b3))))
  {
    hide Mul, XTime, Times3, Sum4;
    MulSum4(k0, XTime(c.b0), Times3(c.b1), c.b2, c.b3);
    MulSum4(k1, c.b0, XTime(c.b1), Times3(c.b2), c.b3);
    MulSum4(k2, c.b0, c.b1, XTime(c.b2), Times3(c.b3));
    MulSum4(k3, Times3(c.b0), c.b1, c.b2, XTime(c.b3));
    SumSquare(Column(Mul(k0, XTime(c.b0)), Mul(k0, Times3(c.b1)), Mul(k0, c.b2), Mul(k0, c.b3)),
              Column(Mul(k1, c.b0), Mul(k1, XTime(c.b1)), Mul(k1, Times3(c.b2)), Mul(k1, c.b3)),
              Column(Mul(k2, c.b0), Mul(k2, c.b1), Mul(k2, XTime(c.b2)), Mul(k2, Times3(c.b3))),
              Column(Mul(k3, Times3(c.b0)), Mul(k3, c.b1), Mul(k3, c.b2), Mul(k3, XTime(c.b3))));
  }

  /** MatrixProducts with its sums started at any of the four terms. */
  lemma RotatedProducts(x: bv8)
    ensures Sum4(Mul(0x09, Times3(x)), Mul(0x0e, XTime(x)), Mul(0x0b, x), Mul(0x0d, x)) == x
    ensures Sum4(Mul(0x09, x), Mul(0x0e, Times3(x)), Mul(0x0b, XTime(x)), Mul(0x0d, x)) == 0
    ensures Sum4(Mul(0x09, x), Mul(0x0e, x), Mul(0x0b, Times3(x)), Mul(0x0d, XTime(x))) == 0
    ensures Sum4(Mul(0x09, XTime(x)), Mul(0x0e, x), Mul(0x0b, x), Mul(0x0d, Times3(x))) == 0
    ensures Sum4(Mul(0x0d, x), Mul(0x09, Times3(x)), Mul(0x0e, XTime(x)), Mul(0x0b, x)) == x
    ensures Sum4(Mul(0x0d, x), Mul(0x09, x), Mul(0x0e, Times3(x)), Mul(0x0b, XTime(x))) == 0
    ensures Sum4(Mul(0x0d, XTime(x)), Mul(0x09, x), Mul(0x0e, x), Mul(0x0b, Times3(x))) == 0
    ensures Sum4(Mul(0x0d, Times3(x)), Mul(0x09, XTime(x)), Mul(0x0e, x), Mul(0x0b, x)) == 0
    ensures Sum4(Mul(0x0b, x), Mul(0x0d, x), Mul(0x09, Times3(x)), Mul(0x0e, XTime(x))) == x
    ensures Sum4(Mul(0x0b, XTime(x)), Mul(0x0d, x), Mul(0x09, x), Mul(0x0e, Times3(x))) == 0
    ensures Sum4(Mul(0x0b, Times3(x)), Mul(0x0d, XTime(x)), Mul(0x09, x), Mul(0x0e, x)) == 0
    ensures Sum4(Mul(0x0b, x), Mul(0x0d, Times3(x)), Mul(0x09, XTime(x)), Mul(0x0e, x)) == 0
  {
    hide Mul, XTime, Times3, Sum4;
    MatrixProducts(x);
    Rotations(Mul(0x0e, XTime(x)), Mul(0x0b, x), Mul(0x0d, x), Mul(0x09, Times3(x)));
    Rotations(Mul(0x0e, Times3(x)), Mul(0x0b, XTime(x)), Mul(0x0d, x), Mul(0x09, x));
    Rotations(Mul(0x0e, x), Mul(0x0b, Times3(x)), Mul(0x0d, XTime(x)), Mul(0x09, x));
    Rotations(Mul(0x0e, x), Mul(0x0b, x), Mul(0x0d, Times3(x)), Mul(0x09, XTime(x)));
  }

  lemma Rotations(a: bv8, b: bv8, c: bv8, d: bv8)
    ensures Sum4(d, a, b, c) == Sum4(a, b, c, d)
    ensures Sum4(c, d, a, b) == Sum4(a, b, c, d)
    ensures Sum4(b, c, d, a) == Sum4(a, b, c, d)
  {
    hide Sum4;
    Sum4Rotate(a, b, c, d);
    Sum4Rotate(d, a, b, c);
    Sum4Rotate(c, d, a, b);
  }

  /** Section 5.3.3: the inverse matrix undoes the MixColumns matrix on every column. */
  lemma MixColumnInverts(c: Column)
    ensures InvMixColumn(MixColumn(c)) == c
  {
    hide Mul, XTime, Times3, Sum4, MixColumn;
    RowByInput(0x0e, 0x0b, 0x0d, 0x09, c);
    RowByInput(0x09, 0x0e, 0x0b, 0x0d, c);
    RowByInput(0x0d, 0x09, 0x0e, 0x0b, c);
    RowByInput(0x0b, 0x0d, 0x09, 0x0e, c);
    MatrixProducts(c.b0);
    MatrixProducts(c.b1);
    MatrixProducts(c.b2);
    MatrixProducts(c.b3);
    RotatedProducts(c.b0);
    RotatedProducts(c.b1);
    RotatedProducts(c.b2);
    RotatedProducts(c.b3);
    Sum4Unit(c.b0);
    Sum4Unit(c.b1);
    Sum4Unit(c.b2);
    Sum4Unit(c.b3);
  }

  lemma InvMixColumnAdd(c: Column, d: Column)
    ensures InvMixColumn(AddColumn(c, d)) == AddColumn(InvMixColumn(c), InvMixColumn(d))
  {
    hide Mul, Sum4, Add;
    InvRowAdd(0x0e, 0x0b, 0x0d, 0x09, c, d);
    InvRowAdd(0x09, 0x0e, 0x0b, 0x0d, c, d);
    InvRowAdd(0x0d, 0x09, 0x0e, 0x0b, c, d);
    InvRowAdd(0x0b, 0x0d, 0x09, 0x0e, c, d);
  }

  lemma InvRowAdd(k0: bv8, k1: bv8, k2: bv8, k3: bv8, c: Column, d: Column)
    ensures Sum4(Mul(k0, Add(c.b0, d.b0)), Mul(k1, Add(c.b1, d.b1)), Mul(k2, Add(c.b2, d.b2)), Mul(k3, Add(c.b3, d.b3)))
         == Add(Sum4(Mul(k0, c.b0), Mul(k1, c.b1), Mul(k2, c.b2), Mul(k3, c.b3)),
                Sum4(Mul(k0, d.b0), Mul(k1, d.b1), Mul(k2, d.b2), Mul(k3, d.b3)))
  {
    hide Mul, Sum4, Add;
    MulAdd(k0, c.b0, d.b0);
    MulAdd(k1, c.b1, d.b1);
    MulAdd(k2, c.b2, d.b2);
    MulAdd(k3, c.b3, d.b3);
    Sum4Swap(Mul(k0, c.b0), Mul(k1, c.b1), Mul(k2, c.b2), Mul(k3, c.b3),
             Mul(k0, d.b0), Mul(k1, d.b1), Mul(k2, d.b2), Mul(k3, d.b3));
  }

  // ---------- the state and the four transformations ----------

  datatype State = State(c0: Column, c1: Column, c2: Column, c3: Column)

  ghost function SubColumn(c: Column): Column {
    Column(SBox(c.b0), SBox(c.b1), SBox(c.b2), SBox(c.b3))
  }

  ghost function InvSubColumn(c: Column): Column {
    Column(InvSBox(c.b0), InvSBox(c.b1), InvSBox(c.b2), InvSBox(c.b3))
  }

  ghost function SubBytes(s: State): State {
    State(SubColumn(s.c0), SubColumn(s.c1), SubColumn(s.c2), SubColumn(s.c3))
  }

  ghost function InvSubBytes(s: State): State {
    State(InvSubColumn(s.c0), InvSubColumn(s.c1), InvSubColumn(s.c2), InvSubColumn(s.c3))
  }

  /** Row r moves left by r columns, section 5.1.2. */
  function ShiftRows(s: State): State {
    State(Column(s.c0.b0, s.c1.b1, s.c2.b2, s.c3.b3),
          Column(s.c1.b0, s.c2.b1, s.c3.b2, s.c0.b3),
          Column(s.c2.b0, s.c3.b1, s.c0.b2, s.c1.b3),
          Column(s.c3.b0, s.c0.b1, s.c1.b2, s.c2.b3))
  }

  /** Row r moves right by r columns, section 5.3.1. */
  function InvShiftRows(s: State): State {
    State(Column(s.c0.b0, s.c3.b1, s.c2.b2, s.c1.b3),
          Column(s.c1.b0, s.c0.b1, s.c3.b2, s.c2.b3),
          Column(s.c2.b0, s.c1.b1, s.c0.b2, s.c3.b3),
          Column(s.c3.b0, s.c2.b1, s.c1.b2, s.c0.b3))
  }

  function MixColumns(s: State): State {
    State(MixColumn(s.c0), MixColumn(s.c1), MixColumn(s.c2), MixColumn(s.c3))
  }

  function InvMixColumns(s: State): State {
    State(InvMixColumn(s.c0), InvMixColumn(s.c1), InvMixColumn(s.c2), InvMixColumn(s.c3))
  }

  function AddRoundKey(s: State, k: State): State {
    State(AddColumn(s.c0, k.c0), AddColumn(s.c1, k.c1), AddColumn(s.c2, k.c2), AddColumn(s.c3, k.c3))
  }

  // ---------- sections 5.1, 5.3 and 5.3.5 ----------

  /** The state after the initial key addition and r full rounds. */
  ghost function AfterRounds(input: State, w: seq<State>, r: nat): State
    requires r < |w|
  {
    if r == 0 then AddRoundKey(input, w[0])
    else AddRoundKey(MixColumns(ShiftRows(SubBytes(AfterRounds(input, w, r - 1)))), w[r])
  }

  /** Cipher(in, w), section 5.1, with Nr = |w| - 1 rounds. */
  ghost function Cipher(input: State, w: seq<State>): State
    requires |w| >= 2
  {
    var nr := |w| - 1;
    AddRoundKey(ShiftRows(SubBytes(AfterRounds(input, w, nr - 1))), w[nr])
  }

  /** The state of InvCipher after its initial key addition and r full rounds, section 5.3. */
  ghost function AfterInvRounds(input: State, w: seq<State>, r: nat): State
    requires r < |w|
  {
    var nr := |w| - 1;
    if r == 0 then AddRoundKey(input, w[nr])
    else InvMixColumns(AddRoundKey(InvSubBytes(InvShiftRows(AfterInvRounds(input, w, r - 1))), w[nr - r]))
  }

  ghost function InvCipher(input: State, w: seq<State>): State
    requires |w| >= 2
  {
    AddRoundKey(InvSubBytes(InvShiftRows(AfterInvRounds(input, w, |w| - 2))), w[0])
  }

  /** The schedule of the equivalent inverse cipher in the order the rounds use it, section 5.3.5. */
  function DecryptionKeys(w: seq<State>): (dw: seq<State>)
    requires |w| >= 2
    ensures |dw| == |w| && dw[0] == w[|w| - 1] && dw[|w| - 1] == w[0]
  {
    seq(|w|, i requires 0 <= i < |w| =>
      if i == 0 || i == |w| - 1 then w[|w| - 1 - i] else InvMixColumns(w[|w| - 1 - i]))
  }

  lemma DecryptionKeyAt(w: seq<State>, r: nat)
    requires |w| >= 2 && r < |w|
    ensures DecryptionKeys(w)[r] == if r == 0 || r == |w| - 1 then w[|w| - 1 - r] else InvMixColumns(w[|w| - 1 - r])
  {
  }

  ghost function AfterEqInvRounds(input: State, dw: seq<State>, r: nat): State
    requires r < |dw|
  {
    if r == 0 then AddRoundKey(input, dw[0])
    else AddRoundKey(InvMixColumns(InvShiftRows(InvSubBytes(AfterEqInvRounds(input, dw, r - 1)))), dw[r])
  }

  ghost function EqInvCipher(input: State, dw: seq<State>): State
    requires |dw| >= 2
  {
    var nr := |dw| - 1;
    AddRoundKey(InvShiftRows(InvSubBytes(AfterEqInvRounds(input, dw, nr - 1))), dw[nr])
  }

  // ---------- the inverse theorems ----------

  lemma ColumnXorTwice(c: Column, k: Column)
    ensures AddColumn(AddColumn(c, k), k) == c
  {
    AddTwice(c.b0, k.b0);
    AddTwice(c.b1, k.b1);
    AddTwice(c.b2, k.b2);
    AddTwice(c.b3, k.b3);
    hide Add;
  }

  lemma AddTwice(a: bv8, b: bv8)
    ensures Add(Add(a, b), b) == a
  {
  }

  lemma AddRoundKeyTwice(s: State, k: State)
    ensures AddRoundKey(AddRoundKey(s, k), k) == s
  {
    hide AddColumn;
    ColumnXorTwice(s.c0, k.c0);
    ColumnXorTwice(s.c1, k.c1);
    ColumnXorTwice(s.c2, k.c2);
    ColumnXorTwice(s.c3, k.c3);
  }

  lemma SubColumnInverts(c: Column)
    ensures InvSubColumn(SubColumn(c)) == c
  {
    hide SBox, InvSBox;
    SBoxInverts(c.b0);
    SBoxInverts(c.b1);
    SBoxInverts(c.b2);
    SBoxInverts(c.b3);
  }

  lemma SubBytesInverts(s: State)
    ensures InvSubBytes(SubBytes(s)) == s
  {
    hide SubColumn, InvSubColumn;
    SubColumnInverts(s.c0);
    SubColumnInverts(s.c1);
    SubColumnInverts(s.c2);
    SubColumnInverts(s.c3);
  }

  lemma ShiftThenSub(s: State)
    ensures InvShiftRows(InvSubBytes(s)) == InvSubBytes(InvShiftRows(s))
    ensures InvShiftRows(ShiftRows(s)) == s
  {
    hide InvSBox;
  }

  lemma UnshiftUnsub(s: State)
    ensures InvShiftRows(InvSubBytes(ShiftRows(SubBytes(s)))) == s
  {
    hide InvSubBytes, SubBytes, ShiftRows, InvShiftRows;
    ShiftThenSub(ShiftRows(SubBytes(s)));
    ShiftThenSub(SubBytes(s));
    SubBytesInverts(s);
  }

  lemma MixColumnsInverts(s: State)
    ensures InvMixColumns(MixColumns(s)) == s
  {
    hide MixColumn, InvMixColumn;
    MixColumnInverts(s.c0);
    MixColumnInverts(s.c1);
    MixColumnInverts(s.c2);
    MixColumnInverts(s.c3);
  }

  lemma InvMixColumnsAdd(s: State, k: State)
    ensures InvMixColumns(AddRoundKey(s, k)) == AddRoundKey(InvMixColumns(s), InvMixColumns(k))
  {
    hide AddColumn, InvMixColumn;
    InvMixColumnAdd(s.c0, k.c0);
    InvMixColumnAdd(s.c1, k.c1);
    InvMixColumnAdd(s.c2, k.c2);
    InvMixColumnAdd(s.c3, k.c3);
  }

  /** After r rounds of decryption the state is the one encryption had before ShiftRows and SubBytes of round Nr - r. */
  lemma {:induction false} RoundsUnwind(input: State, w: seq<State>, r: nat)
    requires |w| >= 2 && r < |w| - 1
    ensures AfterEqInvRounds(Cipher(input, w), DecryptionKeys(w), r)
         == ShiftRows(SubBytes(AfterRounds(input, w, |w| - 2 - r)))
  {
    hide SubBytes, InvSubBytes, ShiftRows, InvShiftRows, MixColumns, InvMixColumns, AddRoundKey;
    var nr := |w| - 1;
    var dw := DecryptionKeys(w);
    if r == 0 {
      AddRoundKeyTwice(ShiftRows(SubBytes(AfterRounds(input, w, nr - 1))), w[nr]);
    } else {
      RoundsUnwind(input, w, r - 1);
      var s := AfterRounds(input, w, nr - r);
      UnshiftUnsub(s);
      var m := MixColumns(ShiftRows(SubBytes(AfterRounds(input, w, nr - 1 - r))));
      assert s == AddRoundKey(m, w[nr - r]);
      InvMixColumnsAdd(m, w[nr - r]);
      MixColumnsInverts(ShiftRows(SubBytes(AfterRounds(input, w, nr - 1 - r))));
      AddRoundKeyTwice(InvMixColumns(m), InvMixColumns(w[nr - r]));
    }
  }

  /** Section 5.3.5: under its own schedule the equivalent inverse cipher undoes the cipher on every block. */
  lemma EqInvCipherInverts(input: State, w: seq<State>)
    requires |w| >= 2
    ensures EqInvCipher(Cipher(input, w), DecryptionKeys(w)) == input
  {
    hide SubBytes, InvSubBytes, ShiftRows, InvShiftRows, MixColumns, InvMixColumns, AddRoundKey, AfterEqInvRounds;
    RoundsUnwind(input, w, |w| - 2);
    UnshiftUnsub(AddRoundKey(input, w[0]));
    AddRoundKeyTwice(input, w[0]);
  }

  lemma {:induction false} InverseRoundsAgree(input: State, w: seq<State>, r: nat)
    requires |w| >= 2 && r < |w| - 1
    ensures AfterEqInvRounds(input, DecryptionKeys(w), r) == AfterInvRounds(input, w, r)
  {
    hide SubBytes, InvSubBytes, ShiftRows, InvShiftRows, MixColumns, InvMixColumns, AddRoundKey;
    if r > 0 {
      InverseRoundsAgree(input, w, r - 1);
      var s := AfterInvRounds(input, w, r - 1);
      ShiftThenSub(s);
      InvMixColumnsAdd(InvSubBytes(InvShiftRows(s)), w[|w| - 1 - r]);
    }
  }

  /** Sections 5.3 and 5.3.5 describe the same function, on every block and every schedule. */
  lemma EqInvCipherIsInvCipher(input: State, w: seq<State>)
    requires |w| >= 2
    ensures EqInvCipher(input, DecryptionKeys(w)) == InvCipher(input, w)
  {
    hide SubBytes, InvSubBytes, ShiftRows, InvShiftRows, MixColumns, InvMixColumns, AddRoundKey;
    InverseRoundsAgree(input, w, |w| - 2);
    ShiftThenSub(AfterInvRounds(input, w, |w| - 2));
  }

  // ---------- the key expansion, section 5.2 ----------

  function RotWord(c: Column): Column {
    Column(c.b1, c.b2, c.b3, c.b0)
  }

  /** On the word a0 a1 a2 a3 as one number, most significant byte first, that is a turn to the left by eight bits. */
  lemma RotWordTurns(c: Column)
    ensures var w, d := WordBE(c.b0, c.b1, c.b2, c.b3), RotWord(c);
      WordBE(d.b0, d.b1, d.b2, d.b3) == (w << 8) | (w >> 24)
  {
    hide WordBE;
    BytesTurn(c.b0, c.b1, c.b2, c.b3);
  }

  lemma BytesTurn(a: bv8, b: bv8, c: bv8, d: bv8)
    ensures WordBE(b, c, d, a) == (WordBE(a, b, c, d) << 8) | (WordBE(a, b, c, d) >> 24)
  {
  }

  /** {02} to the n-th power, the first byte of Rcon[n + 1]. */
  function Pow2(n: nat): bv8 {
    if n == 0 then 1 else XTime(Pow2(n - 1))
  }

  function AddFirst(c: Column, b: bv8): Column {
    Column(Add(c.b0, b), c.b1, c.b2, c.b3)
  }

  lemma FullTurns(i: nat, nk: nat)
    requires 0 < nk <= i
    ensures i / nk >= 1
  {
  }

  ghost function KeyWord(key: seq<Column>, i: nat): Column
    requires |key| > 0
  {
    var nk := |key|;
    if i < nk then key[i]
    else
      FullTurns(i, nk);
      var temp := KeyWord(key, i - 1);
      var t := if i % nk == 0 then AddFirst(SubColumn(RotWord(temp)), Pow2(i / nk - 1))
               else if nk > 6 && i % nk == 4 then SubColumn(temp)
               else temp;
      AddColumn(KeyWord(key, i - nk), t)
  }

  /** Byte r of a column. */
  function ByteOfColumn(c: Column, r: nat): bv8
    requires r < 4
  {
    if r == 0 then c.b0 else if r == 1 then c.b1 else if r == 2 then c.b2 else c.b3
  }

  /**
    What byte r of word i is made of besides the byte Nk words before: once in Nk words the S-box of
    byte r + 1 of the word before, with the round constant on byte 0.
   */
  ghost function AddedByte(key: seq<Column>, i: nat, r: nat): bv8
    requires 0 < |key| <= i && r < 4
  {
    FullTurns(i, |key|);
    var temp := KeyWord(key, i - 1);
    if i % |key| == 0 then Add(SBox(ByteOfColumn(temp, (r + 1) % 4)), if r == 0 then Pow2(i / |key| - 1) else 0)
    else if |key| > 6 && i % |key| == 4 then SBox(ByteOfColumn(temp, r))
    else ByteOfColumn(temp, r)
  }

  lemma ScheduleBytes(key: seq<Column>, i: nat, r: nat)
    requires |key| > 0 && r < 4
    ensures i < |key| ==> KeyWord(key, i) == key[i]
    ensures i >= |key| ==>
      ByteOfColumn(KeyWord(key, i), r) == Add(ByteOfColumn(KeyWord(key, i - |key|), r), AddedByte(key, i, r))
  {
    hide SBox, Add, Pow2, KeyWord;
    NextKeyWord(key, i);
    if i >= |key| {
      var temp := KeyWord(key, i - 1);
      AddNothing(SBox(temp.b2));
      AddNothing(SBox(temp.b3));
      AddNothing(SBox(temp.b0));
      if r == 0 {
      } else if r == 1 {
      } else if r == 2 {
      } else {
      }
    }
  }

  lemma NextKeyWord(key: seq<Column>, i: nat)
    requires |key| > 0
    ensures i < |key| ==> KeyWord(key, i) == key[i]
    ensures i >= |key| ==> i / |key| >= 1
    ensures i >= |key| ==>
      KeyWord(key, i) == AddColumn(KeyWord(key, i - |key|),
        if i % |key| == 0 then AddFirst(SubColumn(RotWord(KeyWord(key, i - 1))), Pow2(i / |key| - 1))
        else if |key| > 6 && i % |key| == 4 then SubColumn(KeyWord(key, i - 1))
        else KeyWord(key, i - 1))
  {
    hide AddColumn, AddFirst, SubColumn, RotWord, Pow2;
    if i >= |key| {
      FullTurns(i, |key|);
    }
  }

  lemma AddNothing(a: bv8)
    ensures Add(a, 0) == a
  {
  }

  function ColumnOfState(s: State, c: nat): Column
    requires c < 4
  {
    if c == 0 then s.c0 else if c == 1 then s.c1 else if c == 2 then s.c2 else s.c3
  }

  /** Row r of column c comes from column c + r, and back again, section 5.1.2 and 5.3.1. */
  lemma RowsShift(s: State, r: nat, c: nat)
    requires r < 4 && c < 4
    ensures ByteOfColumn(ColumnOfState(ShiftRows(s), c), r) == ByteOfColumn(ColumnOfState(s, (c + r) % 4), r)
    ensures ByteOfColumn(ColumnOfState(InvShiftRows(s), (c + r) % 4), r) == ByteOfColumn(ColumnOfState(s, c), r)
  {
    if r == 0 {
    } else if r == 1 {
      assert (c + 1) % 4 == if c == 3 then 0 else c + 1;
    } else if r == 2 {
      assert (c + 2) % 4 == if c >= 2 then c - 2 else c + 2;
    } else {
      assert (c + 3) % 4 == if c == 0 then 3 else c - 1;
    }
  }

  /** Row r of a mixed column: {02} times its own byte, {03} times the next, and the other two, section 5.1.3. */
  lemma RowsMix(c: Column, r: nat)
    requires r < 4
    ensures ByteOfColumn(MixColumn(c), r) ==
      Sum4(Mul(0x02, ByteOfColumn(c, r)), Mul(0x03, ByteOfColumn(c, (r + 1) % 4)),
           ByteOfColumn(c, (r + 2) % 4), ByteOfColumn(c, (r + 3) % 4))
  {
    hide Mul, Sum4, XTime, Times3;
    TwoAndThree(ByteOfColumn(c, r));
    TwoAndThree(ByteOfColumn(c, (r + 1) % 4));
    Sum4Turns(Times3(c.b0), c.b1, c.b2, XTime(c.b3));
    Sum4Turns(c.b0, c.b1, XTime(c.b2), Times3(c.b3));
    Sum4Turns(c.b0, XTime(c.b1), Times3(c.b2), c.b3);
    if r == 0 {
    } else if r == 1 {
    } else if r == 2 {
    } else {
    }
  }

  lemma TwoAndThree(x: bv8)
    ensures Mul(0x02, x) == XTime(x) && Mul(0x03, x) == Times3(x)
  {
    hide MulBits, XTime, Add;
    TwoIsXTime();
    MulOne(x);
    MulTimes3(1, x);
    MulBitsXTime(1, x, 8);
  }

  lemma TwoIsXTime()
    ensures XTime(1) == 0x02 && Times3(1) == 0x03
  {
  }

  lemma Sum4Turns(a: bv8, b: bv8, c: bv8, d: bv8)
    ensures Sum4(a, b, c, d) == Sum4(d, a, b, c) == Sum4(c, d, a, b) == Sum4(b, c, d, a)
  {
    hide Sum4;
    Sum4Rotate(a, b, c, d);
    Sum4Rotate(b, c, d, a);
    Sum4Rotate(c, d, a, b);
    Sum4Rotate(d, a, b, c);
  }

  ghost function RoundKey(key: seq<Column>, r: nat): State
    requires |key| > 0
  {
    State(KeyWord(key, 4 * r), KeyWord(key, 4 * r + 1), KeyWord(key, 4 * r + 2), KeyWord(key, 4 * r + 3))
  }

  /** All Nr + 1 round keys; Nr is Nk + 6, figure 4. */
  ghost function KeyExpansion(key: seq<Column>): (w: seq<State>)
    requires |key| > 0
    ensures |w| == |key| + 7
  {
    seq(|key| + 7, r requires 0 <= r => RoundKey(key, r))
  }
}
