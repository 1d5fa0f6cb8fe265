/**
  The cipher example with a 128-bit key of appendix C.1 of FIPS 197, computed step by step from the
  definition: from the key 00 01 .. 0f and the block 00 11 .. ff to the block 69 c4 .. 5a. It fixes
  the field, the S-box, the matrix and all directions of turning at once.
 */
module AesVector {
  import opened Gf256
  import opened GfPowers
  import opened Fips197
  import opened AesTables
  import opened Aes

  // ---------- the S-box where it is used ----------

  function Term(a: bv8, b: bv8): bv8 {
    if LowBit(b) then a else 0
  }

  /** The product written out, one term for each bit of b. */
  function Product(a: bv8, b: bv8): bv8 {
    var a1, b1 := XTime(a), Half(b);
    var a2, b2 := XTime(a1), Half(b1);
    var a3, b3 := XTime(a2), Half(b2);
    var a4, b4 := XTime(a3), Half(b3);
    var a5, b5 := XTime(a4), Half(b4);
    var a6, b6 := XTime(a5), Half(b5);
    var a7, b7 := XTime(a6), Half(b6);
    Add(Term(a, b), Add(Term(a1, b1), Add(Term(a2, b2), Add(Term(a3, b3),
      Add(Term(a4, b4), Add(Term(a5, b5), Add(Term(a6, b6), Add(Term(a7, b7), 0))))))))
  }

  lemma MulStep(a: bv8, b: bv8, k: nat)
    ensures MulBits(a, b, 0) == 0
    ensures k > 0 ==> MulBits(a, b, k) == Add(Term(a, b), MulBits(XTime(a), Half(b), k - 1))
  {
    hide Add, XTime, Half, LowBit;
  }

  lemma ProductIsMul(a: bv8, b: bv8)
    ensures Product(a, b) == Mul(a, b)
  {
    hide Add, XTime, Half, Term, MulBits;
    var a1, b1 := XTime(a), Half(b);
    var a2, b2 := XTime(a1), Half(b1);
    var a3, b3 := XTime(a2), Half(b2);
    var a4, b4 := XTime(a3), Half(b3);
    var a5, b5 := XTime(a4), Half(b4);
    var a6, b6 := XTime(a5), Half(b5);
    var a7, b7 := XTime(a6), Half(b6);
    MulStep(a, b, 8);
    MulStep(a1, b1, 7);
    MulStep(a2, b2, 6);
    MulStep(a3, b3, 5);
    MulStep(a4, b4, 4);
    MulStep(a5, b5, 3);
    MulStep(a6, b6, 2);
    MulStep(a7, b7, 1);
    MulStep(XTime(a7), Half(b7), 0);
  }

  /** The S-box value of a, when b is its inverse. */
  lemma Box(a: bv8, b: bv8, s: bv8)
    requires (a == 0 && b == 0) || (a != 0 && Product(a, b) == 1)
    requires FourRotated(b) == s
    ensures SBox(a) == s
  {
    hide Mul, Product, Affine, FourRotated;
    ProductIsMul(a, b);
    AffineRotates(b);
    InverseUnique(a, b, Inverse(a));
  }

  lemma Boxes0()
    ensures SBox(0x00) == 0x63 && SBox(0x02) == 0x77 && SBox(0x04) == 0xf2 && SBox(0x05) == 0x6b
    ensures SBox(0x09) == 0x01 && SBox(0x0a) == 0x67 && SBox(0x0b) == 0x2b && SBox(0x0c) == 0xfe
  {
    hide SBox;
    Box(0x00, 0x00, 0x63);
    Box(0x02, 0x8d, 0x77);
    Box(0x04, 0xcb, 0xf2);
    Box(0x05, 0x52, 0x6b);
    Box(0x09, 0x4f, 0x01);
    Box(0x0a, 0x29, 0x67);
    Box(0x0b, 0xc0, 0x2b);
    Box(0x0c, 0xb0, 0xfe);
  }

  lemma Boxes1()
    ensures SBox(0x0d) == 0xd7 && SBox(0x0e) == 0xab && SBox(0x0f) == 0x76 && SBox(0x10) == 0xca
    ensures SBox(0x12) == 0xc9 && SBox(0x15) == 0x59 && SBox(0x16) == 0x47 && SBox(0x17) == 0xf0
  {
    hide SBox;
    Box(0x0d, 0xe1, 0xd7);
    Box(0x0e, 0xe5, 0xab);
    Box(0x0f, 0xc7, 0x76);
    Box(0x10, 0x74, 0xca);
    Box(0x12, 0xaa, 0xc9);
    Box(0x15, 0x2b, 0x59);
    Box(0x16, 0x60, 0x47);
    Box(0x17, 0x5f, 0xf0);
  }

  lemma Boxes2()
    ensures SBox(0x18) == 0xad && SBox(0x19) == 0xd4 && SBox(0x1f) == 0xc0 && SBox(0x20) == 0xb7
    ensures SBox(0x21) == 0xfd && SBox(0x22) == 0x93 && SBox(0x23) == 0x26 && SBox(0x24) == 0x36
  {
    hide SBox;
    Box(0x18, 0x58, 0xad);
    Box(0x19, 0x3f, 0xd4);
    Box(0x1f, 0xb2, 0xc0);
    Box(0x20, 0x3a, 0xb7);
    Box(0x21, 0x6e, 0xfd);
    Box(0x22, 0x5a, 0x93);
    Box(0x23, 0xf1, 0x26);
    Box(0x24, 0x55, 0x36);
  }

  lemma Boxes3()
    ensures SBox(0x25) == 0x3f && SBox(0x26) == 0xf7 && SBox(0x28) == 0x34 && SBox(0x2c) == 0x71
    ensures SBox(0x2d) == 0xd8 && SBox(0x2f) == 0x15 && SBox(0x30) == 0x04 && SBox(0x31) == 0xc7
  {
    hide SBox;
    Box(0x25, 0x4d, 0x3f);
    Box(0x26, 0xa8, 0xf7);
    Box(0x28, 0xc1, 0x34);
    Box(0x2c, 0x30, 0x71);
    Box(0x2d, 0x44, 0xd8);
    Box(0x2f, 0xc2, 0x15);
    Box(0x30, 0x2c, 0x04);
    Box(0x31, 0x45, 0xc7);
  }

  lemma Boxes4()
    ensures SBox(0x32) == 0x23 && SBox(0x35) == 0x96 && SBox(0x37) == 0x9a && SBox(0x39) == 0x12
    ensures SBox(0x3b) == 0xe2 && SBox(0x3d) == 0x27 && SBox(0x40) == 0x09 && SBox(0x41) == 0x83
  {
    hide SBox;
    Box(0x32, 0x92, 0x23);
    Box(0x35, 0x39, 0x96);
    Box(0x37, 0x42, 0x9a);
    Box(0x39, 0x35, 0x12);
    Box(0x3b, 0x6f, 0xe2);
    Box(0x3d, 0xbb, 0x27);
    Box(0x40, 0x1d, 0x09);
    Box(0x41, 0xfe, 0x83);
  }

  lemma Boxes5()
    ensures SBox(0x42) == 0x2c && SBox(0x43) == 0x1a && SBox(0x47) == 0xa0 && SBox(0x49) == 0x3b
    ensures SBox(0x4d) == 0xe3 && SBox(0x4e) == 0x2f && SBox(0x50) == 0x53 && SBox(0x55) == 0xfc
  {
    hide SBox;
    Box(0x42, 0x37, 0x2c);
    Box(0x43, 0x67, 0x1a);
    Box(0x47, 0x69, 0xa0);
    Box(0x49, 0x64, 0x3b);
    Box(0x4d, 0x25, 0xe3);
    Box(0x4e, 0xe9, 0x2f);
    Box(0x50, 0xed, 0x53);
    Box(0x55, 0x24, 0xfc);
  }

  lemma Boxes6()
    ensures SBox(0x57) == 0x5b && SBox(0x59) == 0xcb && SBox(0x5a) == 0xbe && SBox(0x5b) == 0x39
    ensures SBox(0x5d) == 0x4c && SBox(0x5e) == 0x58 && SBox(0x60) == 0xd0 && SBox(0x61) == 0xef
  {
    hide SBox;
    Box(0x57, 0xbf, 0x5b);
    Box(0x59, 0x3e, 0xcb);
    Box(0x5a, 0x22, 0xbe);
    Box(0x5b, 0xf0, 0x39);
    Box(0x5d, 0xec, 0x4c);
    Box(0x5e, 0x61, 0x58);
    Box(0x60, 0x16, 0xd0);
    Box(0x61, 0x5e, 0xef);
  }

  lemma Boxes7()
    ensures SBox(0x63) == 0xfb && SBox(0x66) == 0x33 && SBox(0x68) == 0x45 && SBox(0x69) == 0xf9
    ensures SBox(0x6a) == 0x02 && SBox(0x6b) == 0x7f && SBox(0x6c) == 0x50 && SBox(0x6e) == 0x9f
  {
    hide SBox;
    Box(0x63, 0xd3, 0xfb);
    Box(0x66, 0x36, 0x33);
    Box(0x68, 0xf4, 0x45);
    Box(0x69, 0x47, 0xf9);
    Box(0x6a, 0x91, 0x02);
    Box(0x6b, 0xdf, 0x7f);
    Box(0x6c, 0x33, 0x50);
    Box(0x6e, 0x21, 0x9f);
  }

  lemma Boxes8()
    ensures SBox(0x6f) == 0xa8 && SBox(0x70) == 0x51 && SBox(0x72) == 0x40 && SBox(0x75) == 0x9d
    ensures SBox(0x76) == 0x38 && SBox(0x77) == 0xf5 && SBox(0x79) == 0xb6 && SBox(0x7a) == 0xda
  {
    hide SBox;
    Box(0x6f, 0x3b, 0xa8);
    Box(0x70, 0x79, 0x51);
    Box(0x72, 0x97, 0x40);
    Box(0x75, 0xb5, 0x9d);
    Box(0x76, 0xba, 0x38);
    Box(0x77, 0x3c, 0xf5);
    Box(0x79, 0x70, 0xb6);
    Box(0x7a, 0xd0, 0xda);
  }

  lemma Boxes9()
    ensures SBox(0x7c) == 0x10 && SBox(0x80) == 0xcd && SBox(0x84) == 0x5f && SBox(0x85) == 0x97
    ensures SBox(0x87) == 0x17 && SBox(0x88) == 0xc4 && SBox(0x89) == 0xa7 && SBox(0x8a) == 0x7e
  {
    hide SBox;
    Box(0x7c, 0xa1, 0x10);
    Box(0x80, 0x83, 0xcd);
    Box(0x84, 0x96, 0x5f);
    Box(0x85, 0x73, 0x97);
    Box(0x87, 0x56, 0x17);
    Box(0x88, 0x9b, 0xc4);
    Box(0x89, 0x9e, 0xa7);
    Box(0x8a, 0x95, 0x7e);
  }

  lemma Boxes10()
    ensures SBox(0x8b) == 0x3d && SBox(0x8d) == 0x5d && SBox(0x8f) == 0x73 && SBox(0x90) == 0x60
    ensures SBox(0x92) == 0x4f && SBox(0x94) == 0x22 && SBox(0x96) == 0x90 && SBox(0x97) == 0x88
  {
    hide SBox;
    Box(0x8b, 0xd9, 0x3d);
    Box(0x8d, 0x02, 0x5d);
    Box(0x8f, 0xa4, 0x73);
    Box(0x90, 0xde, 0x60);
    Box(0x92, 0x32, 0x4f);
    Box(0x94, 0xd8, 0x22);
    Box(0x96, 0x84, 0x90);
    Box(0x97, 0x72, 0x88);
  }

  lemma Boxes11()
    ensures SBox(0x9b) == 0x14 && SBox(0x9e) == 0x0b && SBox(0xa0) == 0xe0 && SBox(0xa3) == 0x0a
    ensures SBox(0xa9) == 0xd3 && SBox(0xaa) == 0xac && SBox(0xab) == 0x62 && SBox(0xad) == 0x95
  {
    hide SBox;
    Box(0x9b, 0x88, 0x14);
    Box(0x9e, 0x89, 0x0b);
    Box(0xa0, 0xfb, 0xe0);
    Box(0xa3, 0xc3, 0x0a);
    Box(0xa9, 0xc8, 0xd3);
    Box(0xaa, 0x12, 0xac);
    Box(0xab, 0x4a, 0x62);
    Box(0xad, 0xe7, 0x95);
  }

  lemma Boxes12()
    ensures SBox(0xae) == 0xe4 && SBox(0xb0) == 0xe7 && SBox(0xb3) == 0x6d && SBox(0xb4) == 0x8d
    ensures SBox(0xb5) == 0xd5 && SBox(0xb6) == 0x4e && SBox(0xba) == 0xf4 && SBox(0xbc) == 0x65
  {
    hide SBox;
    Box(0xae, 0xd2, 0xe4);
    Box(0xb0, 0x0c, 0xe7);
    Box(0xb3, 0xef, 0x6d);
    Box(0xb4, 0x11, 0x8d);
    Box(0xb5, 0x75, 0xd5);
    Box(0xb6, 0x78, 0x4e);
    Box(0xba, 0x76, 0xf4);
    Box(0xbc, 0xbd, 0x65);
  }

  lemma Boxes13()
    ensures SBox(0xbd) == 0x7a && SBox(0xbe) == 0xae && SBox(0xbf) == 0x08 && SBox(0xc0) == 0xba
    ensures SBox(0xc3) == 0x2e && SBox(0xc4) == 0x1c && SBox(0xc6) == 0xb4 && SBox(0xc8) == 0xe8
  {
    hide SBox;
    Box(0xbd, 0xbc, 0x7a);
    Box(0xbe, 0x86, 0xae);
    Box(0xbf, 0x57, 0x08);
    Box(0xc0, 0x0b, 0xba);
    Box(0xc3, 0xa3, 0x2e);
    Box(0xc4, 0xda, 0x1c);
    Box(0xc6, 0xe4, 0xb4);
    Box(0xc8, 0xa9, 0xe8);
  }

  lemma Boxes14()
    ensures SBox(0xc9) == 0xdd && SBox(0xca) == 0x74 && SBox(0xcb) == 0x1f && SBox(0xcc) == 0x4b
    ensures SBox(0xce) == 0x8b && SBox(0xcf) == 0x8a && SBox(0xd0) == 0x70 && SBox(0xd1) == 0x3e
  {
    hide SBox;
    Box(0xc9, 0x27, 0xdd);
    Box(0xca, 0x53, 0x74);
    Box(0xcb, 0x04, 0x1f);
    Box(0xcc, 0x1b, 0x4b);
    Box(0xce, 0xac, 0x8b);
    Box(0xcf, 0xe6, 0x8a);
    Box(0xd0, 0x7a, 0x70);
    Box(0xd1, 0x07, 0x3e);
  }

  lemma Boxes15()
    ensures SBox(0xd2) == 0xb5 && SBox(0xd6) == 0xf6 && SBox(0xd7) == 0x0e && SBox(0xd8) == 0x61
    ensures SBox(0xda) == 0x57 && SBox(0xe0) == 0xe1 && SBox(0xe1) == 0xf8 && SBox(0xe3) == 0x11
  {
    hide SBox;
    Box(0xd2, 0xae, 0xb5);
    Box(0xd6, 0xe2, 0xf6);
    Box(0xd7, 0xea, 0x0e);
    Box(0xd8, 0x94, 0x61);
    Box(0xda, 0xc4, 0x57);
    Box(0xe0, 0xb1, 0xe1);
    Box(0xe1, 0x0d, 0xf8);
    Box(0xe3, 0xeb, 0x11);
  }

  lemma Boxes16()
    ensures SBox(0xe4) == 0x69 && SBox(0xe5) == 0xd9 && SBox(0xe8) == 0x9b && SBox(0xed) == 0x55
    ensures SBox(0xf0) == 0x8c && SBox(0xf1) == 0xa1 && SBox(0xf2) == 0x89 && SBox(0xf4) == 0xbf
  {
    hide SBox;
    Box(0xe4, 0xc6, 0x69);
    Box(0xe5, 0x0e, 0xd9);
    Box(0xe8, 0x08, 0x9b);
    Box(0xed, 0x50, 0x55);
    Box(0xf0, 0x5b, 0x8c);
    Box(0xf1, 0x23, 0xa1);
    Box(0xf2, 0x38, 0x89);
    Box(0xf4, 0x68, 0xbf);
  }

  lemma Boxes17()
    ensures SBox(0xf6) == 0x42 && SBox(0xf7) == 0x68 && SBox(0xf9) == 0x99 && SBox(0xfa) == 0x2d
    ensures SBox(0xfd) == 0x54 && SBox(0xfe) == 0xbb
  {
    hide SBox;
    Box(0xf6, 0x03, 0x42);
    Box(0xf7, 0x8c, 0x68);
    Box(0xf9, 0x9c, 0x99);
    Box(0xfa, 0x7d, 0x2d);
    Box(0xfd, 0x1a, 0x54);
    Box(0xfe, 0x41, 0xbb);
  }

  // ---------- the key schedule ----------

  function Key(): seq<Column> {
    [Column(0x00, 0x01, 0x02, 0x03), Column(0x04, 0x05, 0x06, 0x07),
     Column(0x08, 0x09, 0x0a, 0x0b), Column(0x0c, 0x0d, 0x0e, 0x0f)]
  }

  /** The words of round key r. */
  function RowOfKeys(r: nat): (w: seq<Column>)
    ensures |w| == 4
  {
    if r == 0 then
      [Column(0x00, 0x01, 0x02, 0x03), Column(0x04, 0x05, 0x06, 0x07),
       Column(0x08, 0x09, 0x0a, 0x0b), Column(0x0c, 0x0d, 0x0e, 0x0f)]
    else if r == 1 then
      [Column(0xd6, 0xaa, 0x74, 0xfd), Column(0xd2, 0xaf, 0x72, 0xfa),
       Column(0xda, 0xa6, 0x78, 0xf1), Column(0xd6, 0xab, 0x76, 0xfe)]
    else if r == 2 then
      [Column(0xb6, 0x92, 0xcf, 0x0b), Column(0x64, 0x3d, 0xbd, 0xf1),
       Column(0xbe, 0x9b, 0xc5, 0x00), Column(0x68, 0x30, 0xb3, 0xfe)]
    else if r == 3 then
      [Column(0xb6, 0xff, 0x74, 0x4e), Column(0xd2, 0xc2, 0xc9, 0xbf),
       Column(0x6c, 0x59, 0x0c, 0xbf), Column(0x04, 0x69, 0xbf, 0x41)]
    else if r == 4 then
      [Column(0x47, 0xf7, 0xf7, 0xbc), Column(0x95, 0x35, 0x3e, 0x03),
       Column(0xf9, 0x6c, 0x32, 0xbc), Column(0xfd, 0x05, 0x8d, 0xfd)]
    else if r == 5 then
      [Column(0x3c, 0xaa, 0xa3, 0xe8), Column(0xa9, 0x9f, 0x9d, 0xeb),
       Column(0x50, 0xf3, 0xaf, 0x57), Column(0xad, 0xf6, 0x22, 0xaa)]
    else if r == 6 then
      [Column(0x5e, 0x39, 0x0f, 0x7d), Column(0xf7, 0xa6, 0x92, 0x96),
       Column(0xa7, 0x55, 0x3d, 0xc1), Column(0x0a, 0xa3, 0x1f, 0x6b)]
    else if r == 7 then
      [Column(0x14, 0xf9, 0x70, 0x1a), Column(0xe3, 0x5f, 0xe2, 0x8c),
       Column(0x44, 0x0a, 0xdf, 0x4d), Column(0x4e, 0xa9, 0xc0, 0x26)]
    else if r == 8 then
      [Column(0x47, 0x43, 0x87, 0x35), Column(0xa4, 0x1c, 0x65, 0xb9),
       Column(0xe0, 0x16, 0xba, 0xf4), Column(0xae, 0xbf, 0x7a, 0xd2)]
    else if r == 9 then
      [Column(0x54, 0x99, 0x32, 0xd1), Column(0xf0, 0x85, 0x57, 0x68),
       Column(0x10, 0x93, 0xed, 0x9c), Column(0xbe, 0x2c, 0x97, 0x4e)]
    else
      [Column(0x13, 0x11, 0x1d, 0x7f), Column(0xe3, 0x94, 0x4a, 0x17),
       Column(0xf3, 0x07, 0xa7, 0x8b), Column(0x4d, 0x2b, 0x30, 0xc5)]
  }

  ghost predicate Extends(r: nat)
    requires r > 0
  {
    var v, w := RowOfKeys(r - 1), RowOfKeys(r);
    && w[0] == AddColumn(v[0], AddFirst(SubColumn(RotWord(v[3])), Pow2(r - 1)))
    && w[1] == AddColumn(v[1], w[0]) && w[2] == AddColumn(v[2], w[1]) && w[3] == AddColumn(v[3], w[2])
  }

  lemma Keys1()
    ensures Extends(1)
  {
    hide SBox;
    Boxes0();
    Boxes1();
  }

  lemma Keys2()
    ensures Extends(2)
  {
    hide SBox;
    Boxes8();
    Boxes11();
    Boxes15();
    Boxes17();
  }

  lemma Keys3()
    ensures Extends(3)
  {
    hide SBox;
    Boxes3();
    Boxes7();
    Boxes12();
    Boxes17();
  }

  lemma Keys4()
    ensures Extends(4)
  {
    hide SBox;
    Boxes0();
    Boxes4();
    Boxes7();
    Boxes13();
  }

  lemma Keys5()
    ensures Extends(5)
  {
    hide SBox;
    Boxes0();
    Boxes10();
    Boxes17();
  }

  lemma Keys6()
    ensures Extends(6)
  {
    hide SBox;
    Boxes2();
    Boxes11();
    Boxes17();
  }

  lemma Keys7()
    ensures Extends(7)
  {
    hide SBox;
    Boxes0();
    Boxes2();
    Boxes7();
    Boxes11();
  }

  lemma Keys8()
    ensures Extends(8)
  {
    hide SBox;
    Boxes3();
    Boxes5();
    Boxes11();
    Boxes13();
  }

  lemma Keys9()
    ensures Extends(9)
  {
    hide SBox;
    Boxes8();
    Boxes12();
    Boxes13();
    Boxes15();
  }

  lemma Keys10()
    ensures Extends(10)
  {
    hide SBox;
    Boxes3();
    Boxes5();
    Boxes10();
    Boxes13();
  }

  lemma AllExtend(r: nat)
    requires 0 < r <= 10
    ensures Extends(r)
  {
    hide Extends;
    Keys1();
    Keys2();
    Keys3();
    Keys4();
    Keys5();
    Keys6();
    Keys7();
    Keys8();
    Keys9();
    Keys10();
  }

  /** The four words of round key r from those of the one before. */
  lemma KeyStep(r: nat)
    requires r > 0
    ensures KeyWord(Key(), 4 * r) == AddColumn(KeyWord(Key(), 4 * r - 4),
      AddFirst(SubColumn(RotWord(KeyWord(Key(), 4 * r - 1))), Pow2(r - 1)))
    ensures KeyWord(Key(), 4 * r + 1) == AddColumn(KeyWord(Key(), 4 * r - 3), KeyWord(Key(), 4 * r))
    ensures KeyWord(Key(), 4 * r + 2) == AddColumn(KeyWord(Key(), 4 * r - 2), KeyWord(Key(), 4 * r + 1))
    ensures KeyWord(Key(), 4 * r + 3) == AddColumn(KeyWord(Key(), 4 * r - 1), KeyWord(Key(), 4 * r + 2))
  {
    hide SubColumn, AddColumn, AddFirst, Pow2, RotWord;
    assert 4 * r / 4 == r;
  }

  lemma {:induction false} RowIs(r: nat)
    requires r <= 10
    ensures KeyWord(Key(), 4 * r) == RowOfKeys(r)[0] && KeyWord(Key(), 4 * r + 1) == RowOfKeys(r)[1]
    ensures KeyWord(Key(), 4 * r + 2) == RowOfKeys(r)[2] && KeyWord(Key(), 4 * r + 3) == RowOfKeys(r)[3]
    decreases r
  {
    hide KeyWord, Key, SubColumn, RowOfKeys, AddColumn, AddFirst, Pow2, RotWord;
    if r == 0 {
      FirstRow();
    } else {
      RowIs(r - 1);
      KeyStep(r);
      AllExtend(r);
    }
  }

  lemma FirstRow()
    ensures KeyWord(Key(), 0) == RowOfKeys(0)[0] && KeyWord(Key(), 1) == RowOfKeys(0)[1]
    ensures KeyWord(Key(), 2) == RowOfKeys(0)[2] && KeyWord(Key(), 3) == RowOfKeys(0)[3]
  {
  }

  function Keys(r: nat): State {
    var w := RowOfKeys(r);
    State(w[0], w[1], w[2], w[3])
  }

  lemma KeysAre(r: nat)
    requires r <= 10
    ensures KeyExpansion(Key())[r] == Keys(r)
  {
    hide KeyWord, RowOfKeys;
    RowIs(r);
  }

  // ---------- the rounds ----------

  ghost function FullRound(s: State, r: nat): State {
    AddRoundKey(MixColumns(ShiftRows(SubBytes(s))), Keys(r))
  }

  lemma Substituted1()
    ensures SubBytes(State(Column(0x00, 0x10, 0x20, 0x30), Column(0x40, 0x50, 0x60, 0x70),
      Column(0x80, 0x90, 0xa0, 0xb0), Column(0xc0, 0xd0, 0xe0, 0xf0)))
      == State(Column(0x63, 0xca, 0xb7, 0x04), Column(0x09, 0x53, 0xd0, 0x51), Column(0xcd, 0x60, 0xe0, 0xe7),
        Column(0xba, 0x70, 0xe1, 0x8c))
  {
    hide SBox;
    Boxes0();
    Boxes1();
    Boxes2();
    Boxes3();
    Boxes4();
    Boxes5();
    Boxes6();
    Boxes8();
    Boxes9();
    Boxes10();
    Boxes11();
    Boxes12();
    Boxes13();
    Boxes14();
    Boxes15();
    Boxes16();
  }

  lemma Mixed1()
    ensures AddRoundKey(MixColumns(ShiftRows(State(Column(0x63, 0xca, 0xb7, 0x04), Column(0x09, 0x53, 0xd0, 0x51),
      Column(0xcd, 0x60, 0xe0, 0xe7), Column(0xba, 0x70, 0xe1, 0x8c)))),
        State(Column(0xd6, 0xaa, 0x74, 0xfd), Column(0xd2, 0xaf, 0x72, 0xfa), Column(0xda, 0xa6, 0x78, 0xf1),
          Column(0xd6, 0xab, 0x76, 0xfe)))
      == State(Column(0x89, 0xd8, 0x10, 0xe8), Column(0x85, 0x5a, 0xce, 0x68), Column(0x2d, 0x18, 0x43, 0xd8),
        Column(0xcb, 0x12, 0x8f, 0xe4))
  {
  }

  lemma Round1()
    ensures FullRound(State(Column(0x00, 0x10, 0x20, 0x30), Column(0x40, 0x50, 0x60, 0x70),
      Column(0x80, 0x90, 0xa0, 0xb0), Column(0xc0, 0xd0, 0xe0, 0xf0)), 1)
      == State(Column(0x89, 0xd8, 0x10, 0xe8), Column(0x85, 0x5a, 0xce, 0x68), Column(0x2d, 0x18, 0x43, 0xd8),
        Column(0xcb, 0x12, 0x8f, 0xe4))
  {
    hide SubBytes, ShiftRows, MixColumns, AddRoundKey;
    Substituted1();
    Mixed1();
  }

  lemma Substituted2()
    ensures SubBytes(State(Column(0x89, 0xd8, 0x10, 0xe8), Column(0x85, 0x5a, 0xce, 0x68),
      Column(0x2d, 0x18, 0x43, 0xd8), Column(0xcb, 0x12, 0x8f, 0xe4)))
      == State(Column(0xa7, 0x61, 0xca, 0x9b), Column(0x97, 0xbe, 0x8b, 0x45), Column(0xd8, 0xad, 0x1a, 0x61),
        Column(0x1f, 0xc9, 0x73, 0x69))
  {
    hide SBox;
    Boxes1();
    Boxes2();
    Boxes3();
    Boxes5();
    Boxes6();
    Boxes7();
    Boxes9();
    Boxes10();
    Boxes14();
    Boxes15();
    Boxes16();
  }

  lemma Mixed2()
    ensures AddRoundKey(MixColumns(ShiftRows(State(Column(0xa7, 0x61, 0xca, 0x9b), Column(0x97, 0xbe, 0x8b, 0x45),
      Column(0xd8, 0xad, 0x1a, 0x61), Column(0x1f, 0xc9, 0x73, 0x69)))),
        State(Column(0xb6, 0x92, 0xcf, 0x0b), Column(0x64, 0x3d, 0xbd, 0xf1), Column(0xbe, 0x9b, 0xc5, 0x00),
          Column(0x68, 0x30, 0xb3, 0xfe)))
      == State(Column(0x49, 0x15, 0x59, 0x8f), Column(0x55, 0xe5, 0xd7, 0xa0), Column(0xda, 0xca, 0x94, 0xfa),
        Column(0x1f, 0x0a, 0x63, 0xf7))
  {
  }

  lemma Round2()
    ensures FullRound(State(Column(0x89, 0xd8, 0x10, 0xe8), Column(0x85, 0x5a, 0xce, 0x68),
      Column(0x2d, 0x18, 0x43, 0xd8), Column(0xcb, 0x12, 0x8f, 0xe4)), 2)
      == State(Column(0x49, 0x15, 0x59, 0x8f), Column(0x55, 0xe5, 0xd7, 0xa0), Column(0xda, 0xca, 0x94, 0xfa),
        Column(0x1f, 0x0a, 0x63, 0xf7))
  {
    hide SubBytes, ShiftRows, MixColumns, AddRoundKey;
    Substituted2();
    Mixed2();
  }

  lemma Substituted3()
    ensures SubBytes(State(Column(0x49, 0x15, 0x59, 0x8f), Column(0x55, 0xe5, 0xd7, 0xa0),
      Column(0xda, 0xca, 0x94, 0xfa), Column(0x1f, 0x0a, 0x63, 0xf7)))
      == State(Column(0x3b, 0x59, 0xcb, 0x73), Column(0xfc, 0xd9, 0x0e, 0xe0), Column(0x57, 0x74, 0x22, 0x2d),
        Column(0xc0, 0x67, 0xfb, 0x68))
  {
    hide SBox;
    Boxes0();
    Boxes1();
    Boxes2();
    Boxes5();
    Boxes6();
    Boxes7();
    Boxes10();
    Boxes11();
    Boxes14();
    Boxes15();
    Boxes16();
    Boxes17();
  }

  lemma Mixed3()
    ensures AddRoundKey(MixColumns(ShiftRows(State(Column(0x3b, 0x59, 0xcb, 0x73), Column(0xfc, 0xd9, 0x0e, 0xe0),
      Column(0x57, 0x74, 0x22, 0x2d), Column(0xc0, 0x67, 0xfb, 0x68)))),
        State(Column(0xb6, 0xff, 0x74, 0x4e), Column(0xd2, 0xc2, 0xc9, 0xbf), Column(0x6c, 0x59, 0x0c, 0xbf),
          Column(0x04, 0x69, 0xbf, 0x41)))
      == State(Column(0xfa, 0x63, 0x6a, 0x28), Column(0x25, 0xb3, 0x39, 0xc9), Column(0x40, 0x66, 0x8a, 0x31),
        Column(0x57, 0x24, 0x4d, 0x17))
  {
  }

  lemma Round3()
    ensures FullRound(State(Column(0x49, 0x15, 0x59, 0x8f), Column(0x55, 0xe5, 0xd7, 0xa0),
      Column(0xda, 0xca, 0x94, 0xfa), Column(0x1f, 0x0a, 0x63, 0xf7)), 3)
      == State(Column(0xfa, 0x63, 0x6a, 0x28), Column(0x25, 0xb3, 0x39, 0xc9), Column(0x40, 0x66, 0x8a, 0x31),
        Column(0x57, 0x24, 0x4d, 0x17))
  {
    hide SubBytes, ShiftRows, MixColumns, AddRoundKey;
    Substituted3();
    Mixed3();
  }

  lemma Substituted4()
    ensures SubBytes(State(Column(0xfa, 0x63, 0x6a, 0x28), Column(0x25, 0xb3, 0x39, 0xc9),
      Column(0x40, 0x66, 0x8a, 0x31), Column(0x57, 0x24, 0x4d, 0x17)))
      == State(Column(0x2d, 0xfb, 0x02, 0x34), Column(0x3f, 0x6d, 0x12, 0xdd), Column(0x09, 0x33, 0x7e, 0xc7),
        Column(0x5b, 0x36, 0xe3, 0xf0))
  {
    hide SBox;
    Boxes1();
    Boxes2();
    Boxes3();
    Boxes4();
    Boxes5();
    Boxes6();
    Boxes7();
    Boxes9();
    Boxes12();
    Boxes14();
    Boxes17();
  }

  lemma Mixed4()
    ensures AddRoundKey(MixColumns(ShiftRows(State(Column(0x2d, 0xfb, 0x02, 0x34), Column(0x3f, 0x6d, 0x12, 0xdd),
      Column(0x09, 0x33, 0x7e, 0xc7), Column(0x5b, 0x36, 0xe3, 0xf0)))),
        State(Column(0x47, 0xf7, 0xf7, 0xbc), Column(0x95, 0x35, 0x3e, 0x03), Column(0xf9, 0x6c, 0x32, 0xbc),
          Column(0xfd, 0x05, 0x8d, 0xfd)))
      == State(Column(0x24, 0x72, 0x40, 0x23), Column(0x69, 0x66, 0xb3, 0xfa), Column(0x6e, 0xd2, 0x75, 0x32),
        Column(0x88, 0x42, 0x5b, 0x6c))
  {
  }

  lemma Round4()
    ensures FullRound(State(Column(0xfa, 0x63, 0x6a, 0x28), Column(0x25, 0xb3, 0x39, 0xc9),
      Column(0x40, 0x66, 0x8a, 0x31), Column(0x57, 0x24, 0x4d, 0x17)), 4)
      == State(Column(0x24, 0x72, 0x40, 0x23), Column(0x69, 0x66, 0xb3, 0xfa), Column(0x6e, 0xd2, 0x75, 0x32),
        Column(0x88, 0x42, 0x5b, 0x6c))
  {
    hide SubBytes, ShiftRows, MixColumns, AddRoundKey;
    Substituted4();
    Mixed4();
  }

  lemma Substituted5()
    ensures SubBytes(State(Column(0x24, 0x72, 0x40, 0x23), Column(0x69, 0x66, 0xb3, 0xfa),
      Column(0x6e, 0xd2, 0x75, 0x32), Column(0x88, 0x42, 0x5b, 0x6c)))
      == State(Column(0x36, 0x40, 0x09, 0x26), Column(0xf9, 0x33, 0x6d, 0x2d), Column(0x9f, 0xb5, 0x9d, 0x23),
        Column(0xc4, 0x2c, 0x39, 0x50))
  {
    hide SBox;
    Boxes2();
    Boxes4();
    Boxes5();
    Boxes6();
    Boxes7();
    Boxes8();
    Boxes9();
    Boxes12();
    Boxes15();
    Boxes17();
  }

  lemma Mixed5()
    ensures AddRoundKey(MixColumns(ShiftRows(State(Column(0x36, 0x40, 0x09, 0x26), Column(0xf9, 0x33, 0x6d, 0x2d),
      Column(0x9f, 0xb5, 0x9d, 0x23), Column(0xc4, 0x2c, 0x39, 0x50)))),
        State(Column(0x3c, 0xaa, 0xa3, 0xe8), Column(0xa9, 0x9f, 0x9d, 0xeb), Column(0x50, 0xf3, 0xaf, 0x57),
          Column(0xad, 0xf6, 0x22, 0xaa)))
      == State(Column(0xc8, 0x16, 0x77, 0xbc), Column(0x9b, 0x7a, 0xc9, 0x3b), Column(0x25, 0x02, 0x79, 0x92),
        Column(0xb0, 0x26, 0x19, 0x96))
  {
  }

  lemma Round5()
    ensures FullRound(State(Column(0x24, 0x72, 0x40, 0x23), Column(0x69, 0x66, 0xb3, 0xfa),
      Column(0x6e, 0xd2, 0x75, 0x32), Column(0x88, 0x42, 0x5b, 0x6c)), 5)
      == State(Column(0xc8, 0x16, 0x77, 0xbc), Column(0x9b, 0x7a, 0xc9, 0x3b), Column(0x25, 0x02, 0x79, 0x92),
        Column(0xb0, 0x26, 0x19, 0x96))
  {
    hide SubBytes, ShiftRows, MixColumns, AddRoundKey;
    Substituted5();
    Mixed5();
  }

  lemma Substituted6()
    ensures SubBytes(State(Column(0xc8, 0x16, 0x77, 0xbc), Column(0x9b, 0x7a, 0xc9, 0x3b),
      Column(0x25, 0x02, 0x79, 0x92), Column(0xb0, 0x26, 0x19, 0x96)))
      == State(Column(0xe8, 0x47, 0xf5, 0x65), Column(0x14, 0xda, 0xdd, 0xe2), Column(0x3f, 0x77, 0xb6, 0x4f),
        Column(0xe7, 0xf7, 0xd4, 0x90))
  {
    hide SBox;
    Boxes0();
    Boxes1();
    Boxes2();
    Boxes3();
    Boxes4();
    Boxes8();
    Boxes10();
    Boxes11();
    Boxes12();
    Boxes13();
    Boxes14();
  }

  lemma Mixed6()
    ensures AddRoundKey(MixColumns(ShiftRows(State(Column(0xe8, 0x47, 0xf5, 0x65), Column(0x14, 0xda, 0xdd, 0xe2),
      Column(0x3f, 0x77, 0xb6, 0x4f), Column(0xe7, 0xf7, 0xd4, 0x90)))),
        State(Column(0x5e, 0x39, 0x0f, 0x7d), Column(0xf7, 0xa6, 0x92, 0x96), Column(0xa7, 0x55, 0x3d, 0xc1),
          Column(0x0a, 0xa3, 0x1f, 0x6b)))
      == State(Column(0xc6, 0x2f, 0xe1, 0x09), Column(0xf7, 0x5e, 0xed, 0xc3), Column(0xcc, 0x79, 0x39, 0x5d),
        Column(0x84, 0xf9, 0xcf, 0x5d))
  {
  }

  lemma Round6()
    ensures FullRound(State(Column(0xc8, 0x16, 0x77, 0xbc), Column(0x9b, 0x7a, 0xc9, 0x3b),
      Column(0x25, 0x02, 0x79, 0x92), Column(0xb0, 0x26, 0x19, 0x96)), 6)
      == State(Column(0xc6, 0x2f, 0xe1, 0x09), Column(0xf7, 0x5e, 0xed, 0xc3), Column(0xcc, 0x79, 0x39, 0x5d),
        Column(0x84, 0xf9, 0xcf, 0x5d))
  {
    hide SubBytes, ShiftRows, MixColumns, AddRoundKey;
    Substituted6();
    Mixed6();
  }

  lemma Substituted7()
    ensures SubBytes(State(Column(0xc6, 0x2f, 0xe1, 0x09), Column(0xf7, 0x5e, 0xed, 0xc3),
      Column(0xcc, 0x79, 0x39, 0x5d), Column(0x84, 0xf9, 0xcf, 0x5d)))
      == State(Column(0xb4, 0x15, 0xf8, 0x01), Column(0x68, 0x58, 0x55, 0x2e), Column(0x4b, 0xb6, 0x12, 0x4c),
        Column(0x5f, 0x99, 0x8a, 0x4c))
  {
    hide SBox;
    Boxes0();
    Boxes3();
    Boxes4();
    Boxes6();
    Boxes8();
    Boxes9();
    Boxes13();
    Boxes14();
    Boxes15();
    Boxes16();
    Boxes17();
  }

  lemma Mixed7()
    ensures AddRoundKey(MixColumns(ShiftRows(State(Column(0xb4, 0x15, 0xf8, 0x01), Column(0x68, 0x58, 0x55, 0x2e),
      Column(0x4b, 0xb6, 0x12, 0x4c), Column(0x5f, 0x99, 0x8a, 0x4c)))),
        State(Column(0x14, 0xf9, 0x70, 0x1a), Column(0xe3, 0x5f, 0xe2, 0x8c), Column(0x44, 0x0a, 0xdf, 0x4d),
          Column(0x4e, 0xa9, 0xc0, 0x26)))
      == State(Column(0xd1, 0x87, 0x6c, 0x0f), Column(0x79, 0xc4, 0x30, 0x0a), Column(0xb4, 0x55, 0x94, 0xad),
        Column(0xd6, 0x6f, 0xf4, 0x1f))
  {
  }

  lemma Round7()
    ensures FullRound(State(Column(0xc6, 0x2f, 0xe1, 0x09), Column(0xf7, 0x5e, 0xed, 0xc3),
      Column(0xcc, 0x79, 0x39, 0x5d), Column(0x84, 0xf9, 0xcf, 0x5d)), 7)
      == State(Column(0xd1, 0x87, 0x6c, 0x0f), Column(0x79, 0xc4, 0x30, 0x0a), Column(0xb4, 0x55, 0x94, 0xad),
        Column(0xd6, 0x6f, 0xf4, 0x1f))
  {
    hide SubBytes, ShiftRows, MixColumns, AddRoundKey;
    Substituted7();
    Mixed7();
  }

  lemma Substituted8()
    ensures SubBytes(State(Column(0xd1, 0x87, 0x6c, 0x0f), Column(0x79, 0xc4, 0x30, 0x0a),
      Column(0xb4, 0x55, 0x94, 0xad), Column(0xd6, 0x6f, 0xf4, 0x1f)))
      == State(Column(0x3e, 0x17, 0x50, 0x76), Column(0xb6, 0x1c, 0x04, 0x67), Column(0x8d, 0xfc, 0x22, 0x95),
        Column(0xf6, 0xa8, 0xbf, 0xc0))
  {
    hide SBox;
    Boxes0();
    Boxes1();
    Boxes2();
    Boxes3();
    Boxes5();
    Boxes7();
    Boxes8();
    Boxes9();
    Boxes10();
    Boxes11();
    Boxes12();
    Boxes13();
    Boxes14();
    Boxes15();
    Boxes16();
  }

  lemma Mixed8()
    ensures AddRoundKey(MixColumns(ShiftRows(State(Column(0x3e, 0x17, 0x50, 0x76), Column(0xb6, 0x1c, 0x04, 0x67),
      Column(0x8d, 0xfc, 0x22, 0x95), Column(0xf6, 0xa8, 0xbf, 0xc0)))),
        State(Column(0x47, 0x43, 0x87, 0x35), Column(0xa4, 0x1c, 0x65, 0xb9), Column(0xe0, 0x16, 0xba, 0xf4),
          Column(0xae, 0xbf, 0x7a, 0xd2)))
      == State(Column(0xfd, 0xe3, 0xba, 0xd2), Column(0x05, 0xe5, 0xd0, 0xd7), Column(0x35, 0x47, 0x96, 0x4e),
        Column(0xf1, 0xfe, 0x37, 0xf1))
  {
  }

  lemma Round8()
    ensures FullRound(State(Column(0xd1, 0x87, 0x6c, 0x0f), Column(0x79, 0xc4, 0x30, 0x0a),
      Column(0xb4, 0x55, 0x94, 0xad), Column(0xd6, 0x6f, 0xf4, 0x1f)), 8)
      == State(Column(0xfd, 0xe3, 0xba, 0xd2), Column(0x05, 0xe5, 0xd0, 0xd7), Column(0x35, 0x47, 0x96, 0x4e),
        Column(0xf1, 0xfe, 0x37, 0xf1))
  {
    hide SubBytes, ShiftRows, MixColumns, AddRoundKey;
    Substituted8();
    Mixed8();
  }

  lemma Substituted9()
    ensures SubBytes(State(Column(0xfd, 0xe3, 0xba, 0xd2), Column(0x05, 0xe5, 0xd0, 0xd7),
      Column(0x35, 0x47, 0x96, 0x4e), Column(0xf1, 0xfe, 0x37, 0xf1)))
      == State(Column(0x54, 0x11, 0xf4, 0xb5), Column(0x6b, 0xd9, 0x70, 0x0e), Column(0x96, 0xa0, 0x90, 0x2f),
        Column(0xa1, 0xbb, 0x9a, 0xa1))
  {
    hide SBox;
    Boxes0();
    Boxes4();
    Boxes5();
    Boxes10();
    Boxes12();
    Boxes14();
    Boxes15();
    Boxes16();
    Boxes17();
  }

  lemma Mixed9()
    ensures AddRoundKey(MixColumns(ShiftRows(State(Column(0x54, 0x11, 0xf4, 0xb5), Column(0x6b, 0xd9, 0x70, 0x0e),
      Column(0x96, 0xa0, 0x90, 0x2f), Column(0xa1, 0xbb, 0x9a, 0xa1)))),
        State(Column(0x54, 0x99, 0x32, 0xd1), Column(0xf0, 0x85, 0x57, 0x68), Column(0x10, 0x93, 0xed, 0x9c),
          Column(0xbe, 0x2c, 0x97, 0x4e)))
      == State(Column(0xbd, 0x6e, 0x7c, 0x3d), Column(0xf2, 0xb5, 0x77, 0x9e), Column(0x0b, 0x61, 0x21, 0x6e),
        Column(0x8b, 0x10, 0xb6, 0x89))
  {
  }

  lemma Round9()
    ensures FullRound(State(Column(0xfd, 0xe3, 0xba, 0xd2), Column(0x05, 0xe5, 0xd0, 0xd7),
      Column(0x35, 0x47, 0x96, 0x4e), Column(0xf1, 0xfe, 0x37, 0xf1)), 9)
      == State(Column(0xbd, 0x6e, 0x7c, 0x3d), Column(0xf2, 0xb5, 0x77, 0x9e), Column(0x0b, 0x61, 0x21, 0x6e),
        Column(0x8b, 0x10, 0xb6, 0x89))
  {
    hide SubBytes, ShiftRows, MixColumns, AddRoundKey;
    Substituted9();
    Mixed9();
  }

  lemma LastRound()
    ensures AddRoundKey(ShiftRows(SubBytes(State(Column(0xbd, 0x6e, 0x7c, 0x3d), Column(0xf2, 0xb5, 0x77, 0x9e),
      Column(0x0b, 0x61, 0x21, 0x6e), Column(0x8b, 0x10, 0xb6, 0x89)))), Keys(10))
      == State(Column(0x69, 0xc4, 0xe0, 0xd8), Column(0x6a, 0x7b, 0x04, 0x30), Column(0xd8, 0xcd, 0xb7, 0x80),
        Column(0x70, 0xb4, 0xc5, 0x5a))
  {
    hide SBox;
    Boxes0();
    Boxes1();
    Boxes2();
    Boxes4();
    Boxes6();
    Boxes7();
    Boxes8();
    Boxes9();
    Boxes10();
    Boxes11();
    Boxes12();
    Boxes13();
    Boxes16();
  }

  lemma FirstKey()
    ensures AddRoundKey(State(Column(0x00, 0x11, 0x22, 0x33), Column(0x44, 0x55, 0x66, 0x77),
      Column(0x88, 0x99, 0xaa, 0xbb), Column(0xcc, 0xdd, 0xee, 0xff)), Keys(0))
      == State(Column(0x00, 0x10, 0x20, 0x30), Column(0x40, 0x50, 0x60, 0x70), Column(0x80, 0x90, 0xa0, 0xb0),
        Column(0xc0, 0xd0, 0xe0, 0xf0))
  {
  }

  lemma OneMore(input: State, r: nat)
    requires 0 < r <= 10
    ensures AfterRounds(input, KeyExpansion(Key()), r) == FullRound(AfterRounds(input, KeyExpansion(Key()), r - 1), r)
  {
    hide AddRoundKey, MixColumns, ShiftRows, SubBytes, KeyExpansion, Keys, Key;
    KeyCount();
    KeysAre(r);
  }

  lemma KeyCount()
    ensures |KeyExpansion(Key())| == 11
  {
  }

  lemma NoRounds(input: State)
    ensures |KeyExpansion(Key())| == 11
    ensures AfterRounds(input, KeyExpansion(Key()), 0) == AddRoundKey(input, Keys(0))
  {
    hide AddRoundKey, KeyExpansion, Keys, Key;
    KeyCount();
    KeysAre(0);
  }

  /** Appendix C.1. */
  lemma ExampleCipher()
    ensures Cipher(State(Column(0x00, 0x11, 0x22, 0x33), Column(0x44, 0x55, 0x66, 0x77),
      Column(0x88, 0x99, 0xaa, 0xbb), Column(0xcc, 0xdd, 0xee, 0xff)),
        KeyExpansion(Key()))
      == State(Column(0x69, 0xc4, 0xe0, 0xd8), Column(0x6a, 0x7b, 0x04, 0x30), Column(0xd8, 0xcd, 0xb7, 0x80),
        Column(0x70, 0xb4, 0xc5, 0x5a))
  {
    hide AfterRounds, AddRoundKey, ShiftRows, SubBytes, KeyExpansion, Keys, Key, FullRound;
    var input := State(Column(0x00, 0x11, 0x22, 0x33), Column(0x44, 0x55, 0x66, 0x77), Column(0x88, 0x99, 0xaa, 0xbb),
      Column(0xcc, 0xdd, 0xee, 0xff));
    NoRounds(input);
    FirstKey();
    OneMore(input, 1);
    Round1();
    OneMore(input, 2);
    Round2();
    OneMore(input, 3);
    Round3();
    OneMore(input, 4);
    Round4();
    OneMore(input, 5);
    Round5();
    OneMore(input, 6);
    Round6();
    OneMore(input, 7);
    Round7();
    OneMore(input, 8);
    Round8();
    OneMore(input, 9);
    Round9();
    KeysAre(10);
    LastRound();
  }

  // ---------- the same example through the context ----------

  function KeyBytes(): seq<bv8> {
    [0x00, 0x01, 0x02, 0x03, 0x04, 0x05, 0x06, 0x07,
     0x08, 0x09, 0x0a, 0x0b, 0x0c, 0x0d, 0x0e, 0x0f]
  }

  function PlainBytes(): seq<bv8> {
    [0x00, 0x11, 0x22, 0x33, 0x44, 0x55, 0x66, 0x77,
     0x88, 0x99, 0xaa, 0xbb, 0xcc, 0xdd, 0xee, 0xff]
  }

  function CipherBytes(): seq<bv8> {
    [0x69, 0xc4, 0xe0, 0xd8, 0x6a, 0x7b, 0x04, 0x30,
     0xd8, 0xcd, 0xb7, 0x80, 0x70, 0xb4, 0xc5, 0x5a]
  }

  lemma ExampleBytes()
    ensures |KeyBytes()| == |PlainBytes()| == |CipherBytes()| == 16
    ensures KeyColumns(KeyBytes(), 4) == Key()
    ensures BlockState(PlainBytes())
      == State(Column(0x00, 0x11, 0x22, 0x33), Column(0x44, 0x55, 0x66, 0x77), Column(0x88, 0x99, 0xaa, 0xbb),
      Column(0xcc, 0xdd, 0xee, 0xff))
    ensures BlockState(CipherBytes())
      == State(Column(0x69, 0xc4, 0xe0, 0xd8), Column(0x6a, 0x7b, 0x04, 0x30), Column(0xd8, 0xcd, 0xb7, 0x80),
      Column(0x70, 0xb4, 0xc5, 0x5a))
  {
  }

  /** The key set and the block encrypted: the bytes of the example come out. */
  method EncryptExample(t: Tables) returns (output: array<bv8>)
    requires t.Valid()
    modifies t`initDone, t.FSb, t.RSb, t.FT, t.RT, t.RCON
    ensures fresh(output) && output[..] == CipherBytes()
  {
    hide Tables.Ready, KeyExpansion, Cipher, AesContext.Holds, BlockState, KeyColumns, Key, KeyBytes, PlainBytes,
      CipherBytes;
    ExampleBytes();
    var key := ArrayOf(KeyBytes());
    output := ArrayOf(PlainBytes());
    var ctx := new AesContext();
    var ret := ctx.SetkeyEnc(t, key, 128);
    ExampleCipher();
    ctx.Encrypt(t, output, output, KeyExpansion(Key()));
    BlockStateInjective(output[..], CipherBytes());
  }

  method ArrayOf(b: seq<bv8>) returns (a: array<bv8>)
    ensures fresh(a) && a.Length == |b| && a[..] == b
  {
    a := new bv8[|b|](i requires 0 <= i < |b| => b[i]);
  }
}
