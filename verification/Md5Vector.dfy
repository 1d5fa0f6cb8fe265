/**
  The digest of "abc" from the test suite of RFC 1321, section A.5. It is computed here step by
  step from the definition, so it fixes all constants and orders of the definition at once.
 */
module Md5Vector {
  import opened Bytes
  import opened Words
  import opened BlockHash
  import opened Rfc1321

  // ---------- the padded message ----------

  /** The three bytes, the one bit, 52 zeros and the length of 24 bits. */
  function AbcBlock(): (m: Block) {
    [0x61, 0x62, 0x63, 0x80] + Zeros(52) + [24, 0, 0, 0, 0, 0, 0, 0]
  }

  lemma AbcPadded()
    ensures PadWith([0x61, 0x62, 0x63], 3) == AbcBlock()
  {
    hide ByteOf, Bytes32LE, Padding, Zeros;
    AbcLength();
    AbcPadding();
    assert [0x61, 0x62, 0x63] + ([0x80] + Zeros(52)) == [0x61, 0x62, 0x63, 0x80] + Zeros(52);
    assert PadWith([0x61, 0x62, 0x63], 3)
      == [0x61, 0x62, 0x63] + ([0x80] + Zeros(52)) + ([24, 0, 0, 0] + [0, 0, 0, 0]);
  }

  lemma AbcPadding()
    ensures Padding(3) == [0x80] + Zeros(52)
  {
    hide Zeros;
  }

  lemma AbcLength()
    ensures Bytes32LE(0) == [0, 0, 0, 0] && Bytes32LE(24) == [24, 0, 0, 0]
  {
    hide ByteOf, Value;
    ByteOfValue(0);
    ByteOfValue(24);
    SmallValues();
    ValueInjective(ByteOf(0), 0);
    ValueInjective(ByteOf(24), 24);
  }

  lemma SmallValues()
    ensures Value(0) == 0 && Value(24) == 24
  {
  }

  function AbcWord(k: nat): bv32 {
    if k == 0 then 0x80636261 else if k == 14 then 24 else 0
  }

  lemma WordsAre(k: nat)
    requires k < 16
    ensures MessageWord(AbcBlock(), k) == AbcWord(k)
  {
    hide WordLE, AbcBlock;
    WordValues();
    BytesAre(k);
  }

  lemma BytesAre(k: nat)
    requires k < 16
    ensures var m := AbcBlock();
      if k == 0 then m[..4] == [0x61, 0x62, 0x63, 0x80] && m[0] == 0x61 && m[1] == 0x62 && m[2] == 0x63 && m[3] == 0x80
      else m[4 * k] == (if k == 14 then 24 else 0) && m[4 * k + 1] == m[4 * k + 2] == m[4 * k + 3] == 0
  {
  }

  lemma WordValues()
    ensures WordLE(0x61, 0x62, 0x63, 0x80) == 0x80636261 && WordLE(24, 0, 0, 0) == 24 && WordLE(0, 0, 0, 0) == 0
  {
  }

  // ---------- the operations ----------

  function OneStep(v: Quad, round: nat, i: nat): Quad
    requires i < 16
  {
    Operation(v, round, AbcWord(WordIndex(round, i)), ShiftCount(round, i), SineRow(round)[i])
  }

  function EightSteps(v: Quad, round: nat, i: nat): Quad
    requires i <= 8
  {
    OneStep(OneStep(OneStep(OneStep(OneStep(OneStep(OneStep(OneStep(
      v, round, i), round, i + 1), round, i + 2), round, i + 3),
      round, i + 4), round, i + 5), round, i + 6), round, i + 7)
  }

  lemma OneMore(v: Quad, round: nat, i: nat)
    requires i < 16
    ensures Steps(v, AbcBlock(), round, i + 1) == OneStep(Steps(v, AbcBlock(), round, i), round, i)
  {
    hide AbcBlock, MessageWord, AbcWord, Operation, ShiftCount, SineRow;
    WordsAre(WordIndex(round, i));
  }

  lemma EightMore(v: Quad, round: nat, i: nat)
    requires i <= 8
    ensures Steps(v, AbcBlock(), round, i + 8) == EightSteps(Steps(v, AbcBlock(), round, i), round, i)
  {
    hide Steps, OneStep, AbcBlock;
    OneMore(v, round, i);
    OneMore(v, round, i + 1);
    OneMore(v, round, i + 2);
    OneMore(v, round, i + 3);
    OneMore(v, round, i + 4);
    OneMore(v, round, i + 5);
    OneMore(v, round, i + 6);
    OneMore(v, round, i + 7);
  }

  lemma WholeRound(v: Quad, round: nat)
    ensures Steps(v, AbcBlock(), round, 16) == EightSteps(EightSteps(v, round, 0), round, 8)
  {
    hide Steps, EightSteps, AbcBlock;
    NoSteps(v, round);
    EightMore(v, round, 0);
    EightMore(v, round, 8);
  }

  lemma NoSteps(v: Quad, round: nat)
    ensures Steps(v, AbcBlock(), round, 0) == v
  {
    hide AbcBlock;
  }

  lemma Settings1a()
    ensures AbcWord(WordIndex(0, 0)) == 0x80636261 && ShiftCount(0, 0) == 7 && SineRow(0)[0] == 0xD76AA478
    ensures AbcWord(WordIndex(0, 1)) == 0x00000000 && ShiftCount(0, 1) == 12 && SineRow(0)[1] == 0xE8C7B756
    ensures AbcWord(WordIndex(0, 2)) == 0x00000000 && ShiftCount(0, 2) == 17 && SineRow(0)[2] == 0x242070DB
    ensures AbcWord(WordIndex(0, 3)) == 0x00000000 && ShiftCount(0, 3) == 22 && SineRow(0)[3] == 0xC1BDCEEE
    ensures AbcWord(WordIndex(0, 4)) == 0x00000000 && ShiftCount(0, 4) == 7 && SineRow(0)[4] == 0xF57C0FAF
    ensures AbcWord(WordIndex(0, 5)) == 0x00000000 && ShiftCount(0, 5) == 12 && SineRow(0)[5] == 0x4787C62A
    ensures AbcWord(WordIndex(0, 6)) == 0x00000000 && ShiftCount(0, 6) == 17 && SineRow(0)[6] == 0xA8304613
    ensures AbcWord(WordIndex(0, 7)) == 0x00000000 && ShiftCount(0, 7) == 22 && SineRow(0)[7] == 0xFD469501
  {
  }

  lemma Values1a()
    ensures Operation(Quad(0x67452301, 0xEFCDAB89, 0x98BADCFE, 0x10325476), 0, 0x80636261, 7, 0xD76AA478)
      == Quad(0x10325476, 0xD6D117B4, 0xEFCDAB89, 0x98BADCFE)
    ensures Operation(Quad(0x10325476, 0xD6D117B4, 0xEFCDAB89, 0x98BADCFE), 0, 0x00000000, 12, 0xE8C7B756)
      == Quad(0x98BADCFE, 0x344A8432, 0xD6D117B4, 0xEFCDAB89)
    ensures Operation(Quad(0x98BADCFE, 0x344A8432, 0xD6D117B4, 0xEFCDAB89), 0, 0x00000000, 17, 0x242070DB)
      == Quad(0xEFCDAB89, 0x2F6FBD72, 0x344A8432, 0xD6D117B4)
    ensures Operation(Quad(0xEFCDAB89, 0x2F6FBD72, 0x344A8432, 0xD6D117B4), 0, 0x00000000, 22, 0xC1BDCEEE)
      == Quad(0xD6D117B4, 0x7AD956F2, 0x2F6FBD72, 0x344A8432)
    ensures Operation(Quad(0xD6D117B4, 0x7AD956F2, 0x2F6FBD72, 0x344A8432), 0, 0x00000000, 7, 0xF57C0FAF)
      == Quad(0x344A8432, 0xC73741EF, 0x7AD956F2, 0x2F6FBD72)
    ensures Operation(Quad(0x344A8432, 0xC73741EF, 0x7AD956F2, 0x2F6FBD72), 0, 0x00000000, 12, 0x4787C62A)
      == Quad(0x2F6FBD72, 0x8BAC3051, 0xC73741EF, 0x7AD956F2)
    ensures Operation(Quad(0x2F6FBD72, 0x8BAC3051, 0xC73741EF, 0x7AD956F2), 0, 0x00000000, 17, 0xA8304613)
      == Quad(0x7AD956F2, 0x207DC67B, 0x8BAC3051, 0xC73741EF)
    ensures Operation(Quad(0x7AD956F2, 0x207DC67B, 0x8BAC3051, 0xC73741EF), 0, 0x00000000, 22, 0xFD469501)
      == Quad(0xC73741EF, 0x928D99F6, 0x207DC67B, 0x8BAC3051)
  {
  }

  lemma Steps1a()
    ensures EightSteps(Quad(0x67452301, 0xEFCDAB89, 0x98BADCFE, 0x10325476), 0, 0)
      == Quad(0xC73741EF, 0x928D99F6, 0x207DC67B, 0x8BAC3051)
  {
    hide Operation, AbcWord, WordIndex, ShiftCount, SineRow;
    Settings1a();
    Values1a();
  }

  lemma Settings1b()
    ensures AbcWord(WordIndex(0, 8)) == 0x00000000 && ShiftCount(0, 8) == 7 && SineRow(0)[8] == 0x698098D8
    ensures AbcWord(WordIndex(0, 9)) == 0x00000000 && ShiftCount(0, 9) == 12 && SineRow(0)[9] == 0x8B44F7AF
    ensures AbcWord(WordIndex(0, 10)) == 0x00000000 && ShiftCount(0, 10) == 17 && SineRow(0)[10] == 0xFFFF5BB1
    ensures AbcWord(WordIndex(0, 11)) == 0x00000000 && ShiftCount(0, 11) == 22 && SineRow(0)[11] == 0x895CD7BE
    ensures AbcWord(WordIndex(0, 12)) == 0x00000000 && ShiftCount(0, 12) == 7 && SineRow(0)[12] == 0x6B901122
    ensures AbcWord(WordIndex(0, 13)) == 0x00000000 && ShiftCount(0, 13) == 12 && SineRow(0)[13] == 0xFD987193
    ensures AbcWord(WordIndex(0, 14)) == 0x00000018 && ShiftCount(0, 14) == 17 && SineRow(0)[14] == 0xA679438E
    ensures AbcWord(WordIndex(0, 15)) == 0x00000000 && ShiftCount(0, 15) == 22 && SineRow(0)[15] == 0x49B40821
  {
  }

  lemma Values1b()
    ensures Operation(Quad(0xC73741EF, 0x928D99F6, 0x207DC67B, 0x8BAC3051), 0, 0x00000000, 7, 0x698098D8)
      == Quad(0x8BAC3051, 0x854B3712, 0x928D99F6, 0x207DC67B)
    ensures Operation(Quad(0x8BAC3051, 0x854B3712, 0x928D99F6, 0x207DC67B), 0, 0x00000000, 12, 0x8B44F7AF)
      == Quad(0x207DC67B, 0x74E2F284, 0x854B3712, 0x928D99F6)
    ensures Operation(Quad(0x207DC67B, 0x74E2F284, 0x854B3712, 0x928D99F6), 0, 0x00000000, 17, 0xFFFF5BB1)
      == Quad(0x928D99F6, 0x3020401C, 0x74E2F284, 0x854B3712)
    ensures Operation(Quad(0x928D99F6, 0x3020401C, 0x74E2F284, 0x854B3712), 0, 0x00000000, 22, 0x895CD7BE)
      == Quad(0x854B3712, 0x5ED49596, 0x3020401C, 0x74E2F284)
    ensures Operation(Quad(0x854B3712, 0x5ED49596, 0x3020401C, 0x74E2F284), 0, 0x00000000, 7, 0x6B901122)
      == Quad(0x74E2F284, 0xDDA9B9A6, 0x5ED49596, 0x3020401C)
    ensures Operation(Quad(0x74E2F284, 0xDDA9B9A6, 0x5ED49596, 0x3020401C), 0, 0x00000000, 12, 0xFD987193)
      == Quad(0x3020401C, 0xA1051895, 0xDDA9B9A6, 0x5ED49596)
    ensures Operation(Quad(0x3020401C, 0xA1051895, 0xDDA9B9A6, 0x5ED49596), 0, 0x00000018, 17, 0xA679438E)
      == Quad(0x5ED49596, 0xE396856B, 0xA1051895, 0xDDA9B9A6)
    ensures Operation(Quad(0x5ED49596, 0xE396856B, 0xA1051895, 0xDDA9B9A6), 0, 0x00000000, 22, 0x49B40821)
      == Quad(0xDDA9B9A6, 0x72AFF2E0, 0xE396856B, 0xA1051895)
  {
  }

  lemma Steps1b()
    ensures EightSteps(Quad(0xC73741EF, 0x928D99F6, 0x207DC67B, 0x8BAC3051), 0, 8)
      == Quad(0xDDA9B9A6, 0x72AFF2E0, 0xE396856B, 0xA1051895)
  {
    hide Operation, AbcWord, WordIndex, ShiftCount, SineRow;
    Settings1b();
    Values1b();
  }

  lemma Settings2a()
    ensures AbcWord(WordIndex(1, 0)) == 0x00000000 && ShiftCount(1, 0) == 5 && SineRow(1)[0] == 0xF61E2562
    ensures AbcWord(WordIndex(1, 1)) == 0x00000000 && ShiftCount(1, 1) == 9 && SineRow(1)[1] == 0xC040B340
    ensures AbcWord(WordIndex(1, 2)) == 0x00000000 && ShiftCount(1, 2) == 14 && SineRow(1)[2] == 0x265E5A51
    ensures AbcWord(WordIndex(1, 3)) == 0x80636261 && ShiftCount(1, 3) == 20 && SineRow(1)[3] == 0xE9B6C7AA
    ensures AbcWord(WordIndex(1, 4)) == 0x00000000 && ShiftCount(1, 4) == 5 && SineRow(1)[4] == 0xD62F105D
    ensures AbcWord(WordIndex(1, 5)) == 0x00000000 && ShiftCount(1, 5) == 9 && SineRow(1)[5] == 0x02441453
    ensures AbcWord(WordIndex(1, 6)) == 0x00000000 && ShiftCount(1, 6) == 14 && SineRow(1)[6] == 0xD8A1E681
    ensures AbcWord(WordIndex(1, 7)) == 0x00000000 && ShiftCount(1, 7) == 20 && SineRow(1)[7] == 0xE7D3FBC8
  {
  }

  lemma Values2a()
    ensures Operation(Quad(0xDDA9B9A6, 0x72AFF2E0, 0xE396856B, 0xA1051895), 1, 0x00000000, 5, 0xF61E2562)
      == Quad(0xA1051895, 0x3E9E9126, 0x72AFF2E0, 0xE396856B)
    ensures Operation(Quad(0xA1051895, 0x3E9E9126, 0x72AFF2E0, 0xE396856B), 1, 0x00000000, 9, 0xC040B340)
      == Quad(0xE396856B, 0x4A1D804E, 0x3E9E9126, 0x72AFF2E0)
    ensures Operation(Quad(0xE396856B, 0x4A1D804E, 0x3E9E9126, 0x72AFF2E0), 1, 0x00000000, 14, 0x265E5A51)
      == Quad(0x72AFF2E0, 0xE25E1652, 0x4A1D804E, 0x3E9E9126)
    ensures Operation(Quad(0x72AFF2E0, 0xE25E1652, 0x4A1D804E, 0x3E9E9126), 1, 0x80636261, 20, 0xE9B6C7AA)
      == Quad(0x3E9E9126, 0xB5B204E4, 0xE25E1652, 0x4A1D804E)
    ensures Operation(Quad(0x3E9E9126, 0xB5B204E4, 0xE25E1652, 0x4A1D804E), 1, 0x00000000, 5, 0xD62F105D)
      == Quad(0x4A1D804E, 0x59A8FFDA, 0xB5B204E4, 0xE25E1652)
    ensures Operation(Quad(0x4A1D804E, 0x59A8FFDA, 0xB5B204E4, 0xE25E1652), 1, 0x00000000, 9, 0x02441453)
      == Quad(0xE25E1652, 0x6D002F1E, 0x59A8FFDA, 0xB5B204E4)
    ensures Operation(Quad(0xE25E1652, 0x6D002F1E, 0x59A8FFDA, 0xB5B204E4), 1, 0x00000000, 14, 0xD8A1E681)
      == Quad(0xB5B204E4, 0xABFC7920, 0x6D002F1E, 0x59A8FFDA)
    ensures Operation(Quad(0xB5B204E4, 0xABFC7920, 0x6D002F1E, 0x59A8FFDA), 1, 0x00000000, 20, 0xE7D3FBC8)
      == Quad(0x59A8FFDA, 0x47092C07, 0xABFC7920, 0x6D002F1E)
  {
  }

  lemma Steps2a()
    ensures EightSteps(Quad(0xDDA9B9A6, 0x72AFF2E0, 0xE396856B, 0xA1051895), 1, 0)
      == Quad(0x59A8FFDA, 0x47092C07, 0xABFC7920, 0x6D002F1E)
  {
    hide Operation, AbcWord, WordIndex, ShiftCount, SineRow;
    Settings2a();
    Values2a();
  }

  lemma Settings2b()
    ensures AbcWord(WordIndex(1, 8)) == 0x00000000 && ShiftCount(1, 8) == 5 && SineRow(1)[8] == 0x21E1CDE6
    ensures AbcWord(WordIndex(1, 9)) == 0x00000018 && ShiftCount(1, 9) == 9 && SineRow(1)[9] == 0xC33707D6
    ensures AbcWord(WordIndex(1, 10)) == 0x00000000 && ShiftCount(1, 10) == 14 && SineRow(1)[10] == 0xF4D50D87
    ensures AbcWord(WordIndex(1, 11)) == 0x00000000 && ShiftCount(1, 11) == 20 && SineRow(1)[11] == 0x455A14ED
    ensures AbcWord(WordIndex(1, 12)) == 0x00000000 && ShiftCount(1, 12) == 5 && SineRow(1)[12] == 0xA9E3E905
    ensures AbcWord(WordIndex(1, 13)) == 0x00000000 && ShiftCount(1, 13) == 9 && SineRow(1)[13] == 0xFCEFA3F8
    ensures AbcWord(WordIndex(1, 14)) == 0x00000000 && ShiftCount(1, 14) == 14 && SineRow(1)[14] == 0x676F02D9
    ensures AbcWord(WordIndex(1, 15)) == 0x00000000 && ShiftCount(1, 15) == 20 && SineRow(1)[15] == 0x8D2A4C8A
  {
  }

  lemma Values2b()
    ensures Operation(Quad(0x59A8FFDA, 0x47092C07, 0xABFC7920, 0x6D002F1E), 1, 0x00000000, 5, 0x21E1CDE6)
      == Quad(0x6D002F1E, 0xB7F268CF, 0x47092C07, 0xABFC7920)
    ensures Operation(Quad(0x6D002F1E, 0xB7F268CF, 0x47092C07, 0xABFC7920), 1, 0x00000018, 9, 0xC33707D6)
      == Quad(0xABFC7920, 0x09388EFF, 0xB7F268CF, 0x47092C07)
    ensures Operation(Quad(0xABFC7920, 0x09388EFF, 0xB7F268CF, 0x47092C07), 1, 0x00000000, 14, 0xF4D50D87)
      == Quad(0x47092C07, 0xFE1623B1, 0x09388EFF, 0xB7F268CF)
    ensures Operation(Quad(0x47092C07, 0xFE1623B1, 0x09388EFF, 0xB7F268CF), 1, 0x00000000, 20, 0x455A14ED)
      == Quad(0xB7F268CF, 0x786ACB8F, 0xFE1623B1, 0x09388EFF)
    ensures Operation(Quad(0xB7F268CF, 0x786ACB8F, 0xFE1623B1, 0x09388EFF), 1, 0x00000000, 5, 0xA9E3E905)
      == Quad(0x09388EFF, 0x790A77FB, 0x786ACB8F, 0xFE1623B1)
    ensures Operation(Quad(0x09388EFF, 0x790A77FB, 0x786ACB8F, 0xFE1623B1), 1, 0x00000000, 9, 0xFCEFA3F8)
      == Quad(0xFE1623B1, 0x9F47E4F8, 0x790A77FB, 0x786ACB8F)
    ensures Operation(Quad(0xFE1623B1, 0x9F47E4F8, 0x790A77FB, 0x786ACB8F), 1, 0x00000000, 14, 0x676F02D9)
      == Quad(0x786ACB8F, 0xA62884AA, 0x9F47E4F8, 0x790A77FB)
    ensures Operation(Quad(0x786ACB8F, 0xA62884AA, 0x9F47E4F8, 0x790A77FB), 1, 0x00000000, 20, 0x8D2A4C8A)
      == Quad(0x790A77FB, 0x726342D3, 0xA62884AA, 0x9F47E4F8)
  {
  }

  lemma Steps2b()
    ensures EightSteps(Quad(0x59A8FFDA, 0x47092C07, 0xABFC7920, 0x6D002F1E), 1, 8)
      == Quad(0x790A77FB, 0x726342D3, 0xA62884AA, 0x9F47E4F8)
  {
    hide Operation, AbcWord, WordIndex, ShiftCount, SineRow;
    Settings2b();
    Values2b();
  }

  lemma Settings3a()
    ensures AbcWord(WordIndex(2, 0)) == 0x00000000 && ShiftCount(2, 0) == 4 && SineRow(2)[0] == 0xFFFA3942
    ensures AbcWord(WordIndex(2, 1)) == 0x00000000 && ShiftCount(2, 1) == 11 && SineRow(2)[1] == 0x8771F681
    ensures AbcWord(WordIndex(2, 2)) == 0x00000000 && ShiftCount(2, 2) == 16 && SineRow(2)[2] == 0x6D9D6122
    ensures AbcWord(WordIndex(2, 3)) == 0x00000018 && ShiftCount(2, 3) == 23 && SineRow(2)[3] == 0xFDE5380C
    ensures AbcWord(WordIndex(2, 4)) == 0x00000000 && ShiftCount(2, 4) == 4 && SineRow(2)[4] == 0xA4BEEA44
    ensures AbcWord(WordIndex(2, 5)) == 0x00000000 && ShiftCount(2, 5) == 11 && SineRow(2)[5] == 0x4BDECFA9
    ensures AbcWord(WordIndex(2, 6)) == 0x00000000 && ShiftCount(2, 6) == 16 && SineRow(2)[6] == 0xF6BB4B60
    ensures AbcWord(WordIndex(2, 7)) == 0x00000000 && ShiftCount(2, 7) == 23 && SineRow(2)[7] == 0xBEBFBC70
  {
  }

  lemma Values3a()
    ensures Operation(Quad(0x790A77FB, 0x726342D3, 0xA62884AA, 0x9F47E4F8), 2, 0x00000000, 4, 0xFFFA3942)
      == Quad(0x9F47E4F8, 0xB3707EBF, 0x726342D3, 0xA62884AA)
    ensures Operation(Quad(0x9F47E4F8, 0xB3707EBF, 0x726342D3, 0xA62884AA), 2, 0x00000000, 11, 0x8771F681)
      == Quad(0xA62884AA, 0x60127B2E, 0xB3707EBF, 0x726342D3)
    ensures Operation(Quad(0xA62884AA, 0x60127B2E, 0xB3707EBF, 0x726342D3), 2, 0x00000000, 16, 0x6D9D6122)
      == Quad(0x726342D3, 0x8D212FF5, 0x60127B2E, 0xB3707EBF)
    ensures Operation(Quad(0x726342D3, 0x8D212FF5, 0x60127B2E, 0xB3707EBF), 2, 0x00000018, 23, 0xFDE5380C)
      == Quad(0xB3707EBF, 0x3B0875C7, 0x8D212FF5, 0x60127B2E)
    ensures Operation(Quad(0xB3707EBF, 0x3B0875C7, 0x8D212FF5, 0x60127B2E), 2, 0x00000000, 4, 0xA4BEEA44)
      == Quad(0x60127B2E, 0x21B117B9, 0x3B0875C7, 0x8D212FF5)
    ensures Operation(Quad(0x60127B2E, 0x21B117B9, 0x3B0875C7, 0x8D212FF5), 2, 0x00000000, 11, 0x4BDECFA9)
      == Quad(0x8D212FF5, 0x6E7429D5, 0x21B117B9, 0x3B0875C7)
    ensures Operation(Quad(0x8D212FF5, 0x6E7429D5, 0x21B117B9, 0x3B0875C7), 2, 0x00000000, 16, 0xF6BB4B60)
      == Quad(0x3B0875C7, 0x3575227E, 0x6E7429D5, 0x21B117B9)
    ensures Operation(Quad(0x3B0875C7, 0x3575227E, 0x6E7429D5, 0x21B117B9), 2, 0x00000000, 23, 0xBEBFBC70)
      == Quad(0x21B117B9, 0x5A2F5EA5, 0x3575227E, 0x6E7429D5)
  {
  }

  lemma Steps3a()
    ensures EightSteps(Quad(0x790A77FB, 0x726342D3, 0xA62884AA, 0x9F47E4F8), 2, 0)
      == Quad(0x21B117B9, 0x5A2F5EA5, 0x3575227E, 0x6E7429D5)
  {
    hide Operation, AbcWord, WordIndex, ShiftCount, SineRow;
    Settings3a();
    Values3a();
  }

  lemma Settings3b()
    ensures AbcWord(WordIndex(2, 8)) == 0x00000000 && ShiftCount(2, 8) == 4 && SineRow(2)[8] == 0x289B7EC6
    ensures AbcWord(WordIndex(2, 9)) == 0x80636261 && ShiftCount(2, 9) == 11 && SineRow(2)[9] == 0xEAA127FA
    ensures AbcWord(WordIndex(2, 10)) == 0x00000000 && ShiftCount(2, 10) == 16 && SineRow(2)[10] == 0xD4EF3085
    ensures AbcWord(WordIndex(2, 11)) == 0x00000000 && ShiftCount(2, 11) == 23 && SineRow(2)[11] == 0x04881D05
    ensures AbcWord(WordIndex(2, 12)) == 0x00000000 && ShiftCount(2, 12) == 4 && SineRow(2)[12] == 0xD9D4D039
    ensures AbcWord(WordIndex(2, 13)) == 0x00000000 && ShiftCount(2, 13) == 11 && SineRow(2)[13] == 0xE6DB99E5
    ensures AbcWord(WordIndex(2, 14)) == 0x00000000 && ShiftCount(2, 14) == 16 && SineRow(2)[14] == 0x1FA27CF8
    ensures AbcWord(WordIndex(2, 15)) == 0x00000000 && ShiftCount(2, 15) == 23 && SineRow(2)[15] == 0xC4AC5665
  {
  }

  lemma Values3b()
    ensures Operation(Quad(0x21B117B9, 0x5A2F5EA5, 0x3575227E, 0x6E7429D5), 2, 0x00000000, 4, 0x289B7EC6)
      == Quad(0x6E7429D5, 0x11DE1779, 0x5A2F5EA5, 0x3575227E)
    ensures Operation(Quad(0x6E7429D5, 0x11DE1779, 0x5A2F5EA5, 0x3575227E), 2, 0x80636261, 11, 0xEAA127FA)
      == Quad(0x3575227E, 0xFADCAA38, 0x11DE1779, 0x5A2F5EA5)
    ensures Operation(Quad(0x3575227E, 0xFADCAA38, 0x11DE1779, 0x5A2F5EA5), 2, 0x00000000, 16, 0xD4EF3085)
      == Quad(0x5A2F5EA5, 0x31C465CA, 0xFADCAA38, 0x11DE1779)
    ensures Operation(Quad(0x5A2F5EA5, 0x31C465CA, 0xFADCAA38, 0x11DE1779), 2, 0x00000000, 23, 0x04881D05)
      == Quad(0x11DE1779, 0x4C6124F4, 0x31C465CA, 0xFADCAA38)
    ensures Operation(Quad(0x11DE1779, 0x4C6124F4, 0x31C465CA, 0xFADCAA38), 2, 0x00000000, 4, 0xD9D4D039)
      == Quad(0xFADCAA38, 0x7F2E507B, 0x4C6124F4, 0x31C465CA)
    ensures Operation(Quad(0xFADCAA38, 0x7F2E507B, 0x4C6124F4, 0x31C465CA), 2, 0x00000000, 11, 0xE6DB99E5)
      == Quad(0x31C465CA, 0x99D9679D, 0x7F2E507B, 0x4C6124F4)
    ensures Operation(Quad(0x31C465CA, 0x99D9679D, 0x7F2E507B, 0x4C6124F4), 2, 0x00000000, 16, 0x1FA27CF8)
      == Quad(0x4C6124F4, 0x8FAE6399, 0x99D9679D, 0x7F2E507B)
    ensures Operation(Quad(0x4C6124F4, 0x8FAE6399, 0x99D9679D, 0x7F2E507B), 2, 0x00000000, 23, 0xC4AC5665)
      == Quad(0x7F2E507B, 0x7BEB9700, 0x8FAE6399, 0x99D9679D)
  {
  }

  lemma Steps3b()
    ensures EightSteps(Quad(0x21B117B9, 0x5A2F5EA5, 0x3575227E, 0x6E7429D5), 2, 8)
      == Quad(0x7F2E507B, 0x7BEB9700, 0x8FAE6399, 0x99D9679D)
  {
    hide Operation, AbcWord, WordIndex, ShiftCount, SineRow;
    Settings3b();
    Values3b();
  }

  lemma Settings4a()
    ensures AbcWord(WordIndex(3, 0)) == 0x80636261 && ShiftCount(3, 0) == 6 && SineRow(3)[0] == 0xF4292244
    ensures AbcWord(WordIndex(3, 1)) == 0x00000000 && ShiftCount(3, 1) == 10 && SineRow(3)[1] == 0x432AFF97
    ensures AbcWord(WordIndex(3, 2)) == 0x00000018 && ShiftCount(3, 2) == 15 && SineRow(3)[2] == 0xAB9423A7
    ensures AbcWord(WordIndex(3, 3)) == 0x00000000 && ShiftCount(3, 3) == 21 && SineRow(3)[3] == 0xFC93A039
    ensures AbcWord(WordIndex(3, 4)) == 0x00000000 && ShiftCount(3, 4) == 6 && SineRow(3)[4] == 0x655B59C3
    ensures AbcWord(WordIndex(3, 5)) == 0x00000000 && ShiftCount(3, 5) == 10 && SineRow(3)[5] == 0x8F0CCC92
    ensures AbcWord(WordIndex(3, 6)) == 0x00000000 && ShiftCount(3, 6) == 15 && SineRow(3)[6] == 0xFFEFF47D
    ensures AbcWord(WordIndex(3, 7)) == 0x00000000 && ShiftCount(3, 7) == 21 && SineRow(3)[7] == 0x85845DD1
  {
  }

  lemma Values4a()
    ensures Operation(Quad(0x7F2E507B, 0x7BEB9700, 0x8FAE6399, 0x99D9679D), 3, 0x80636261, 6, 0xF4292244)
      == Quad(0x99D9679D, 0x7B201DF8, 0x7BEB9700, 0x8FAE6399)
    ensures Operation(Quad(0x99D9679D, 0x7B201DF8, 0x7BEB9700, 0x8FAE6399), 3, 0x00000000, 10, 0x432AFF97)
      == Quad(0x8FAE6399, 0xF4E8E96E, 0x7B201DF8, 0x7BEB9700)
    ensures Operation(Quad(0x8FAE6399, 0xF4E8E96E, 0x7B201DF8, 0x7BEB9700), 3, 0x00000018, 15, 0xAB9423A7)
      == Quad(0x7BEB9700, 0xB298CEFD, 0xF4E8E96E, 0x7B201DF8)
    ensures Operation(Quad(0x7BEB9700, 0xB298CEFD, 0xF4E8E96E, 0x7B201DF8), 3, 0x00000000, 21, 0xFC93A039)
      == Quad(0x7B201DF8, 0x8BF025C4, 0xB298CEFD, 0xF4E8E96E)
    ensures Operation(Quad(0x7B201DF8, 0x8BF025C4, 0xB298CEFD, 0xF4E8E96E), 3, 0x00000000, 6, 0x655B59C3)
      == Quad(0xF4E8E96E, 0x06CC5E8A, 0x8BF025C4, 0xB298CEFD)
    ensures Operation(Quad(0xF4E8E96E, 0x06CC5E8A, 0x8BF025C4, 0xB298CEFD), 3, 0x00000000, 10, 0x8F0CCC92)
      == Quad(0xB298CEFD, 0x5B0D97AA, 0x06CC5E8A, 0x8BF025C4)
    ensures Operation(Quad(0xB298CEFD, 0x5B0D97AA, 0x06CC5E8A, 0x8BF025C4), 3, 0x00000000, 15, 0xFFEFF47D)
      == Quad(0x8BF025C4, 0x7D632DD0, 0x5B0D97AA, 0x06CC5E8A)
    ensures Operation(Quad(0x8BF025C4, 0x7D632DD0, 0x5B0D97AA, 0x06CC5E8A), 3, 0x00000000, 21, 0x85845DD1)
      == Quad(0x06CC5E8A, 0x3BFA2C27, 0x7D632DD0, 0x5B0D97AA)
  {
  }

  lemma Steps4a()
    ensures EightSteps(Quad(0x7F2E507B, 0x7BEB9700, 0x8FAE6399, 0x99D9679D), 3, 0)
      == Quad(0x06CC5E8A, 0x3BFA2C27, 0x7D632DD0, 0x5B0D97AA)
  {
    hide Operation, AbcWord, WordIndex, ShiftCount, SineRow;
    Settings4a();
    Values4a();
  }

  lemma Settings4b()
    ensures AbcWord(WordIndex(3, 8)) == 0x00000000 && ShiftCount(3, 8) == 6 && SineRow(3)[8] == 0x6FA87E4F
    ensures AbcWord(WordIndex(3, 9)) == 0x00000000 && ShiftCount(3, 9) == 10 && SineRow(3)[9] == 0xFE2CE6E0
    ensures AbcWord(WordIndex(3, 10)) == 0x00000000 && ShiftCount(3, 10) == 15 && SineRow(3)[10] == 0xA3014314
    ensures AbcWord(WordIndex(3, 11)) == 0x00000000 && ShiftCount(3, 11) == 21 && SineRow(3)[11] == 0x4E0811A1
    ensures AbcWord(WordIndex(3, 12)) == 0x00000000 && ShiftCount(3, 12) == 6 && SineRow(3)[12] == 0xF7537E82
    ensures AbcWord(WordIndex(3, 13)) == 0x00000000 && ShiftCount(3, 13) == 10 && SineRow(3)[13] == 0xBD3AF235
    ensures AbcWord(WordIndex(3, 14)) == 0x00000000 && ShiftCount(3, 14) == 15 && SineRow(3)[14] == 0x2AD7D2BB
    ensures AbcWord(WordIndex(3, 15)) == 0x00000000 && ShiftCount(3, 15) == 21 && SineRow(3)[15] == 0xEB86D391
  {
  }

  lemma Values4b()
    ensures Operation(Quad(0x06CC5E8A, 0x3BFA2C27, 0x7D632DD0, 0x5B0D97AA), 3, 0x00000000, 6, 0x6FA87E4F)
      == Quad(0x5B0D97AA, 0x7F81CC35, 0x3BFA2C27, 0x7D632DD0)
    ensures Operation(Quad(0x5B0D97AA, 0x7F81CC35, 0x3BFA2C27, 0x7D632DD0), 3, 0x00000000, 10, 0xFE2CE6E0)
      == Quad(0x7D632DD0, 0x094454AB, 0x7F81CC35, 0x3BFA2C27)
    ensures Operation(Quad(0x7D632DD0, 0x094454AB, 0x7F81CC35, 0x3BFA2C27), 3, 0x00000000, 15, 0xA3014314)
      == Quad(0x3BFA2C27, 0x4F9DBE3F, 0x094454AB, 0x7F81CC35)
    ensures Operation(Quad(0x3BFA2C27, 0x4F9DBE3F, 0x094454AB, 0x7F81CC35), 3, 0x00000000, 21, 0x4E0811A1)
      == Quad(0x7F81CC35, 0x7327D604, 0x4F9DBE3F, 0x094454AB)
    ensures Operation(Quad(0x7F81CC35, 0x7327D604, 0x4F9DBE3F, 0x094454AB), 3, 0x00000000, 6, 0xF7537E82)
      == Quad(0x094454AB, 0x310ADE8F, 0x7327D604, 0x4F9DBE3F)
    ensures Operation(Quad(0x094454AB, 0x310ADE8F, 0x7327D604, 0x4F9DBE3F), 3, 0x00000000, 10, 0xBD3AF235)
      == Quad(0x4F9DBE3F, 0x624D8CB2, 0x310ADE8F, 0x7327D604)
    ensures Operation(Quad(0x4F9DBE3F, 0x624D8CB2, 0x310ADE8F, 0x7327D604), 3, 0x00000000, 15, 0x2AD7D2BB)
      == Quad(0x7327D604, 0xE484B9D8, 0x624D8CB2, 0x310ADE8F)
    ensures Operation(Quad(0x7327D604, 0xE484B9D8, 0x624D8CB2, 0x310ADE8F), 3, 0x00000000, 21, 0xEB86D391)
      == Quad(0x310ADE8F, 0xC08226B3, 0xE484B9D8, 0x624D8CB2)
  {
  }

  lemma Steps4b()
    ensures EightSteps(Quad(0x06CC5E8A, 0x3BFA2C27, 0x7D632DD0, 0x5B0D97AA), 3, 8)
      == Quad(0x310ADE8F, 0xC08226B3, 0xE484B9D8, 0x624D8CB2)
  {
    hide Operation, AbcWord, WordIndex, ShiftCount, SineRow;
    Settings4b();
    Values4b();
  }

  lemma AbcRounds()
    ensures FourRounds(Quad(0x67452301, 0xEFCDAB89, 0x98BADCFE, 0x10325476), AbcBlock())
      == Quad(0x310ADE8F, 0xC08226B3, 0xE484B9D8, 0x624D8CB2)
  {
    hide Steps, EightSteps, AbcBlock;
    WholeRound(Quad(0x67452301, 0xEFCDAB89, 0x98BADCFE, 0x10325476), 0);
    Steps1a();
    Steps1b();
    WholeRound(Quad(0xDDA9B9A6, 0x72AFF2E0, 0xE396856B, 0xA1051895), 1);
    Steps2a();
    Steps2b();
    WholeRound(Quad(0x790A77FB, 0x726342D3, 0xA62884AA, 0x9F47E4F8), 2);
    Steps3a();
    Steps3b();
    WholeRound(Quad(0x7F2E507B, 0x7BEB9700, 0x8FAE6399, 0x99D9679D), 3);
    Steps4a();
    Steps4b();
  }

  lemma LastSum()
    ensures InitialRegisters() == Quad(0x67452301, 0xEFCDAB89, 0x98BADCFE, 0x10325476)
    ensures AddQuad(InitialRegisters(), Quad(0x310ADE8F, 0xC08226B3, 0xE484B9D8, 0x624D8CB2))
      == Quad(0x98500190, 0xB04FD23C, 0x7D3F96D6, 0x727FE128)
  {
  }

  lemma DigestBytes()
    ensures BytesLE(0x98500190) == [0x90, 0x01, 0x50, 0x98] && BytesLE(0xB04FD23C) == [0x3c, 0xd2, 0x4f, 0xb0]
    ensures BytesLE(0x7D3F96D6) == [0xd6, 0x96, 0x3f, 0x7d] && BytesLE(0x727FE128) == [0x28, 0xe1, 0x7f, 0x72]
  {
  }

  /** MD5 of "abc". */
  lemma AbcDigest()
    ensures Md5([0x61, 0x62, 0x63]) ==
      [0x90, 0x01, 0x50, 0x98, 0x3c, 0xd2, 0x4f, 0xb0, 0xd6, 0x96, 0x3f, 0x7d, 0x28, 0xe1, 0x7f, 0x72]
  {
    hide FourRounds, AddQuad, PadWith, AbcBlock, InitialRegisters, BytesLE, Fold;
    AbcPadded();
    FoldOne(Compress, InitialRegisters(), AbcBlock());
    AbcRounds();
    LastSum();
    DigestBytes();
  }
}
