/**
  The digest of "abc", the first example worked out for the standard. It is computed here step by
  step from the definition, so it fixes all constants and orders of the definition at once.
 */
module Sha256Vector {
  import opened Bytes
  import opened Words
  import opened BlockHash
  import opened Fips180
  import opened Sha256Constants

  // ---------- the padded message ----------

  /** The three bytes, the one bit, 52 zeros and the length of 24 bits. */
  function AbcBlock(): (m: Block) {
    [0x61, 0x62, 0x63, 0x80] + Zeros(52) + [0, 0, 0, 0, 0, 0, 0, 24]
  }

  lemma AbcPadded()
    ensures Pad([0x61, 0x62, 0x63]) == AbcBlock()
  {
    hide ByteOf, Bytes32BE, Padding, Zeros;
    AbcLength();
    AbcPadding();
    assert [0x61, 0x62, 0x63] + ([0x80] + Zeros(52)) == [0x61, 0x62, 0x63, 0x80] + Zeros(52);
    assert Pad([0x61, 0x62, 0x63]) == [0x61, 0x62, 0x63] + ([0x80] + Zeros(52)) + ([0, 0, 0, 0] + [0, 0, 0, 24]);
  }

  lemma AbcPadding()
    ensures Padding(3) == [0x80] + Zeros(52)
  {
    hide Zeros;
  }

  lemma AbcLength()
    ensures Bytes32BE(0) == [0, 0, 0, 0] && Bytes32BE(24) == [0, 0, 0, 24]
  {
    hide ByteOf, Value;
    ByteOfValue(0);
    ByteOfValue(24);
    SmallValues();
    ValueInjective(ByteOf(0), 0);
    ValueInjective(ByteOf(24), 24);
  }

  lemma SmallValues()
    ensures Value(0) == 0 && Value(24) == 24
  {
  }

  // ---------- the schedule ----------

  function WordRow(r: nat): (w: seq<bv32>)
    ensures |w| == 8
  {
    if r == 0 then
      [0x61626380, 0x00000000, 0x00000000, 0x00000000, 0x00000000, 0x00000000, 0x00000000, 0x00000000]
    else if r == 1 then
      [0x00000000, 0x00000000, 0x00000000, 0x00000000, 0x00000000, 0x00000000, 0x00000000, 0x00000018]
    else if r == 2 then
      [0x61626380, 0x000F0000, 0x7DA86405, 0x600003C6, 0x3E9D7B78, 0x0183FC00, 0x12DCBFDB, 0xE2E2C38E]
    else if r == 3 then
      [0xC8215C1A, 0xB73679A2, 0xE5BC3909, 0x32663C5B, 0x9D209D67, 0xEC8726CB, 0x702138A4, 0xD3B7973B]
    else if r == 4 then
      [0x93F5997F, 0x3B68BA73, 0xAFF4FFC1, 0xF10A5C62, 0x0A8B3996, 0x72AF830A, 0x9409E33E, 0x24641522]
    else if r == 5 then
      [0x9F47BF94, 0xF0A64F5A, 0x3E246A79, 0x27333BA3, 0x0C4763F2, 0x840ABF27, 0x7A290D5D, 0x065C43DA]
    else if r == 6 then
      [0xFB3E89CB, 0xCC7617DB, 0xB9E66C34, 0xA9993667, 0x84BADEDD, 0xC21462BC, 0x1487472C, 0xB20F7A99]
    else
      [0xEF57B9CD, 0xEBE6B238, 0x9FE3095E, 0x78BC8D4B, 0xA43FCF15, 0x668B2FF8, 0xEEABA2CC, 0x12B1EDEB]
  }

  function AbcWord(t: nat): bv32 {
    WordRow(t / 8)[t % 8]
  }

  predicate Extends(t: nat)
    requires t >= 16
  {
    AbcWord(t) == Plus(Plus(SmallSigma1(AbcWord(t - 2)), AbcWord(t - 7)),
                       Plus(SmallSigma0(AbcWord(t - 15)), AbcWord(t - 16)))
  }

  lemma FirstWords(t: nat)
    requires t < 16
    ensures Schedule(AbcBlock(), t) == AbcWord(t)
  {
    hide WordBE, AbcBlock, AbcWord;
    WordValues();
    BytesAre(t);
    FirstRows(t);
  }

  lemma BytesAre(t: nat)
    requires t < 16
    ensures var m := AbcBlock();
      if t == 0 then m[0] == 0x61 && m[1] == 0x62 && m[2] == 0x63 && m[3] == 0x80
      else m[4 * t] == m[4 * t + 1] == m[4 * t + 2] == 0 && m[4 * t + 3] == if t == 15 then 24 else 0
  {
  }

  lemma FirstRows(t: nat)
    requires t < 16
    ensures AbcWord(t) == if t == 0 then 0x61626380 else if t == 15 then 0x18 else 0
  {
    Words0();
    Words8();
  }

  lemma WordValues()
    ensures WordBE(0x61, 0x62, 0x63, 0x80) == 0x61626380 && WordBE(0, 0, 0, 24) == 0x18 && WordBE(0, 0, 0, 0) == 0
  {
  }

  lemma Words0()
    ensures AbcWord(0) == 0x61626380 && AbcWord(1) == 0x00000000
    ensures AbcWord(2) == 0x00000000 && AbcWord(3) == 0x00000000
    ensures AbcWord(4) == 0x00000000 && AbcWord(5) == 0x00000000
    ensures AbcWord(6) == 0x00000000 && AbcWord(7) == 0x00000000
  {
  }

  lemma Words8()
    ensures AbcWord(8) == 0x00000000 && AbcWord(9) == 0x00000000
    ensures AbcWord(10) == 0x00000000 && AbcWord(11) == 0x00000000
    ensures AbcWord(12) == 0x00000000 && AbcWord(13) == 0x00000000
    ensures AbcWord(14) == 0x00000000 && AbcWord(15) == 0x00000018
  {
  }

  lemma Words16()
    ensures AbcWord(16) == 0x61626380 && AbcWord(17) == 0x000F0000
    ensures AbcWord(18) == 0x7DA86405 && AbcWord(19) == 0x600003C6
    ensures AbcWord(20) == 0x3E9D7B78 && AbcWord(21) == 0x0183FC00
    ensures AbcWord(22) == 0x12DCBFDB && AbcWord(23) == 0xE2E2C38E
  {
  }

  lemma Words24()
    ensures AbcWord(24) == 0xC8215C1A && AbcWord(25) == 0xB73679A2
    ensures AbcWord(26) == 0xE5BC3909 && AbcWord(27) == 0x32663C5B
    ensures AbcWord(28) == 0x9D209D67 && AbcWord(29) == 0xEC8726CB
    ensures AbcWord(30) == 0x702138A4 && AbcWord(31) == 0xD3B7973B
  {
  }

  lemma Words32()
    ensures AbcWord(32) == 0x93F5997F && AbcWord(33) == 0x3B68BA73
    ensures AbcWord(34) == 0xAFF4FFC1 && AbcWord(35) == 0xF10A5C62
    ensures AbcWord(36) == 0x0A8B3996 && AbcWord(37) == 0x72AF830A
    ensures AbcWord(38) == 0x9409E33E && AbcWord(39) == 0x24641522
  {
  }

  lemma Words40()
    ensures AbcWord(40) == 0x9F47BF94 && AbcWord(41) == 0xF0A64F5A
    ensures AbcWord(42) == 0x3E246A79 && AbcWord(43) == 0x27333BA3
    ensures AbcWord(44) == 0x0C4763F2 && AbcWord(45) == 0x840ABF27
    ensures AbcWord(46) == 0x7A290D5D && AbcWord(47) == 0x065C43DA
  {
  }

  lemma Words48()
    ensures AbcWord(48) == 0xFB3E89CB && AbcWord(49) == 0xCC7617DB
    ensures AbcWord(50) == 0xB9E66C34 && AbcWord(51) == 0xA9993667
    ensures AbcWord(52) == 0x84BADEDD && AbcWord(53) == 0xC21462BC
    ensures AbcWord(54) == 0x1487472C && AbcWord(55) == 0xB20F7A99
  {
  }

  lemma Words56()
    ensures AbcWord(56) == 0xEF57B9CD && AbcWord(57) == 0xEBE6B238
    ensures AbcWord(58) == 0x9FE3095E && AbcWord(59) == 0x78BC8D4B
    ensures AbcWord(60) == 0xA43FCF15 && AbcWord(61) == 0x668B2FF8
    ensures AbcWord(62) == 0xEEABA2CC && AbcWord(63) == 0x12B1EDEB
  {
  }

  lemma Sums16()
    ensures Plus(Plus(SmallSigma1(0x00000000), 0x00000000), Plus(SmallSigma0(0x00000000), 0x61626380))
      == 0x61626380
    ensures Plus(Plus(SmallSigma1(0x00000018), 0x00000000), Plus(SmallSigma0(0x00000000), 0x00000000))
      == 0x000F0000
    ensures Plus(Plus(SmallSigma1(0x61626380), 0x00000000), Plus(SmallSigma0(0x00000000), 0x00000000))
      == 0x7DA86405
    ensures Plus(Plus(SmallSigma1(0x000F0000), 0x00000000), Plus(SmallSigma0(0x00000000), 0x00000000))
      == 0x600003C6
    ensures Plus(Plus(SmallSigma1(0x7DA86405), 0x00000000), Plus(SmallSigma0(0x00000000), 0x00000000))
      == 0x3E9D7B78
    ensures Plus(Plus(SmallSigma1(0x600003C6), 0x00000000), Plus(SmallSigma0(0x00000000), 0x00000000))
      == 0x0183FC00
    ensures Plus(Plus(SmallSigma1(0x3E9D7B78), 0x00000018), Plus(SmallSigma0(0x00000000), 0x00000000))
      == 0x12DCBFDB
    ensures Plus(Plus(SmallSigma1(0x0183FC00), 0x61626380), Plus(SmallSigma0(0x00000000), 0x00000000))
      == 0xE2E2C38E
  {
  }

  lemma Row16()
    ensures Extends(16) && Extends(17) && Extends(18) && Extends(19)
    ensures Extends(20) && Extends(21) && Extends(22) && Extends(23)
  {
    hide AbcWord, Plus, SmallSigma0, SmallSigma1;
    Words0();
    Words8();
    Words16();
    Sums16();
  }

  lemma Sums24()
    ensures Plus(Plus(SmallSigma1(0x12DCBFDB), 0x000F0000), Plus(SmallSigma0(0x00000000), 0x00000000))
      == 0xC8215C1A
    ensures Plus(Plus(SmallSigma1(0xE2E2C38E), 0x7DA86405), Plus(SmallSigma0(0x00000000), 0x00000000))
      == 0xB73679A2
    ensures Plus(Plus(SmallSigma1(0xC8215C1A), 0x600003C6), Plus(SmallSigma0(0x00000000), 0x00000000))
      == 0xE5BC3909
    ensures Plus(Plus(SmallSigma1(0xB73679A2), 0x3E9D7B78), Plus(SmallSigma0(0x00000000), 0x00000000))
      == 0x32663C5B
    ensures Plus(Plus(SmallSigma1(0xE5BC3909), 0x0183FC00), Plus(SmallSigma0(0x00000000), 0x00000000))
      == 0x9D209D67
    ensures Plus(Plus(SmallSigma1(0x32663C5B), 0x12DCBFDB), Plus(SmallSigma0(0x00000000), 0x00000000))
      == 0xEC8726CB
    ensures Plus(Plus(SmallSigma1(0x9D209D67), 0xE2E2C38E), Plus(SmallSigma0(0x00000018), 0x00000000))
      == 0x702138A4
    ensures Plus(Plus(SmallSigma1(0xEC8726CB), 0xC8215C1A), Plus(SmallSigma0(0x61626380), 0x00000018))
      == 0xD3B7973B
  {
  }

  lemma Row24()
    ensures Extends(24) && Extends(25) && Extends(26) && Extends(27)
    ensures Extends(28) && Extends(29) && Extends(30) && Extends(31)
  {
    hide AbcWord, Plus, SmallSigma0, SmallSigma1;
    Words8();
    Words16();
    Words24();
    Sums24();
  }

  lemma Sums32()
    ensures Plus(Plus(SmallSigma1(0x702138A4), 0xB73679A2), Plus(SmallSigma0(0x000F0000), 0x61626380))
      == 0x93F5997F
    ensures Plus(Plus(SmallSigma1(0xD3B7973B), 0xE5BC3909), Plus(SmallSigma0(0x7DA86405), 0x000F0000))
      == 0x3B68BA73
    ensures Plus(Plus(SmallSigma1(0x93F5997F), 0x32663C5B), Plus(SmallSigma0(0x600003C6), 0x7DA86405))
      == 0xAFF4FFC1
    ensures Plus(Plus(SmallSigma1(0x3B68BA73), 0x9D209D67), Plus(SmallSigma0(0x3E9D7B78), 0x600003C6))
      == 0xF10A5C62
    ensures Plus(Plus(SmallSigma1(0xAFF4FFC1), 0xEC8726CB), Plus(SmallSigma0(0x0183FC00), 0x3E9D7B78))
      == 0x0A8B3996
    ensures Plus(Plus(SmallSigma1(0xF10A5C62), 0x702138A4), Plus(SmallSigma0(0x12DCBFDB), 0x0183FC00))
      == 0x72AF830A
    ensures Plus(Plus(SmallSigma1(0x0A8B3996), 0xD3B7973B), Plus(SmallSigma0(0xE2E2C38E), 0x12DCBFDB))
      == 0x9409E33E
    ensures Plus(Plus(SmallSigma1(0x72AF830A), 0x93F5997F), Plus(SmallSigma0(0xC8215C1A), 0xE2E2C38E))
      == 0x24641522
  {
  }

  lemma Row32()
    ensures Extends(32) && Extends(33) && Extends(34) && Extends(35)
    ensures Extends(36) && Extends(37) && Extends(38) && Extends(39)
  {
    hide AbcWord, Plus, SmallSigma0, SmallSigma1;
    Words16();
    Words24();
    Words32();
    Sums32();
  }

  lemma Sums40()
    ensures Plus(Plus(SmallSigma1(0x9409E33E), 0x3B68BA73), Plus(SmallSigma0(0xB73679A2), 0xC8215C1A))
      == 0x9F47BF94
    ensures Plus(Plus(SmallSigma1(0x24641522), 0xAFF4FFC1), Plus(SmallSigma0(0xE5BC3909), 0xB73679A2))
      == 0xF0A64F5A
    ensures Plus(Plus(SmallSigma1(0x9F47BF94), 0xF10A5C62), Plus(SmallSigma0(0x32663C5B), 0xE5BC3909))
      == 0x3E246A79
    ensures Plus(Plus(SmallSigma1(0xF0A64F5A), 0x0A8B3996), Plus(SmallSigma0(0x9D209D67), 0x32663C5B))
      == 0x27333BA3
    ensures Plus(Plus(SmallSigma1(0x3E246A79), 0x72AF830A), Plus(SmallSigma0(0xEC8726CB), 0x9D209D67))
      == 0x0C4763F2
    ensures Plus(Plus(SmallSigma1(0x27333BA3), 0x9409E33E), Plus(SmallSigma0(0x702138A4), 0xEC8726CB))
      == 0x840ABF27
    ensures Plus(Plus(SmallSigma1(0x0C4763F2), 0x24641522), Plus(SmallSigma0(0xD3B7973B), 0x702138A4))
      == 0x7A290D5D
    ensures Plus(Plus(SmallSigma1(0x840ABF27), 0x9F47BF94), Plus(SmallSigma0(0x93F5997F), 0xD3B7973B))
      == 0x065C43DA
  {
  }

  lemma Row40()
    ensures Extends(40) && Extends(41) && Extends(42) && Extends(43)
    ensures Extends(44) && Extends(45) && Extends(46) && Extends(47)
  {
    hide AbcWord, Plus, SmallSigma0, SmallSigma1;
    Words24();
    Words32();
    Words40();
    Sums40();
  }

  lemma Sums48()
    ensures Plus(Plus(SmallSigma1(0x7A290D5D), 0xF0A64F5A), Plus(SmallSigma0(0x3B68BA73), 0x93F5997F))
      == 0xFB3E89CB
    ensures Plus(Plus(SmallSigma1(0x065C43DA), 0x3E246A79), Plus(SmallSigma0(0xAFF4FFC1), 0x3B68BA73))
      == 0xCC7617DB
    ensures Plus(Plus(SmallSigma1(0xFB3E89CB), 0x27333BA3), Plus(SmallSigma0(0xF10A5C62), 0xAFF4FFC1))
      == 0xB9E66C34
    ensures Plus(Plus(SmallSigma1(0xCC7617DB), 0x0C4763F2), Plus(SmallSigma0(0x0A8B3996), 0xF10A5C62))
      == 0xA9993667
    ensures Plus(Plus(SmallSigma1(0xB9E66C34), 0x840ABF27), Plus(SmallSigma0(0x72AF830A), 0x0A8B3996))
      == 0x84BADEDD
    ensures Plus(Plus(SmallSigma1(0xA9993667), 0x7A290D5D), Plus(SmallSigma0(0x9409E33E), 0x72AF830A))
      == 0xC21462BC
    ensures Plus(Plus(SmallSigma1(0x84BADEDD), 0x065C43DA), Plus(SmallSigma0(0x24641522), 0x9409E33E))
      == 0x1487472C
    ensures Plus(Plus(SmallSigma1(0xC21462BC), 0xFB3E89CB), Plus(SmallSigma0(0x9F47BF94), 0x24641522))
      == 0xB20F7A99
  {
  }

  lemma Row48()
    ensures Extends(48) && Extends(49) && Extends(50) && Extends(51)
    ensures Extends(52) && Extends(53) && Extends(54) && Extends(55)
  {
    hide AbcWord, Plus, SmallSigma0, SmallSigma1;
    Words32();
    Words40();
    Words48();
    Sums48();
  }

  lemma Sums56()
    ensures Plus(Plus(SmallSigma1(0x1487472C), 0xCC7617DB), Plus(SmallSigma0(0xF0A64F5A), 0x9F47BF94))
      == 0xEF57B9CD
    ensures Plus(Plus(SmallSigma1(0xB20F7A99), 0xB9E66C34), Plus(SmallSigma0(0x3E246A79), 0xF0A64F5A))
      == 0xEBE6B238
    ensures Plus(Plus(SmallSigma1(0xEF57B9CD), 0xA9993667), Plus(SmallSigma0(0x27333BA3), 0x3E246A79))
      == 0x9FE3095E
    ensures Plus(Plus(SmallSigma1(0xEBE6B238), 0x84BADEDD), Plus(SmallSigma0(0x0C4763F2), 0x27333BA3))
      == 0x78BC8D4B
    ensures Plus(Plus(SmallSigma1(0x9FE3095E), 0xC21462BC), Plus(SmallSigma0(0x840ABF27), 0x0C4763F2))
      == 0xA43FCF15
    ensures Plus(Plus(SmallSigma1(0x78BC8D4B), 0x1487472C), Plus(SmallSigma0(0x7A290D5D), 0x840ABF27))
      == 0x668B2FF8
    ensures Plus(Plus(SmallSigma1(0xA43FCF15), 0xB20F7A99), Plus(SmallSigma0(0x065C43DA), 0x7A290D5D))
      == 0xEEABA2CC
    ensures Plus(Plus(SmallSigma1(0x668B2FF8), 0xEF57B9CD), Plus(SmallSigma0(0xFB3E89CB), 0x065C43DA))
      == 0x12B1EDEB
  {
  }

  lemma Row56()
    ensures Extends(56) && Extends(57) && Extends(58) && Extends(59)
    ensures Extends(60) && Extends(61) && Extends(62) && Extends(63)
  {
    hide AbcWord, Plus, SmallSigma0, SmallSigma1;
    Words40();
    Words48();
    Words56();
    Sums56();
  }

  lemma AllExtend(t: nat)
    requires 16 <= t < 64
    ensures Extends(t)
  {
    hide Extends;
    Row16();
    Row24();
    Row32();
    Row40();
    Row48();
    Row56();
  }

  lemma {:induction false} ScheduleIs(t: nat)
    requires t < 64
    ensures Schedule(AbcBlock(), t) == AbcWord(t)
    decreases t
  {
    hide AbcBlock, AbcWord, SmallSigma0, SmallSigma1, Plus, WordBE;
    if t < 16 {
      FirstWords(t);
    } else {
      AllExtend(t);
      ScheduleIs(t - 2);
      ScheduleIs(t - 7);
      ScheduleIs(t - 15);
      ScheduleIs(t - 16);
    }
  }

  // ---------- the rounds ----------

  function OneRound(u: Work, t: nat): Work
    requires t < 64
  {
    Round(u, AbcWord(t), K(t))
  }

  function EightRounds(u: Work, t: nat): Work
    requires t <= 56
  {
    OneRound(OneRound(OneRound(OneRound(OneRound(OneRound(OneRound(OneRound(
      u, t), t + 1), t + 2), t + 3), t + 4), t + 5), t + 6), t + 7)
  }

  lemma Values0()
    ensures
      var a0, a1, a2, a3, a4, a5 := 0xA54FF53A, 0x3C6EF372, 0xBB67AE85, 0x6A09E667, 0x5D6AEBCD, 0x5A6AD9AD;
      var a6, a7, a8, a9, a10, a11 := 0xC8C347A7, 0xD550F666, 0x04409A6A, 0x2B4209F5, 0xE5030380, 0x85A07B5F;
      var e0, e1, e2, e3, e4, e5 := 0x5BE0CD19, 0x1F83D9AB, 0x9B05688C, 0x510E527F, 0xFA2A4622, 0x78CE7989;
      var e6, e7, e8, e9, e10, e11 := 0xF92939EB, 0x24E00850, 0x43ADA245, 0x714260AD, 0x9B27A401, 0x0C657A79;
      && Round(Work(a3, a2, a1, a0, e3, e2, e1, e0), 0x61626380, 0x428A2F98) == Work(a4, a3, a2, a1, e4, e3, e2, e1)
      && Round(Work(a4, a3, a2, a1, e4, e3, e2, e1), 0x00000000, 0x71374491) == Work(a5, a4, a3, a2, e5, e4, e3, e2)
      && Round(Work(a5, a4, a3, a2, e5, e4, e3, e2), 0x00000000, 0xB5C0FBCF) == Work(a6, a5, a4, a3, e6, e5, e4, e3)
      && Round(Work(a6, a5, a4, a3, e6, e5, e4, e3), 0x00000000, 0xE9B5DBA5) == Work(a7, a6, a5, a4, e7, e6, e5, e4)
      && Round(Work(a7, a6, a5, a4, e7, e6, e5, e4), 0x00000000, 0x3956C25B) == Work(a8, a7, a6, a5, e8, e7, e6, e5)
      && Round(Work(a8, a7, a6, a5, e8, e7, e6, e5), 0x00000000, 0x59F111F1) == Work(a9, a8, a7, a6, e9, e8, e7, e6)
      && Round(Work(a9, a8, a7, a6, e9, e8, e7, e6), 0x00000000, 0x923F82A4) == Work(a10, a9, a8, a7, e10, e9, e8, e7)
      && Round(Work(a10, a9, a8, a7, e10, e9, e8, e7), 0x00000000, 0xAB1C5ED5)
        == Work(a11, a10, a9, a8, e11, e10, e9, e8)
  {
  }

  lemma Rounds0()
    ensures EightRounds(
        Work(0x6A09E667, 0xBB67AE85, 0x3C6EF372, 0xA54FF53A, 0x510E527F, 0x9B05688C, 0x1F83D9AB, 0x5BE0CD19), 0)
      == Work(0x85A07B5F, 0xE5030380, 0x2B4209F5, 0x04409A6A, 0x0C657A79, 0x9B27A401, 0x714260AD, 0x43ADA245)
  {
    hide Round, AbcWord, K;
    Words0();
    Constants0();
    Values0();
  }

  lemma Values8()
    ensures
      var a0, a1, a2, a3, a4, a5 := 0x04409A6A, 0x2B4209F5, 0xE5030380, 0x85A07B5F, 0x8E04ECB9, 0x8C87346B;
      var a6, a7, a8, a9, a10, a11 := 0x4798A3F4, 0xF71FC5A9, 0x87912990, 0xD932EB16, 0xC0645FDE, 0xB0FA238E;
      var e0, e1, e2, e3, e4, e5 := 0x43ADA245, 0x714260AD, 0x9B27A401, 0x0C657A79, 0x32CA2D8C, 0x1CC92596;
      var e6, e7, e8, e9, e10, e11 := 0x436B23E8, 0x816FD6E9, 0x1E578218, 0x745A48DE, 0x0B92F20C, 0x07590DCD;
      && Round(Work(a3, a2, a1, a0, e3, e2, e1, e0), 0x00000000, 0xD807AA98) == Work(a4, a3, a2, a1, e4, e3, e2, e1)
      && Round(Work(a4, a3, a2, a1, e4, e3, e2, e1), 0x00000000, 0x12835B01) == Work(a5, a4, a3, a2, e5, e4, e3, e2)
      && Round(Work(a5, a4, a3, a2, e5, e4, e3, e2), 0x00000000, 0x243185BE) == Work(a6, a5, a4, a3, e6, e5, e4, e3)
      && Round(Work(a6, a5, a4, a3, e6, e5, e4, e3), 0x00000000, 0x550C7DC3) == Work(a7, a6, a5, a4, e7, e6, e5, e4)
      && Round(Work(a7, a6, a5, a4, e7, e6, e5, e4), 0x00000000, 0x72BE5D74) == Work(a8, a7, a6, a5, e8, e7, e6, e5)
      && Round(Work(a8, a7, a6, a5, e8, e7, e6, e5), 0x00000000, 0x80DEB1FE) == Work(a9, a8, a7, a6, e9, e8, e7, e6)
      && Round(Work(a9, a8, a7, a6, e9, e8, e7, e6), 0x00000000, 0x9BDC06A7) == Work(a10, a9, a8, a7, e10, e9, e8, e7)
      && Round(Work(a10, a9, a8, a7, e10, e9, e8, e7), 0x00000018, 0xC19BF174)
        == Work(a11, a10, a9, a8, e11, e10, e9, e8)
  {
  }

  lemma Rounds8()
    ensures EightRounds(
        Work(0x85A07B5F, 0xE5030380, 0x2B4209F5, 0x04409A6A, 0x0C657A79, 0x9B27A401, 0x714260AD, 0x43ADA245), 8)
      == Work(0xB0FA238E, 0xC0645FDE, 0xD932EB16, 0x87912990, 0x07590DCD, 0x0B92F20C, 0x745A48DE, 0x1E578218)
  {
    hide Round, AbcWord, K;
    Words8();
    Constants1();
    Values8();
  }

  lemma Values16()
    ensures
      var a0, a1, a2, a3, a4, a5 := 0x87912990, 0xD932EB16, 0xC0645FDE, 0xB0FA238E, 0x21DA9A9B, 0xC2FBD9D1;
      var a6, a7, a8, a9, a10, a11 := 0xFE777BBF, 0xE1F20C33, 0x9DC68B63, 0xC2606D6D, 0xA7A3623F, 0xC5D53D8D;
      var e0, e1, e2, e3, e4, e5 := 0x1E578218, 0x745A48DE, 0x0B92F20C, 0x07590DCD, 0x8034229C, 0x846EE454;
      var e6, e7, e8, e9, e10, e11 := 0xCC899961, 0xB0638179, 0x8ADA8930, 0xE1257970, 0x49F5114A, 0xAA47C347;
      && Round(Work(a3, a2, a1, a0, e3, e2, e1, e0), 0x61626380, 0xE49B69C1) == Work(a4, a3, a2, a1, e4, e3, e2, e1)
      && Round(Work(a4, a3, a2, a1, e4, e3, e2, e1), 0x000F0000, 0xEFBE4786) == Work(a5, a4, a3, a2, e5, e4, e3, e2)
      && Round(Work(a5, a4, a3, a2, e5, e4, e3, e2), 0x7DA86405, 0x0FC19DC6) == Work(a6, a5, a4, a3, e6, e5, e4, e3)
      && Round(Work(a6, a5, a4, a3, e6, e5, e4, e3), 0x600003C6, 0x240CA1CC) == Work(a7, a6, a5, a4, e7, e6, e5, e4)
      && Round(Work(a7, a6, a5, a4, e7, e6, e5, e4), 0x3E9D7B78, 0x2DE92C6F) == Work(a8, a7, a6, a5, e8, e7, e6, e5)
      && Round(Work(a8, a7, a6, a5, e8, e7, e6, e5), 0x0183FC00, 0x4A7484AA) == Work(a9, a8, a7, a6, e9, e8, e7, e6)
      && Round(Work(a9, a8, a7, a6, e9, e8, e7, e6), 0x12DCBFDB, 0x5CB0A9DC) == Work(a10, a9, a8, a7, e10, e9, e8, e7)
      && Round(Work(a10, a9, a8, a7, e10, e9, e8, e7), 0xE2E2C38E, 0x76F988DA)
        == Work(a11, a10, a9, a8, e11, e10, e9, e8)
  {
  }

  lemma Rounds16()
    ensures EightRounds(
        Work(0xB0FA238E, 0xC0645FDE, 0xD932EB16, 0x87912990, 0x07590DCD, 0x0B92F20C, 0x745A48DE, 0x1E578218), 16)
      == Work(0xC5D53D8D, 0xA7A3623F, 0xC2606D6D, 0x9DC68B63, 0xAA47C347, 0x49F5114A, 0xE1257970, 0x8ADA8930)
  {
    hide Round, AbcWord, K;
    Words16();
    Constants2();
    Values16();
  }

  lemma Values24()
    ensures
      var a0, a1, a2, a3, a4, a5 := 0x9DC68B63, 0xC2606D6D, 0xA7A3623F, 0xC5D53D8D, 0x1C2C2838, 0xCDE8037D;
      var a6, a7, a8, a9, a10, a11 := 0xB62EC4BC, 0x77D37528, 0x363482C9, 0xA0060B30, 0xEA992A22, 0x73B33BF5;
      var e0, e1, e2, e3, e4, e5 := 0x8ADA8930, 0xE1257970, 0x49F5114A, 0xAA47C347, 0x2823EF91, 0x14383D8E;
      var e6, e7, e8, e9, e10, e11 := 0xC74C6516, 0xEDFFBFF8, 0x6112A3B7, 0xADE79437, 0x0109AB3A, 0xBA591112;
      && Round(Work(a3, a2, a1, a0, e3, e2, e1, e0), 0xC8215C1A, 0x983E5152) == Work(a4, a3, a2, a1, e4, e3, e2, e1)
      && Round(Work(a4, a3, a2, a1, e4, e3, e2, e1), 0xB73679A2, 0xA831C66D) == Work(a5, a4, a3, a2, e5, e4, e3, e2)
      && Round(Work(a5, a4, a3, a2, e5, e4, e3, e2), 0xE5BC3909, 0xB00327C8) == Work(a6, a5, a4, a3, e6, e5, e4, e3)
      && Round(Work(a6, a5, a4, a3, e6, e5, e4, e3), 0x32663C5B, 0xBF597FC7) == Work(a7, a6, a5, a4, e7, e6, e5, e4)
      && Round(Work(a7, a6, a5, a4, e7, e6, e5, e4), 0x9D209D67, 0xC6E00BF3) == Work(a8, a7, a6, a5, e8, e7, e6, e5)
      && Round(Work(a8, a7, a6, a5, e8, e7, e6, e5), 0xEC8726CB, 0xD5A79147) == Work(a9, a8, a7, a6, e9, e8, e7, e6)
      && Round(Work(a9, a8, a7, a6, e9, e8, e7, e6), 0x702138A4, 0x06CA6351) == Work(a10, a9, a8, a7, e10, e9, e8, e7)
      && Round(Work(a10, a9, a8, a7, e10, e9, e8, e7), 0xD3B7973B, 0x14292967)
        == Work(a11, a10, a9, a8, e11, e10, e9, e8)
  {
  }

  lemma Rounds24()
    ensures EightRounds(
        Work(0xC5D53D8D, 0xA7A3623F, 0xC2606D6D, 0x9DC68B63, 0xAA47C347, 0x49F5114A, 0xE1257970, 0x8ADA8930), 24)
      == Work(0x73B33BF5, 0xEA992A22, 0xA0060B30, 0x363482C9, 0xBA591112, 0x0109AB3A, 0xADE79437, 0x6112A3B7)
  {
    hide Round, AbcWord, K;
    Words24();
    Constants3();
    Values24();
  }

  lemma Values32()
    ensures
      var a0, a1, a2, a3, a4, a5 := 0x363482C9, 0xA0060B30, 0xEA992A22, 0x73B33BF5, 0x98E12507, 0xFE604DF5;
      var a6, a7, a8, a9, a10, a11 := 0xA9A7738C, 0x65A0CFE4, 0x41A65CB1, 0x34DF1604, 0x6DC57A8A, 0x79EA687A;
      var e0, e1, e2, e3, e4, e5 := 0x6112A3B7, 0xADE79437, 0x0109AB3A, 0xBA591112, 0x9CD9F5F6, 0x59249DD3;
      var e6, e7, e8, e9, e10, e11 := 0x085F3833, 0xF4B002D6, 0x0772A26B, 0xA507A53D, 0xF0781BC8, 0x1EFBC0A0;
      && Round(Work(a3, a2, a1, a0, e3, e2, e1, e0), 0x93F5997F, 0x27B70A85) == Work(a4, a3, a2, a1, e4, e3, e2, e1)
      && Round(Work(a4, a3, a2, a1, e4, e3, e2, e1), 0x3B68BA73, 0x2E1B2138) == Work(a5, a4, a3, a2, e5, e4, e3, e2)
      && Round(Work(a5, a4, a3, a2, e5, e4, e3, e2), 0xAFF4FFC1, 0x4D2C6DFC) == Work(a6, a5, a4, a3, e6, e5, e4, e3)
      && Round(Work(a6, a5, a4, a3, e6, e5, e4, e3), 0xF10A5C62, 0x53380D13) == Work(a7, a6, a5, a4, e7, e6, e5, e4)
      && Round(Work(a7, a6, a5, a4, e7, e6, e5, e4), 0x0A8B3996, 0x650A7354) == Work(a8, a7, a6, a5, e8, e7, e6, e5)
      && Round(Work(a8, a7, a6, a5, e8, e7, e6, e5), 0x72AF830A, 0x766A0ABB) == Work(a9, a8, a7, a6, e9, e8, e7, e6)
      && Round(Work(a9, a8, a7, a6, e9, e8, e7, e6), 0x9409E33E, 0x81C2C92E) == Work(a10, a9, a8, a7, e10, e9, e8, e7)
      && Round(Work(a10, a9, a8, a7, e10, e9, e8, e7), 0x24641522, 0x92722C85)
        == Work(a11, a10, a9, a8, e11, e10, e9, e8)
  {
  }

  lemma Rounds32()
    ensures EightRounds(
        Work(0x73B33BF5, 0xEA992A22, 0xA0060B30, 0x363482C9, 0xBA591112, 0x0109AB3A, 0xADE79437, 0x6112A3B7), 32)
      == Work(0x79EA687A, 0x6DC57A8A, 0x34DF1604, 0x41A65CB1, 0x1EFBC0A0, 0xF0781BC8, 0xA507A53D, 0x0772A26B)
  {
    hide Round, AbcWord, K;
    Words32();
    Constants4();
    Values32();
  }

  lemma Values40()
    ensures
      var a0, a1, a2, a3, a4, a5 := 0x41A65CB1, 0x34DF1604, 0x6DC57A8A, 0x79EA687A, 0xD6670766, 0xDF46652F;
      var a6, a7, a8, a9, a10, a11 := 0x17AA0DFE, 0x9D4BAF93, 0x26628815, 0x72AB4B91, 0xA14C14B0, 0x4172328D;
      var e0, e1, e2, e3, e4, e5 := 0x0772A26B, 0xA507A53D, 0xF0781BC8, 0x1EFBC0A0, 0x26352D63, 0x838B2711;
      var e6, e7, e8, e9, e10, e11 := 0xDECD4715, 0xFDA24C2E, 0xA80F11F0, 0xB7755DA1, 0xD57B94A9, 0xFECF0BC6;
      && Round(Work(a3, a2, a1, a0, e3, e2, e1, e0), 0x9F47BF94, 0xA2BFE8A1) == Work(a4, a3, a2, a1, e4, e3, e2, e1)
      && Round(Work(a4, a3, a2, a1, e4, e3, e2, e1), 0xF0A64F5A, 0xA81A664B) == Work(a5, a4, a3, a2, e5, e4, e3, e2)
      && Round(Work(a5, a4, a3, a2, e5, e4, e3, e2), 0x3E246A79, 0xC24B8B70) == Work(a6, a5, a4, a3, e6, e5, e4, e3)
      && Round(Work(a6, a5, a4, a3, e6, e5, e4, e3), 0x27333BA3, 0xC76C51A3) == Work(a7, a6, a5, a4, e7, e6, e5, e4)
      && Round(Work(a7, a6, a5, a4, e7, e6, e5, e4), 0x0C4763F2, 0xD192E819) == Work(a8, a7, a6, a5, e8, e7, e6, e5)
      && Round(Work(a8, a7, a6, a5, e8, e7, e6, e5), 0x840ABF27, 0xD6990624) == Work(a9, a8, a7, a6, e9, e8, e7, e6)
      && Round(Work(a9, a8, a7, a6, e9, e8, e7, e6), 0x7A290D5D, 0xF40E3585) == Work(a10, a9, a8, a7, e10, e9, e8, e7)
      && Round(Work(a10, a9, a8, a7, e10, e9, e8, e7), 0x065C43DA, 0x106AA070)
        == Work(a11, a10, a9, a8, e11, e10, e9, e8)
  {
  }

  lemma Rounds40()
    ensures EightRounds(
        Work(0x79EA687A, 0x6DC57A8A, 0x34DF1604, 0x41A65CB1, 0x1EFBC0A0, 0xF0781BC8, 0xA507A53D, 0x0772A26B), 40)
      == Work(0x4172328D, 0xA14C14B0, 0x72AB4B91, 0x26628815, 0xFECF0BC6, 0xD57B94A9, 0xB7755DA1, 0xA80F11F0)
  {
    hide Round, AbcWord, K;
    Words40();
    Constants5();
    Values40();
  }

  lemma Values48()
    ensures
      var a0, a1, a2, a3, a4, a5 := 0x26628815, 0x72AB4B91, 0xA14C14B0, 0x4172328D, 0x05757CEB, 0xF11BFAA8;
      var a6, a7, a8, a9, a10, a11 := 0x7A0508A1, 0x886E7A22, 0x101FD28F, 0xF5702FDB, 0x3EC45CDB, 0x38CC9913;
      var e0, e1, e2, e3, e4, e5 := 0xA80F11F0, 0xB7755DA1, 0xD57B94A9, 0xFECF0BC6, 0xBD714038, 0x6E5C390C;
      var e6, e7, e8, e9, e10, e11 := 0x52F1CCF7, 0x49231C1E, 0x529E7D00, 0x9F4787C3, 0xE50E1B4F, 0x54CB266B;
      && Round(Work(a3, a2, a1, a0, e3, e2, e1, e0), 0xFB3E89CB, 0x19A4C116) == Work(a4, a3, a2, a1, e4, e3, e2, e1)
      && Round(Work(a4, a3, a2, a1, e4, e3, e2, e1), 0xCC7617DB, 0x1E376C08) == Work(a5, a4, a3, a2, e5, e4, e3, e2)
      && Round(Work(a5, a4, a3, a2, e5, e4, e3, e2), 0xB9E66C34, 0x2748774C) == Work(a6, a5, a4, a3, e6, e5, e4, e3)
      && Round(Work(a6, a5, a4, a3, e6, e5, e4, e3), 0xA9993667, 0x34B0BCB5) == Work(a7, a6, a5, a4, e7, e6, e5, e4)
      && Round(Work(a7, a6, a5, a4, e7, e6, e5, e4), 0x84BADEDD, 0x391C0CB3) == Work(a8, a7, a6, a5, e8, e7, e6, e5)
      && Round(Work(a8, a7, a6, a5, e8, e7, e6, e5), 0xC21462BC, 0x4ED8AA4A) == Work(a9, a8, a7, a6, e9, e8, e7, e6)
      && Round(Work(a9, a8, a7, a6, e9, e8, e7, e6), 0x1487472C, 0x5B9CCA4F) == Work(a10, a9, a8, a7, e10, e9, e8, e7)
      && Round(Work(a10, a9, a8, a7, e10, e9, e8, e7), 0xB20F7A99, 0x682E6FF3)
        == Work(a11, a10, a9, a8, e11, e10, e9, e8)
  {
  }

  lemma Rounds48()
    ensures EightRounds(
        Work(0x4172328D, 0xA14C14B0, 0x72AB4B91, 0x26628815, 0xFECF0BC6, 0xD57B94A9, 0xB7755DA1, 0xA80F11F0), 48)
      == Work(0x38CC9913, 0x3EC45CDB, 0xF5702FDB, 0x101FD28F, 0x54CB266B, 0xE50E1B4F, 0x9F4787C3, 0x529E7D00)
  {
    hide Round, AbcWord, K;
    Words48();
    Constants6();
    Values48();
  }

  lemma Values56()
    ensures
      var a0, a1, a2, a3, a4, a5 := 0x101FD28F, 0xF5702FDB, 0x3EC45CDB, 0x38CC9913, 0xFCD1887B, 0xC062D46F;
      var a6, a7, a8, a9, a10, a11 := 0xFFB70472, 0xB6AE8FFF, 0xB85E2CE9, 0x04D24D6C, 0xD39A2165, 0x506E3058;
      var e0, e1, e2, e3, e4, e5 := 0x529E7D00, 0x9F4787C3, 0xE50E1B4F, 0x54CB266B, 0x9B5E906C, 0x7E44008E;
      var e6, e7, e8, e9, e10, e11 := 0x6D83BFC6, 0xB21BAD3D, 0x961F4894, 0x948D25B6, 0xFB121210, 0x5EF50F24;
      && Round(Work(a3, a2, a1, a0, e3, e2, e1, e0), 0xEF57B9CD, 0x748F82EE) == Work(a4, a3, a2, a1, e4, e3, e2, e1)
      && Round(Work(a4, a3, a2, a1, e4, e3, e2, e1), 0xEBE6B238, 0x78A5636F) == Work(a5, a4, a3, a2, e5, e4, e3, e2)
      && Round(Work(a5, a4, a3, a2, e5, e4, e3, e2), 0x9FE3095E, 0x84C87814) == Work(a6, a5, a4, a3, e6, e5, e4, e3)
      && Round(Work(a6, a5, a4, a3, e6, e5, e4, e3), 0x78BC8D4B, 0x8CC70208) == Work(a7, a6, a5, a4, e7, e6, e5, e4)
      && Round(Work(a7, a6, a5, a4, e7, e6, e5, e4), 0xA43FCF15, 0x90BEFFFA) == Work(a8, a7, a6, a5, e8, e7, e6, e5)
      && Round(Work(a8, a7, a6, a5, e8, e7, e6, e5), 0x668B2FF8, 0xA4506CEB) == Work(a9, a8, a7, a6, e9, e8, e7, e6)
      && Round(Work(a9, a8, a7, a6, e9, e8, e7, e6), 0xEEABA2CC, 0xBEF9A3F7) == Work(a10, a9, a8, a7, e10, e9, e8, e7)
      && Round(Work(a10, a9, a8, a7, e10, e9, e8, e7), 0x12B1EDEB, 0xC67178F2)
        == Work(a11, a10, a9, a8, e11, e10, e9, e8)
  {
  }

  lemma Rounds56()
    ensures EightRounds(
        Work(0x38CC9913, 0x3EC45CDB, 0xF5702FDB, 0x101FD28F, 0x54CB266B, 0xE50E1B4F, 0x9F4787C3, 0x529E7D00), 56)
      == Work(0x506E3058, 0xD39A2165, 0x04D24D6C, 0xB85E2CE9, 0x5EF50F24, 0xFB121210, 0x948D25B6, 0x961F4894)
  {
    hide Round, AbcWord, K;
    Words56();
    Constants7();
    Values56();
  }

  lemma EightMore(t: nat)
    requires t <= 56
    ensures Rounds(InitialHash(), AbcBlock(), t + 8) == EightRounds(Rounds(InitialHash(), AbcBlock(), t), t)
  {
    hide Rounds, Schedule, AbcBlock, InitialHash, Round, K, AbcWord;
    OneMore(t);
    OneMore(t + 1);
    OneMore(t + 2);
    OneMore(t + 3);
    OneMore(t + 4);
    OneMore(t + 5);
    OneMore(t + 6);
    OneMore(t + 7);
  }

  lemma OneMore(t: nat)
    requires t < 64
    ensures Rounds(InitialHash(), AbcBlock(), t + 1) == OneRound(Rounds(InitialHash(), AbcBlock(), t), t)
  {
    hide Schedule, AbcBlock, InitialHash, Round, K, AbcWord;
    ScheduleIs(t);
  }

  lemma NoRounds()
    ensures Rounds(InitialHash(), AbcBlock(), 0) ==
      Work(0x6A09E667, 0xBB67AE85, 0x3C6EF372, 0xA54FF53A, 0x510E527F, 0x9B05688C, 0x1F83D9AB, 0x5BE0CD19)
  {
  }

  lemma LastSum()
    ensures AddWork(InitialHash(),
        Work(0x506E3058, 0xD39A2165, 0x04D24D6C, 0xB85E2CE9, 0x5EF50F24, 0xFB121210, 0x948D25B6, 0x961F4894))
      == Work(0xBA7816BF, 0x8F01CFEA, 0x414140DE, 0x5DAE2223, 0xB00361A3, 0x96177A9C, 0xB410FF61, 0xF20015AD)
  {
  }

  lemma AbcCompressed()
    ensures Compress(InitialHash(), AbcBlock()) ==
      Work(0xBA7816BF, 0x8F01CFEA, 0x414140DE, 0x5DAE2223, 0xB00361A3, 0x96177A9C, 0xB410FF61, 0xF20015AD)
  {
    hide Rounds, EightRounds, AbcBlock, AddWork, InitialHash;
    NoRounds();
    EightMore(0);
    Rounds0();
    EightMore(8);
    Rounds8();
    EightMore(16);
    Rounds16();
    EightMore(24);
    Rounds24();
    EightMore(32);
    Rounds32();
    EightMore(40);
    Rounds40();
    EightMore(48);
    Rounds48();
    EightMore(56);
    Rounds56();
    LastSum();
  }

  lemma DigestBytes()
    ensures BytesBE(0xBA7816BF) == [0xba, 0x78, 0x16, 0xbf] && BytesBE(0x8F01CFEA) == [0x8f, 0x01, 0xcf, 0xea]
    ensures BytesBE(0x414140DE) == [0x41, 0x41, 0x40, 0xde] && BytesBE(0x5DAE2223) == [0x5d, 0xae, 0x22, 0x23]
    ensures BytesBE(0xB00361A3) == [0xb0, 0x03, 0x61, 0xa3] && BytesBE(0x96177A9C) == [0x96, 0x17, 0x7a, 0x9c]
    ensures BytesBE(0xB410FF61) == [0xb4, 0x10, 0xff, 0x61] && BytesBE(0xF20015AD) == [0xf2, 0x00, 0x15, 0xad]
  {
  }

  /** SHA-256 of "abc". */
  lemma AbcDigest()
    ensures Sha256([0x61, 0x62, 0x63]) ==
      [0xba, 0x78, 0x16, 0xbf, 0x8f, 0x01, 0xcf, 0xea, 0x41, 0x41, 0x40, 0xde, 0x5d, 0xae, 0x22, 0x23,
       0xb0, 0x03, 0x61, 0xa3, 0x96, 0x17, 0x7a, 0x9c, 0xb4, 0x10, 0xff, 0x61, 0xf2, 0x00, 0x15, 0xad]
  {
    hide Compress, Pad, AbcBlock, InitialHash, BytesBE, Fold;
    AbcPadded();
    FoldOne(Compress, InitialHash(), AbcBlock());
    AbcCompressed();
    DigestBytes();
  }
}
