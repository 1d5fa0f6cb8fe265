/** The streaming MD5 context of src/utils/utils_md5.c and the file digest of src/utils/utils_httpc.c. */
module Md5Stream {
  import opened Words
  import opened BlockHash
  import opened Rfc1321

  /** The macro F of the first round. */
  function MacroF(x: bv32, y: bv32, z: bv32): bv32 { z ^ (x & (y ^ z)) }

  /** The macro F of the second round. */
  function MacroG(x: bv32, y: bv32, z: bv32): bv32 { y ^ (z & (x ^ y)) }

  function Macro(round: nat, x: bv32, y: bv32, z: bv32): bv32 {
    if round == 0 then MacroF(x, y, z)
    else if round == 1 then MacroG(x, y, z)
    else if round == 2 then H(x, y, z)
    else I(x, y, z)
  }

  lemma FirstChoiceBits(x: bv32, y: bv32, z: bv32)
    ensures z ^ (x & (y ^ z)) == (x & y) | (!x & z)
  {
  }

  lemma SecondChoiceBits(x: bv32, y: bv32, z: bv32)
    ensures y ^ (z & (x ^ y)) == (x & z) | (y & !z)
  {
  }

  lemma MacroIsF(x: bv32, y: bv32, z: bv32)
    ensures MacroF(x, y, z) == F(x, y, z)
  {
    FirstChoiceBits(x, y, z);
  }

  lemma MacroIsG(x: bv32, y: bv32, z: bv32)
    ensures MacroG(x, y, z) == G(x, y, z)
  {
    SecondChoiceBits(x, y, z);
  }

  /** The rewritten F and G agree with the RFC's on all words. */
  lemma MacroIsAuxiliary(round: nat, x: bv32, y: bv32, z: bv32)
    ensures Macro(round, x, y, z) == Auxiliary(round, x, y, z)
  {
    hide MacroF, MacroG, F, G, H, I;
    MacroIsF(x, y, z);
    MacroIsG(x, y, z);
  }

  /** The macro P: the new value of its first argument. */
  method P(round: nat, a: bv32, b: bv32, c: bv32, d: bv32, x: bv32, s: nat, t: bv32) returns (a': bv32)
    requires s < 32
    ensures Quad(d, a', b, c) == Operation(Quad(a, b, c, d), round, x, s, t)
  {
    hide Plus, RotateLeft32, Auxiliary, Macro;
    MacroIsAuxiliary(round, b, c, d);
    a' := Plus(a, Plus(Plus(Macro(round, b, c, d), x), t));
    a' := Plus(RotateLeft32(a', s), b);
  }

  /** Step i of a round reads word k, rotates by s and adds t. */
  ghost predicate StepIs(round: nat, i: nat, k: nat, s: nat, t: bv32) {
    i < 16 && WordIndex(round, i) == k && ShiftCount(round, i) == s && SineRow(round)[i] == t
  }

  lemma Table1a()
    ensures StepIs(0, 0, 0, 7, 0xD76AA478)
    ensures StepIs(0, 1, 1, 12, 0xE8C7B756)
    ensures StepIs(0, 2, 2, 17, 0x242070DB)
    ensures StepIs(0, 3, 3, 22, 0xC1BDCEEE)
    ensures StepIs(0, 4, 4, 7, 0xF57C0FAF)
    ensures StepIs(0, 5, 5, 12, 0x4787C62A)
    ensures StepIs(0, 6, 6, 17, 0xA8304613)
    ensures StepIs(0, 7, 7, 22, 0xFD469501)
  {
  }

  lemma Table1b()
    ensures StepIs(0, 8, 8, 7, 0x698098D8)
    ensures StepIs(0, 9, 9, 12, 0x8B44F7AF)
    ensures StepIs(0, 10, 10, 17, 0xFFFF5BB1)
    ensures StepIs(0, 11, 11, 22, 0x895CD7BE)
    ensures StepIs(0, 12, 12, 7, 0x6B901122)
    ensures StepIs(0, 13, 13, 12, 0xFD987193)
    ensures StepIs(0, 14, 14, 17, 0xA679438E)
    ensures StepIs(0, 15, 15, 22, 0x49B40821)
  {
  }

  lemma Table2a()
    ensures StepIs(1, 0, 1, 5, 0xF61E2562)
    ensures StepIs(1, 1, 6, 9, 0xC040B340)
    ensures StepIs(1, 2, 11, 14, 0x265E5A51)
    ensures StepIs(1, 3, 0, 20, 0xE9B6C7AA)
    ensures StepIs(1, 4, 5, 5, 0xD62F105D)
    ensures StepIs(1, 5, 10, 9, 0x02441453)
    ensures StepIs(1, 6, 15, 14, 0xD8A1E681)
    ensures StepIs(1, 7, 4, 20, 0xE7D3FBC8)
  {
  }

  lemma Table2b()
    ensures StepIs(1, 8, 9, 5, 0x21E1CDE6)
    ensures StepIs(1, 9, 14, 9, 0xC33707D6)
    ensures StepIs(1, 10, 3, 14, 0xF4D50D87)
    ensures StepIs(1, 11, 8, 20, 0x455A14ED)
    ensures StepIs(1, 12, 13, 5, 0xA9E3E905)
    ensures StepIs(1, 13, 2, 9, 0xFCEFA3F8)
    ensures StepIs(1, 14, 7, 14, 0x676F02D9)
    ensures StepIs(1, 15, 12, 20, 0x8D2A4C8A)
  {
  }

  lemma Table3a()
    ensures StepIs(2, 0, 5, 4, 0xFFFA3942)
    ensures StepIs(2, 1, 8, 11, 0x8771F681)
    ensures StepIs(2, 2, 11, 16, 0x6D9D6122)
    ensures StepIs(2, 3, 14, 23, 0xFDE5380C)
    ensures StepIs(2, 4, 1, 4, 0xA4BEEA44)
    ensures StepIs(2, 5, 4, 11, 0x4BDECFA9)
    ensures StepIs(2, 6, 7, 16, 0xF6BB4B60)
    ensures StepIs(2, 7, 10, 23, 0xBEBFBC70)
  {
  }

  lemma Table3b()
    ensures StepIs(2, 8, 13, 4, 0x289B7EC6)
    ensures StepIs(2, 9, 0, 11, 0xEAA127FA)
    ensures StepIs(2, 10, 3, 16, 0xD4EF3085)
    ensures StepIs(2, 11, 6, 23, 0x04881D05)
    ensures StepIs(2, 12, 9, 4, 0xD9D4D039)
    ensures StepIs(2, 13, 12, 11, 0xE6DB99E5)
    ensures StepIs(2, 14, 15, 16, 0x1FA27CF8)
    ensures StepIs(2, 15, 2, 23, 0xC4AC5665)
  {
  }

  lemma Table4a()
    ensures StepIs(3, 0, 0, 6, 0xF4292244)
    ensures StepIs(3, 1, 7, 10, 0x432AFF97)
    ensures StepIs(3, 2, 14, 15, 0xAB9423A7)
    ensures StepIs(3, 3, 5, 21, 0xFC93A039)
    ensures StepIs(3, 4, 12, 6, 0x655B59C3)
    ensures StepIs(3, 5, 3, 10, 0x8F0CCC92)
    ensures StepIs(3, 6, 10, 15, 0xFFEFF47D)
    ensures StepIs(3, 7, 1, 21, 0x85845DD1)
  {
  }

  lemma Table4b()
    ensures StepIs(3, 8, 8, 6, 0x6FA87E4F)
    ensures StepIs(3, 9, 15, 10, 0xFE2CE6E0)
    ensures StepIs(3, 10, 6, 15, 0xA3014314)
    ensures StepIs(3, 11, 13, 21, 0x4E0811A1)
    ensures StepIs(3, 12, 4, 6, 0xF7537E82)
    ensures StepIs(3, 13, 11, 10, 0xBD3AF235)
    ensures StepIs(3, 14, 2, 15, 0x2AD7D2BB)
    ensures StepIs(3, 15, 9, 21, 0xEB86D391)
  {
  }

  lemma FirstStep(v: Quad, m: Block, round: nat)
    ensures Steps(v, m, round, 0) == v
  {
  }

  lemma NextStep(v: Quad, m: Block, round: nat, i: nat, k: nat, s: nat, t: bv32)
    requires i < 16 && k < 16 && s < 32 && StepIs(round, i, k, s, t)
    ensures Steps(v, m, round, i + 1) == Operation(Steps(v, m, round, i), round, MessageWord(m, k), s, t)
  {
  }

  ghost predicate Loaded(X: array<bv32>, data: Block, n: nat)
    reads X
  {
    X.Length == 16 && n <= 16 && forall k :: 0 <= k < n ==> X[k] == MessageWord(data, k)
  }

  /** One line of a round: P on the next step's registers, word, shift and constant. */
  method Line(round: nat, ghost i: nat, a: bv32, b: bv32, c: bv32, d: bv32, X: array<bv32>, k: nat, s: nat, t: bv32,
              ghost start: Quad, ghost data: Block) returns (a': bv32)
    requires i < 16 && k < 16 && s < 32 && StepIs(round, i, k, s, t)
    requires Loaded(X, data, 16) && Quad(a, b, c, d) == Steps(start, data, round, i)
    ensures Quad(d, a', b, c) == Steps(start, data, round, i + 1)
  {
    hide Operation, Steps, MessageWord, StepIs;
    NextStep(start, data, round, i, k, s, t);
    a' := P(round, a, b, c, d, X[k], s, t);
  }

  method Round1(A0: bv32, B0: bv32, C0: bv32, D0: bv32, X: array<bv32>, ghost data: Block)
    returns (A: bv32, B: bv32, C: bv32, D: bv32)
    requires Loaded(X, data, 16)
    ensures Quad(A, B, C, D) == Steps(Quad(A0, B0, C0, D0), data, 0, 16)
  {
    hide Steps, StepIs, Loaded;
    A, B, C, D := A0, B0, C0, D0;
    ghost var start := Quad(A, B, C, D);
    FirstStep(start, data, 0);
    Table1a();
    Table1b();
    A := Line(0, 0, A, B, C, D, X, 0, 7, 0xD76AA478, start, data);
    D := Line(0, 1, D, A, B, C, X, 1, 12, 0xE8C7B756, start, data);
    C := Line(0, 2, C, D, A, B, X, 2, 17, 0x242070DB, start, data);
    B := Line(0, 3, B, C, D, A, X, 3, 22, 0xC1BDCEEE, start, data);
    A := Line(0, 4, A, B, C, D, X, 4, 7, 0xF57C0FAF, start, data);
    D := Line(0, 5, D, A, B, C, X, 5, 12, 0x4787C62A, start, data);
    C := Line(0, 6, C, D, A, B, X, 6, 17, 0xA8304613, start, data);
    B := Line(0, 7, B, C, D, A, X, 7, 22, 0xFD469501, start, data);
    A := Line(0, 8, A, B, C, D, X, 8, 7, 0x698098D8, start, data);
    D := Line(0, 9, D, A, B, C, X, 9, 12, 0x8B44F7AF, start, data);
    C := Line(0, 10, C, D, A, B, X, 10, 17, 0xFFFF5BB1, start, data);
    B := Line(0, 11, B, C, D, A, X, 11, 22, 0x895CD7BE, start, data);
    A := Line(0, 12, A, B, C, D, X, 12, 7, 0x6B901122, start, data);
    D := Line(0, 13, D, A, B, C, X, 13, 12, 0xFD987193, start, data);
    C := Line(0, 14, C, D, A, B, X, 14, 17, 0xA679438E, start, data);
    B := Line(0, 15, B, C, D, A, X, 15, 22, 0x49B40821, start, data);
  }

  method Round2(A0: bv32, B0: bv32, C0: bv32, D0: bv32, X: array<bv32>, ghost data: Block)
    returns (A: bv32, B: bv32, C: bv32, D: bv32)
    requires Loaded(X, data, 16)
    ensures Quad(A, B, C, D) == Steps(Quad(A0, B0, C0, D0), data, 1, 16)
  {
    hide Steps, StepIs, Loaded;
    A, B, C, D := A0, B0, C0, D0;
    ghost var start := Quad(A, B, C, D);
    FirstStep(start, data, 1);
    Table2a();
    Table2b();
    A := Line(1, 0, A, B, C, D, X, 1, 5, 0xF61E2562, start, data);
    D := Line(1, 1, D, A, B, C, X, 6, 9, 0xC040B340, start, data);
    C := Line(1, 2, C, D, A, B, X, 11, 14, 0x265E5A51, start, data);
    B := Line(1, 3, B, C, D, A, X, 0, 20, 0xE9B6C7AA, start, data);
    A := Line(1, 4, A, B, C, D, X, 5, 5, 0xD62F105D, start, data);
    D := Line(1, 5, D, A, B, C, X, 10, 9, 0x02441453, start, data);
    C := Line(1, 6, C, D, A, B, X, 15, 14, 0xD8A1E681, start, data);
    B := Line(1, 7, B, C, D, A, X, 4, 20, 0xE7D3FBC8, start, data);
    A := Line(1, 8, A, B, C, D, X, 9, 5, 0x21E1CDE6, start, data);
    D := Line(1, 9, D, A, B, C, X, 14, 9, 0xC33707D6, start, data);
    C := Line(1, 10, C, D, A, B, X, 3, 14, 0xF4D50D87, start, data);
    B := Line(1, 11, B, C, D, A, X, 8, 20, 0x455A14ED, start, data);
    A := Line(1, 12, A, B, C, D, X, 13, 5, 0xA9E3E905, start, data);
    D := Line(1, 13, D, A, B, C, X, 2, 9, 0xFCEFA3F8, start, data);
    C := Line(1, 14, C, D, A, B, X, 7, 14, 0x676F02D9, start, data);
    B := Line(1, 15, B, C, D, A, X, 12, 20, 0x8D2A4C8A, start, data);
  }

  method Round3(A0: bv32, B0: bv32, C0: bv32, D0: bv32, X: array<bv32>, ghost data: Block)
    returns (A: bv32, B: bv32, C: bv32, D: bv32)
    requires Loaded(X, data, 16)
    ensures Quad(A, B, C, D) == Steps(Quad(A0, B0, C0, D0), data, 2, 16)
  {
    hide Steps, StepIs, Loaded;
    A, B, C, D := A0, B0, C0, D0;
    ghost var start := Quad(A, B, C, D);
    FirstStep(start, data, 2);
    Table3a();
    Table3b();
    A := Line(2, 0, A, B, C, D, X, 5, 4, 0xFFFA3942, start, data);
    D := Line(2, 1, D, A, B, C, X, 8, 11, 0x8771F681, start, data);
    C := Line(2, 2, C, D, A, B, X, 11, 16, 0x6D9D6122, start, data);
    B := Line(2, 3, B, C, D, A, X, 14, 23, 0xFDE5380C, start, data);
    A := Line(2, 4, A, B, C, D, X, 1, 4, 0xA4BEEA44, start, data);
    D := Line(2, 5, D, A, B, C, X, 4, 11, 0x4BDECFA9, start, data);
    C := Line(2, 6, C, D, A, B, X, 7, 16, 0xF6BB4B60, start, data);
    B := Line(2, 7, B, C, D, A, X, 10, 23, 0xBEBFBC70, start, data);
    A := Line(2, 8, A, B, C, D, X, 13, 4, 0x289B7EC6, start, data);
    D := Line(2, 9, D, A, B, C, X, 0, 11, 0xEAA127FA, start, data);
    C := Line(2, 10, C, D, A, B, X, 3, 16, 0xD4EF3085, start, data);
    B := Line(2, 11, B, C, D, A, X, 6, 23, 0x04881D05, start, data);
    A := Line(2, 12, A, B, C, D, X, 9, 4, 0xD9D4D039, start, data);
    D := Line(2, 13, D, A, B, C, X, 12, 11, 0xE6DB99E5, start, data);
    C := Line(2, 14, C, D, A, B, X, 15, 16, 0x1FA27CF8, start, data);
    B := Line(2, 15, B, C, D, A, X, 2, 23, 0xC4AC5665, start, data);
  }

  method Round4(A0: bv32, B0: bv32, C0: bv32, D0: bv32, X: array<bv32>, ghost data: Block)
    returns (A: bv32, B: bv32, C: bv32, D: bv32)
    requires Loaded(X, data, 16)
    ensures Quad(A, B, C, D) == Steps(Quad(A0, B0, C0, D0), data, 3, 16)
  {
    hide Steps, StepIs, Loaded;
    A, B, C, D := A0, B0, C0, D0;
    ghost var start := Quad(A, B, C, D);
    FirstStep(start, data, 3);
    Table4a();
    Table4b();
    A := Line(3, 0, A, B, C, D, X, 0, 6, 0xF4292244, start, data);
    D := Line(3, 1, D, A, B, C, X, 7, 10, 0x432AFF97, start, data);
    C := Line(3, 2, C, D, A, B, X, 14, 15, 0xAB9423A7, start, data);
    B := Line(3, 3, B, C, D, A, X, 5, 21, 0xFC93A039, start, data);
    A := Line(3, 4, A, B, C, D, X, 12, 6, 0x655B59C3, start, data);
    D := Line(3, 5, D, A, B, C, X, 3, 10, 0x8F0CCC92, start, data);
    C := Line(3, 6, C, D, A, B, X, 10, 15, 0xFFEFF47D, start, data);
    B := Line(3, 7, B, C, D, A, X, 1, 21, 0x85845DD1, start, data);
    A := Line(3, 8, A, B, C, D, X, 8, 6, 0x6FA87E4F, start, data);
    D := Line(3, 9, D, A, B, C, X, 15, 10, 0xFE2CE6E0, start, data);
    C := Line(3, 10, C, D, A, B, X, 6, 15, 0xA3014314, start, data);
    B := Line(3, 11, B, C, D, A, X, 13, 21, 0x4E0811A1, start, data);
    A := Line(3, 12, A, B, C, D, X, 4, 6, 0xF7537E82, start, data);
    D := Line(3, 13, D, A, B, C, X, 11, 10, 0xBD3AF235, start, data);
    C := Line(3, 14, C, D, A, B, X, 2, 15, 0x2AD7D2BB, start, data);
    B := Line(3, 15, B, C, D, A, X, 9, 21, 0xEB86D391, start, data);
  }

  /** iot_md5_context, with the bytes hashed so far and the byte count its counters have followed. */
  class Md5Context {
    var total0: nat
    var total1: nat
    const state: array<bv32>
    const buffer: array<bv8>
    ghost var msg: seq<bv8>
    ghost var counted: nat

    ghost predicate Shaped() {
      state.Length == 4 && buffer.Length == 64
    }

    function Registers(): Quad
      requires Shaped()
      reads state
    {
      Quad(state[0], state[1], state[2], state[3])
    }

    ghost predicate Absorbed(m: seq<bv8>)
      reads state, buffer
    {
      && Shaped()
      && Registers() == Fold(Compress, InitialRegisters(), m)
      && buffer[..|m| % 64] == Tail(m)
    }

    /** The counters follow `counted`, which can lose multiples of 2^32 against the message length. */
    ghost predicate Valid()
      reads this, state, buffer
    {
      && Shaped() && Counts(total0, total1, counted) && Absorbed(msg)
      && counted % TWO32 == |msg| % TWO32
    }

    constructor ()
      ensures Shaped() && fresh(state) && fresh(buffer)
    {
      state := new bv32[4];
      buffer := new bv8[64];
      total0, total1, msg, counted := 0, 0, [], 0;
    }

    /** utils_md5_starts. */
    method Starts()
      requires Shaped()
      modifies this, state
      ensures Valid() && msg == [] && counted == 0
    {
      hide Fold, Compress;
      FoldEmpty(Compress, InitialRegisters());
      total0, total1 := 0, 0;
      state[0] := 0x67452301;
      state[1] := 0xEFCDAB89;
      state[2] := 0x98BADCFE;
      state[3] := 0x10325476;
      msg, counted := [], 0;
    }

    /** utils_md5_process. */
    method Process(data: Block)
      requires Shaped()
      modifies state
      ensures Registers() == Compress(old(Registers()), data)
    {
      hide Steps, Plus, MessageWord;
      var X := LoadBlock(data);
      var A, B, C, D := state[0], state[1], state[2], state[3];
      A, B, C, D := Round1(A, B, C, D, X, data);
      A, B, C, D := Round2(A, B, C, D, X, data);
      A, B, C, D := Round3(A, B, C, D, X, data);
      A, B, C, D := Round4(A, B, C, D, X, data);
      state[0] := Plus(state[0], A);
      state[1] := Plus(state[1], B);
      state[2] := Plus(state[2], C);
      state[3] := Plus(state[3], D);
    }

    /** utils_md5_update; ilen is a size_t, but only its low 32 bits reach the counters. */
    method Update(input: seq<bv8>)
      requires Valid() && |input| < TWO64
      modifies this, state, buffer
      ensures Valid() && msg == old(msg) + input
      ensures counted == old(counted) + |input| % TWO32
    {
      hide Counts, Absorbed;
      if |input| == 0 {
        assert msg + input == msg;
        return;
      }
      CountModBlock(total0, total1, counted);
      SameModBlock(counted, |msg|);
      CarryCounts(total0, total1, counted, |input| % TWO32);
      var left := total0 % 64;
      total0 := (total0 + |input| % TWO32) % TWO32;
      if total0 < |input| % TWO32 {
        total1 := (total1 + 1) % TWO32;
      }
      ghost var start := msg;
      msg := msg + input;
      counted := counted + |input| % TWO32;
      SumModWord(counted - |input| % TWO32, |start|, |input|);
      AbsorbInput(input, left, start);
    }

    /** The copying and compressing part of utils_md5_update. */
    method AbsorbInput(input: seq<bv8>, buffered: nat, ghost start: seq<bv8>)
      requires Absorbed(start) && buffered == |start| % 64
      modifies state, buffer
      ensures Absorbed(start + input)
    {
      hide Absorbed;
      var left := buffered;
      var fill := 64 - left;
      var pos := 0;
      assert start + input[..0] == start;
      if left > 0 && |input| >= fill {
        CompleteBlock(input[..fill], start);
        pos := fill;
        left := 0;
      }
      while |input| - pos >= 64
        modifies state
        invariant 0 <= pos <= |input| && Absorbed(start + input[..pos])
        invariant left == |start + input[..pos]| % 64
        invariant left > 0 ==> |input| - pos < 64 - left
      {
        AbsorbBlock(input[pos..pos + 64], start + input[..pos]);
        assert start + input[..pos] + input[pos..pos + 64] == start + input[..pos + 64];
        pos := pos + 64;
      }
      assert start + input[..pos] + input[pos..] == start + input;
      if |input| > pos {
        KeepTail(left, input[pos..], start + input[..pos]);
      } else {
        assert start + input[..pos] == start + input;
      }
    }

    method CompleteBlock(more: seq<bv8>, ghost m: seq<bv8>)
      requires Absorbed(m) && |more| == 64 - |m| % 64
      modifies state, buffer
      ensures Absorbed(m + more) && |m + more| % 64 == 0
    {
      hide Fold, Tail, Compress;
      CopyInto(buffer, 64 - |more|, more);
      assert buffer[..] == Tail(m) + more;
      FoldComplete(Compress, InitialRegisters(), m, more, buffer[..]);
      Process(buffer[..]);
      EmptyTail(m + more);
    }

    method AbsorbBlock(block: Block, ghost m: seq<bv8>)
      requires Absorbed(m) && |m| % 64 == 0
      modifies state
      ensures Absorbed(m + block) && |m + block| % 64 == 0
    {
      hide Fold, Tail, Compress;
      EmptyTail(m);
      assert Tail(m) + block == block;
      FoldComplete(Compress, InitialRegisters(), m, block, block);
      Process(block);
      EmptyTail(m + block);
    }

    method KeepTail(left: nat, more: seq<bv8>, ghost m: seq<bv8>)
      requires Absorbed(m) && left == |m| % 64 && left + |more| < 64
      modifies buffer
      ensures Absorbed(m + more)
    {
      hide Fold, Tail, Compress;
      CopyInto(buffer, left, more);
      FoldPartial(Compress, InitialRegisters(), m, more);
      assert buffer[..left + |more|] == Tail(m) + more;
    }

    /** utils_md5_finish: the length field carries what was counted. */
    method Finish(output: array<bv8>)
      requires Valid() && output.Length >= 16 && output != buffer
      modifies this, state, buffer, output
      ensures output[..16] == DigestWith(old(msg), old(counted))
    {
      hide Counts, Absorbed, Padding, Fold, Compress, Bytes32LE, Digest;
      ghost var m, n := msg, counted;
      var high := HighBits(total0, total1);
      var low := LowBits(total0);
      BitCount(total0, total1, n);
      var msglen := Bytes32LE(low) + Bytes32LE(high);
      CountModBlock(total0, total1, n);
      SameModBlock(n, |m|);
      var last := total0 % 64;
      var padn := if last < 56 then 56 - last else 120 - last;
      PaddingPrefix(|m|, padn);
      var padding := [0x80] + Zeros(63);
      Update(padding[..padn]);
      Update(msglen);
      assert msg == PadWith(m, n);
      PadLength(m, n);
      AbsorbedRegisters(msg);
      PutDigest(output);
    }

    lemma AbsorbedRegisters(m: seq<bv8>)
      requires Absorbed(m)
      ensures Registers() == Fold(Compress, InitialRegisters(), m)
    {
    }

    method PutDigest(output: array<bv8>)
      requires Shaped() && output.Length >= 16
      modifies output
      ensures output[..16] == Digest(Registers())
    {
      hide BytesLE;
      PutWord(output, 0, state[0]);
      PutWord(output, 4, state[1]);
      PutWord(output, 8, state[2]);
      PutWord(output, 12, state[3]);
    }
  }

  method LoadBlock(data: Block) returns (X: array<bv32>)
    ensures fresh(X) && Loaded(X, data, 16)
  {
    hide WordLE;
    X := new bv32[16];
    for i := 0 to 16
      invariant Loaded(X, data, i)
    {
      X[i] := WordLE(data[4 * i], data[4 * i + 1], data[4 * i + 2], data[4 * i + 3]);
    }
  }

  /** IOT_MD5_PUT_UINT32_LE. */
  method PutWord(b: array<bv8>, i: nat, w: bv32)
    requires i + 4 <= b.Length
    modifies b
    ensures b[..i + 4] == old(b[..i]) + BytesLE(w)
    ensures forall k :: i + 4 <= k < b.Length ==> b[k] == old(b[k])
  {
    var bytes := BytesLE(w);
    hide BytesLE;
    b[i], b[i + 1], b[i + 2], b[i + 3] := bytes[0], bytes[1], bytes[2], bytes[3];
  }

  lemma PadLength(m: seq<bv8>, n: nat)
    ensures |PadWith(m, n)| % 64 == 0
  {
    hide Padding, Bytes32LE;
    PaddedLength(|m|);
  }

  lemma SameModBlock(a: nat, b: nat)
    requires a % TWO32 == b % TWO32
    ensures a % 64 == b % 64
  {
    var r := a % TWO32;
    QuotientIs(a, a / TWO32 * 0x400_0000 + r / 64, r % 64);
    QuotientIs(b, b / TWO32 * 0x400_0000 + r / 64, r % 64);
  }

  lemma SumModWord(a: nat, b: nat, n: nat)
    requires a % TWO32 == b % TWO32
    ensures (a + n % TWO32) % TWO32 == (b + n) % TWO32
  {
  }

  /** The padded message is the RFC's exactly when the count agrees with the length modulo 2^61. */
  lemma LengthFieldExact(msg: seq<bv8>, counted: nat)
    ensures PadWith(msg, counted) == PadWith(msg, |msg|) <==>
      counted % 0x2000_0000_0000_0000 == |msg| % 0x2000_0000_0000_0000
  {
    hide Padding, Bytes32LE;
    SplitBits(counted);
    SplitBits(|msg|);
    var p, q := 8 * counted, 8 * |msg|;
    if PadWith(msg, counted) == PadWith(msg, |msg|) {
      LengthBytes(p % TWO32);
      LengthBytes(q % TWO32);
      SameTails(msg + Padding(|msg|), Bytes32LE(p % TWO32), Bytes32LE(p / TWO32 % TWO32),
                Bytes32LE(q % TWO32), Bytes32LE(q / TWO32 % TWO32));
      Bytes32LEInjective(p % TWO32, q % TWO32);
      Bytes32LEInjective(p / TWO32 % TWO32, q / TWO32 % TWO32);
    }
  }

  lemma LengthBytes(n: nat)
    ensures |Bytes32LE(n)| == 4
  {
  }

  lemma SameTails(head: seq<bv8>, a: seq<bv8>, b: seq<bv8>, c: seq<bv8>, d: seq<bv8>)
    requires |a| == |c| && head + (a + b) == head + (c + d)
    ensures a == c && b == d
  {
    assert (head + (a + b))[|head|..] == a + b;
    assert (head + (c + d))[|head|..] == c + d;
    assert (a + b)[..|a|] == a && (a + b)[|a|..] == b;
    assert (c + d)[..|c|] == c && (c + d)[|c|..] == d;
  }

  lemma SplitBits(n: nat)
    ensures 8 * (n % 0x2000_0000_0000_0000) == 8 * n / TWO32 % TWO32 * TWO32 + 8 * n % TWO32
  {
    var r := n % 0x2000_0000_0000_0000;
    var a, b := 8 * r / TWO32, 8 * r % TWO32;
    TwoDigits(8 * n, n / 0x2000_0000_0000_0000, a, b);
  }

  /** One update of n bytes on a fresh context is counted as n mod 2^32: right exactly when n mod 2^61 is below 2^32. */
  lemma OneCallExact(msg: seq<bv8>)
    ensures PadWith(msg, |msg| % TWO32) == PadWith(msg, |msg|) <==> |msg| % 0x2000_0000_0000_0000 < TWO32
  {
    hide PadWith;
    LengthFieldExact(msg, |msg| % TWO32);
    Remainders(|msg|, |msg| / 0x2000_0000_0000_0000, |msg| % 0x2000_0000_0000_0000);
  }

  lemma Remainders(n: nat, q: nat, r: nat)
    requires n == q * 0x2000_0000_0000_0000 + r && r < 0x2000_0000_0000_0000
    ensures n % TWO32 == r % TWO32
    ensures n % TWO32 % 0x2000_0000_0000_0000 == n % TWO32
  {
    assert n == (q * 0x2000_0000 + r / TWO32) * TWO32 + r % TWO32;
  }

  /** utils_md5. */
  method HashOnce(input: seq<bv8>, output: array<bv8>)
    requires |input| < TWO64 && output.Length >= 16
    modifies output
    ensures output[..16] == DigestWith(input, |input| % TWO32)
    ensures |input| < TWO32 ==> output[..16] == Md5(input)
  {
    hide DigestWith, Md5Context.Valid;
    var ctx := new Md5Context();
    ctx.Starts();
    ctx.Update(input);
    assert [] + input == input;
    ctx.Finish(output);
  }

  /** http_client_file_md5: a file read in chunks of at most 1024 bytes. */
  method FileMd5(chunks: seq<seq<bv8>>, output: array<bv8>)
    requires output.Length >= 16 && forall i :: 0 <= i < |chunks| ==> |chunks[i]| < TWO32
    modifies output
    ensures output[..16] == Md5(Joined(chunks))
  {
    hide DigestWith, Md5Context.Valid;
    var ctx := new Md5Context();
    ctx.Starts();
    for i := 0 to |chunks|
      invariant ctx.Valid() && ctx.msg == Joined(chunks[..i]) && ctx.counted == |ctx.msg|
    {
      ctx.Update(chunks[i]);
      assert chunks[..i + 1][..i] == chunks[..i];
    }
    assert chunks[..|chunks|] == chunks;
    ctx.Finish(output);
  }
}
