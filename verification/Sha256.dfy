/**
  The streaming SHA-256 context of src/utils/utils_sha2.c, both of its block
  functions, and HMAC-SHA-256 on top of it.
 */
module Sha256Stream {
  import opened Bytes
  import opened Words
  import opened BlockHash
  import opened Fips180

  /** F0, written without the third product of Maj. */
  function F0(x: bv32, y: bv32, z: bv32): bv32 { (x & y) | (z & (x | y)) }

  /** F1, written with one product less than Ch. */
  function F1(x: bv32, y: bv32, z: bv32): bv32 { z ^ (x & (y ^ z)) }

  // The macros S0 to S3, with ROTR written out as two shifts.
  function S0(x: bv32): bv32 { ((x >> 7) | (x << 25)) ^ ((x >> 18) | (x << 14)) ^ (x >> 3) }

  function S1(x: bv32): bv32 { ((x >> 17) | (x << 15)) ^ ((x >> 19) | (x << 13)) ^ (x >> 10) }

  function S2(x: bv32): bv32 { ((x >> 2) | (x << 30)) ^ ((x >> 13) | (x << 19)) ^ ((x >> 22) | (x << 10)) }

  function S3(x: bv32): bv32 { ((x >> 6) | (x << 26)) ^ ((x >> 11) | (x << 21)) ^ ((x >> 25) | (x << 7)) }

  /** The shifted words are the rotations of section 4.1.2. */
  lemma ShiftsAreSigmas(x: bv32)
    ensures S0(x) == SmallSigma0(x) && S1(x) == SmallSigma1(x) && S2(x) == BigSigma0(x) && S3(x) == BigSigma1(x)
  {
  }

  lemma MajorityBits(x: bv32, y: bv32, z: bv32)
    ensures (x & y) | (z & (x | y)) == (x & y) ^ (x & z) ^ (y & z)
  {
  }

  lemma ChoiceBits(x: bv32, y: bv32, z: bv32)
    ensures z ^ (x & (y ^ z)) == (x & y) ^ (!x & z)
  {
  }

  lemma F0IsMaj(x: bv32, y: bv32, z: bv32)
    ensures F0(x, y, z) == Maj(x, y, z)
  {
    MajorityBits(x, y, z);
  }

  lemma F1IsCh(x: bv32, y: bv32, z: bv32)
    ensures F1(x, y, z) == Ch(x, y, z)
  {
    ChoiceBits(x, y, z);
  }

  /** The macro P: the new values of its d and h arguments. */
  method Step(a: bv32, b: bv32, c: bv32, d: bv32, e: bv32, f: bv32, g: bv32, h: bv32, x: bv32, k: bv32)
    returns (d': bv32, h': bv32)
    ensures Round(Work(a, b, c, d, e, f, g, h), x, k) == Work(h', a, b, c, d', e, f, g)
  {
    hide BigSigma0, BigSigma1, S2, S3, F0, F1, Ch, Maj, Plus;
    F1IsCh(e, f, g);
    F0IsMaj(a, b, c);
    ShiftsAreSigmas(e);
    ShiftsAreSigmas(a);
    var temp1 := Plus(Plus(Plus(Plus(h, S3(e)), F1(e, f, g)), k), x);
    var temp2 := Plus(S2(a), F0(a, b, c));
    d' := Plus(d, temp1);
    h' := Plus(temp1, temp2);
  }

  /** Eight register slots read as the working variables a to h. */
  function Slots(A: array<bv32>, a: nat, b: nat, c: nat, d: nat, e: nat, f: nat, g: nat, h: nat): Work
    requires A.Length == 8 && a < 8 && b < 8 && c < 8 && d < 8 && e < 8 && f < 8 && g < 8 && h < 8
    reads A
  {
    Work(A[a], A[b], A[c], A[d], A[e], A[f], A[g], A[h])
  }

  function WorkOf(A: array<bv32>): Work
    requires A.Length == 8
    reads A
  {
    Slots(A, 0, 1, 2, 3, 4, 5, 6, 7)
  }

  /** One rolled round: P on the registers in place, then every register moved along by one. */
  method Advance(A: array<bv32>, w: bv32, k: bv32)
    requires A.Length == 8
    modifies A
    ensures WorkOf(A) == Round(old(WorkOf(A)), w, k)
  {
    hide Round;
    A[3], A[7] := Step(A[0], A[1], A[2], A[3], A[4], A[5], A[6], A[7], w, k);
    var temp1 := A[7];
    A[7] := A[6];
    A[6] := A[5];
    A[5] := A[4];
    A[4] := A[3];
    A[3] := A[2];
    A[2] := A[1];
    A[1] := A[0];
    A[0] := temp1;
  }

  /** iot_sha256_context, with the bytes hashed so far as its abstract value. */
  class Sha256Context {
    var total0: nat
    var total1: nat
    const state: array<bv32>
    const buffer: array<bv8>
    var is224: int
    ghost var msg: seq<bv8>

    ghost predicate Shaped() {
      state.Length == 8 && buffer.Length == 64
    }

    function StateWork(): Work
      requires Shaped()
      reads state
    {
      WorkOf(state)
    }

    /** The chaining value of m's whole blocks and the buffered bytes of its tail. */
    ghost predicate Absorbed(m: seq<bv8>)
      reads state, buffer
    {
      && Shaped()
      && StateWork() == Fold(Compress, InitialHash(), m)
      && buffer[..|m| % 64] == Tail(m)
    }

    /** The context after hashing msg. */
    ghost predicate Valid()
      reads this, state, buffer
    {
      Shaped() && is224 == 0 && Counts(total0, total1, |msg|) && Absorbed(msg)
    }

    constructor ()
      ensures Shaped() && fresh(state) && fresh(buffer)
    {
      state := new bv32[8];
      buffer := new bv8[64];
      total0, total1, is224, msg := 0, 0, 0, [];
    }

    /** utils_sha256_starts. */
    method Starts()
      requires Shaped()
      modifies this, state
      ensures Valid() && msg == []
    {
      hide Fold, Compress;
      FoldEmpty(Compress, InitialHash());
      total0, total1 := 0, 0;
      state[0] := 0x6A09E667;
      state[1] := 0xBB67AE85;
      state[2] := 0x3C6EF372;
      state[3] := 0xA54FF53A;
      state[4] := 0x510E527F;
      state[5] := 0x9B05688C;
      state[6] := 0x1F83D9AB;
      state[7] := 0x5BE0CD19;
      is224 := 0;
      msg := [];
    }

    /** utils_sha256_process with INFRA_SHA256_SMALLER: the rolled rounds. */
    method Process(data: Block)
      requires Shaped()
      modifies state
      ensures StateWork() == Compress(old(StateWork()), data)
    {
      hide Rounds, AddWork;
      var A := CopyState();
      RolledRounds(A, data);
      AddState(A);
    }

    /** utils_sha256_process without INFRA_SHA256_SMALLER: eight rounds per turn of the loop. */
    method ProcessUnrolled(data: Block)
      requires Shaped()
      modifies state
      ensures StateWork() == Compress(old(StateWork()), data)
    {
      hide Rounds, AddWork;
      var A := CopyState();
      UnrolledRounds(A, data);
      AddState(A);
    }

    method CopyState() returns (A: array<bv32>)
      requires Shaped()
      ensures fresh(A) && A.Length == 8 && WorkOf(A) == StateWork()
    {
      A := new bv32[8];
      for i := 0 to 8
        invariant forall k :: 0 <= k < i ==> A[k] == state[k]
      {
        A[i] := state[i];
      }
    }

    /** utils_sha256_update: the message grows by the input, whatever its length below 2^32. */
    method Update(input: seq<bv8>)
      requires Valid() && |input| < TWO32
      modifies this, state, buffer
      ensures Valid() && msg == old(msg) + input
    {
      hide Counts, Absorbed;
      if |input| == 0 {
        assert msg + input == msg;
        return;
      }
      CountModBlock(total0, total1, |msg|);
      CarryCounts(total0, total1, |msg|, |input|);
      var left := total0 % 64;
      total0 := (total0 + |input|) % TWO32;
      if total0 < |input| {
        total1 := (total1 + 1) % TWO32;
      }
      ghost var start := msg;
      msg := msg + input;
      AbsorbInput(input, left, start);
    }

    /** The copying and compressing part of utils_sha256_update. */
    method AbsorbInput(input: seq<bv8>, buffered: nat, ghost start: seq<bv8>)
      requires Absorbed(start) && buffered == |start| % 64
      modifies state, buffer
      ensures Absorbed(start + input)
    {
      hide Absorbed;
      var left := buffered;
      var fill := 64 - left;
      var pos := 0;
      assert start + input[..0] == start;
      if left > 0 && |input| >= fill {
        CompleteBlock(input[..fill], start);
        pos := fill;
        left := 0;
      }
      while |input| - pos >= 64
        modifies state
        invariant 0 <= pos <= |input| && Absorbed(start + input[..pos])
        invariant left == |start + input[..pos]| % 64
        invariant left > 0 ==> |input| - pos < 64 - left
      {
        AbsorbBlock(input[pos..pos + 64], start + input[..pos]);
        assert start + input[..pos] + input[pos..pos + 64] == start + input[..pos + 64];
        pos := pos + 64;
      }
      assert start + input[..pos] + input[pos..] == start + input;
      if |input| > pos {
        KeepTail(left, input[pos..], start + input[..pos]);
      } else {
        assert start + input[..pos] == start + input;
      }
    }

    /** The copy that fills the buffer, and the compression of the full buffer. */
    method CompleteBlock(more: seq<bv8>, ghost m: seq<bv8>)
      requires Absorbed(m) && |more| == 64 - |m| % 64
      modifies state, buffer
      ensures Absorbed(m + more) && |m + more| % 64 == 0
    {
      hide Fold, Tail, Compress;
      CopyInto(buffer, 64 - |more|, more);
      assert buffer[..] == Tail(m) + more;
      FoldComplete(Compress, InitialHash(), m, more, buffer[..]);
      Process(buffer[..]);
      EmptyTail(m + more);
    }

    method AbsorbBlock(block: Block, ghost m: seq<bv8>)
      requires Absorbed(m) && |m| % 64 == 0
      modifies state
      ensures Absorbed(m + block) && |m + block| % 64 == 0
    {
      hide Fold, Tail, Compress;
      EmptyTail(m);
      assert Tail(m) + block == block;
      FoldComplete(Compress, InitialHash(), m, block, block);
      Process(block);
      EmptyTail(m + block);
    }

    method KeepTail(left: nat, more: seq<bv8>, ghost m: seq<bv8>)
      requires Absorbed(m) && left == |m| % 64 && left + |more| < 64
      modifies buffer
      ensures Absorbed(m + more)
    {
      hide Fold, Tail, Compress;
      CopyInto(buffer, left, more);
      FoldPartial(Compress, InitialHash(), m, more);
      assert buffer[..left + |more|] == Tail(m) + more;
    }

    /** utils_sha256_finish: padding, length, and the chaining value as bytes. */
    method Finish(output: array<bv8>)
      requires Valid() && output.Length >= 32 && output != buffer
      modifies this, state, buffer, output
      ensures output[..32] == Sha256(old(msg))
      ensures forall k :: 32 <= k < output.Length ==> output[k] == old(output[k])
    {
      hide Counts, Absorbed, Padding, Fold, Compress, Bytes32BE, Digest;
      ghost var m := msg;
      var high := HighBits(total0, total1);
      var low := LowBits(total0);
      BitCount(total0, total1, |m|);
      var msglen := Bytes32BE(high) + Bytes32BE(low);
      CountModBlock(total0, total1, |m|);
      var last := total0 % 64;
      var padn := if last < 56 then 56 - last else 120 - last;
      PaddingPrefix(|m|, padn);
      var padding := [0x80] + Zeros(63);
      Update(padding[..padn]);
      Update(msglen);
      assert msg == Pad(m);
      PadLength(m);
      AbsorbedState(msg);
      PutDigest(output);
    }

    lemma AbsorbedState(m: seq<bv8>)
      requires Absorbed(m)
      ensures StateWork() == Fold(Compress, InitialHash(), m)
    {
    }

    method PutDigest(output: array<bv8>)
      requires Shaped() && is224 == 0 && output.Length >= 32
      modifies output
      ensures output[..32] == Digest(StateWork())
      ensures forall k :: 32 <= k < output.Length ==> output[k] == old(output[k])
    {
      hide BytesBE;
      PutHalf(output);
      PutWord(output, 16, state[4]);
      PutWord(output, 20, state[5]);
      PutWord(output, 24, state[6]);
      if is224 == 0 {
        PutWord(output, 28, state[7]);
      }
    }

    /** The first four words of the digest. */
    method PutHalf(output: array<bv8>)
      requires Shaped() && output.Length >= 32
      modifies output
      ensures output[..16] == BytesBE(state[0]) + BytesBE(state[1]) + BytesBE(state[2]) + BytesBE(state[3])
      ensures forall k :: 16 <= k < output.Length ==> output[k] == old(output[k])
    {
      hide BytesBE;
      PutWord(output, 0, state[0]);
      PutWord(output, 4, state[1]);
      PutWord(output, 8, state[2]);
      PutWord(output, 12, state[3]);
    }

    method AddState(A: array<bv32>)
      requires Shaped() && A.Length == 8 && A != state
      modifies state
      ensures StateWork() == AddWork(old(StateWork()), WorkOf(A))
    {
      hide Plus;
      for i := 0 to 8
        invariant forall k :: 0 <= k < i ==> state[k] == Plus(old(state[k]), A[k])
        invariant forall k :: i <= k < 8 ==> state[k] == old(state[k])
      {
        state[i] := Plus(state[i], A[i]);
      }
    }
  }

  method RolledRounds(A: array<bv32>, data: Block)
    requires A.Length == 8
    modifies A
    ensures WorkOf(A) == Rounds(old(WorkOf(A)), data, 64)
  {
    hide Round, Rounds, K, Schedule, Slots;
    var W := new bv32[64];
    ghost var start := WorkOf(A);
    NoRounds(start, data);
    for i := 0 to 64
      invariant Scheduled(W, data, i)
      invariant WorkOf(A) == Rounds(start, data, i)
    {
      W[i] := ScheduleWord(data, i, W);
      OneRound(start, data, i);
      Advance(A, W[i], K(i));
    }
  }

  ghost predicate Scheduled(W: array<bv32>, data: Block, n: nat)
    reads W
  {
    W.Length == 64 && n <= 64 && forall k :: 0 <= k < n ==> W[k] == Schedule(data, k)
  }

  /** The macro P on register slots: only slots d and h change. */
  method StepAt(A: array<bv32>, a: nat, b: nat, c: nat, d: nat, e: nat, f: nat, g: nat, h: nat, x: bv32, k: bv32)
    requires A.Length == 8 && a < 8 && b < 8 && c < 8 && d < 8 && e < 8 && f < 8 && g < 8 && h < 8
    requires d != a && d != b && d != c && d != e && d != f && d != g && d != h
    requires h != a && h != b && h != c && h != e && h != f && h != g
    modifies A
    ensures Slots(A, h, a, b, c, d, e, f, g) == Round(old(Slots(A, a, b, c, d, e, f, g, h)), x, k)
  {
    hide Round;
    A[d], A[h] := Step(A[a], A[b], A[c], A[d], A[e], A[f], A[g], A[h], x, k);
  }

  method UnrolledRounds(A: array<bv32>, data: Block)
    requires A.Length == 8
    modifies A
    ensures WorkOf(A) == Rounds(old(WorkOf(A)), data, 64)
  {
    hide Round, Rounds, K, Schedule, Slots, Scheduled;
    var W := new bv32[64];
    ghost var start := WorkOf(A);
    NoRounds(start, data);
    LoadWords(W, data);
    var i := 0;
    while i < 16
      invariant i % 8 == 0 && 0 <= i <= 16
      invariant Scheduled(W, data, 16)
      invariant WorkOf(A) == Rounds(start, data, i)
      modifies A
    {
      EightWords(W, data, i, 16);
      EightRounds(A, W[i..i + 8], i, start, data);
      i := i + 8;
    }
    while i < 64
      invariant i % 8 == 0 && 16 <= i <= 64
      invariant Scheduled(W, data, i)
      invariant WorkOf(A) == Rounds(start, data, i)
    {
      ExpandEight(W, data, i);
      EightWords(W, data, i, i + 8);
      EightRounds(A, W[i..i + 8], i, start, data);
      i := i + 8;
    }
  }

  /** The words of the block itself. */
  method LoadWords(W: array<bv32>, data: Block)
    requires W.Length == 64
    modifies W
    ensures Scheduled(W, data, 16)
  {
    hide Schedule;
    for i := 0 to 16
      invariant Scheduled(W, data, i)
    {
      W[i] := ScheduleWord(data, i, W);
    }
  }

  /** x holds the schedule words from i on. */
  ghost predicate WordsFrom(x: seq<bv32>, data: Block, i: nat) {
    |x| == 8 && i <= 56 && forall j :: 0 <= j < 8 ==> x[j] == Schedule(data, i + j)
  }

  lemma EightWords(W: array<bv32>, data: Block, i: nat, n: nat)
    requires Scheduled(W, data, n) && i + 8 <= n
    ensures n <= W.Length && WordsFrom(W[i..i + 8], data, i)
  {
    hide Schedule;
  }

  lemma NoRounds(v: Work, m: Block)
    ensures Rounds(v, m, 0) == v
  {
  }

  lemma OneRound(v: Work, m: Block, t: nat)
    requires t < 64
    ensures Rounds(v, m, t + 1) == Round(Rounds(v, m, t), Schedule(m, t), K(t))
  {
  }

  /** R(i) .. R(i + 7), which the unrolled loop evaluates as the x arguments of its eight steps. */
  method ExpandEight(W: array<bv32>, data: Block, i: nat)
    requires 16 <= i <= 56 && Scheduled(W, data, i)
    modifies W
    ensures Scheduled(W, data, i + 8)
  {
    hide Schedule;
    for j := 0 to 8
      invariant Scheduled(W, data, i + j)
    {
      W[i + j] := ScheduleWord(data, i + j, W);
    }
  }

  /** Eight steps, each naming the registers one slot further back, bring the registers home. */
  method EightRounds(A: array<bv32>, x: seq<bv32>, i: nat, ghost start: Work, ghost data: Block)
    requires A.Length == 8 && WordsFrom(x, data, i)
    requires WorkOf(A) == Rounds(start, data, i)
    modifies A
    ensures WorkOf(A) == Rounds(start, data, i + 8)
  {
    hide Round, Rounds, K, Schedule, Slots;
    OneRound(start, data, i);
    StepAt(A, 0, 1, 2, 3, 4, 5, 6, 7, x[0], K(i));
    OneRound(start, data, i + 1);
    StepAt(A, 7, 0, 1, 2, 3, 4, 5, 6, x[1], K(i + 1));
    OneRound(start, data, i + 2);
    StepAt(A, 6, 7, 0, 1, 2, 3, 4, 5, x[2], K(i + 2));
    OneRound(start, data, i + 3);
    StepAt(A, 5, 6, 7, 0, 1, 2, 3, 4, x[3], K(i + 3));
    OneRound(start, data, i + 4);
    StepAt(A, 4, 5, 6, 7, 0, 1, 2, 3, x[4], K(i + 4));
    OneRound(start, data, i + 5);
    StepAt(A, 3, 4, 5, 6, 7, 0, 1, 2, x[5], K(i + 5));
    OneRound(start, data, i + 6);
    StepAt(A, 2, 3, 4, 5, 6, 7, 0, 1, x[6], K(i + 6));
    OneRound(start, data, i + 7);
    StepAt(A, 1, 2, 3, 4, 5, 6, 7, 0, x[7], K(i + 7));
  }

  /** W[t]: a word of the block, or R(t) from earlier words. */
  method ScheduleWord(data: Block, t: nat, W: array<bv32>) returns (w: bv32)
    requires t < 64 && Scheduled(W, data, t)
    ensures w == Schedule(data, t)
  {
    hide SmallSigma0, SmallSigma1, S0, S1, WordBE, Plus;
    if t < 16 {
      w := WordBE(data[4 * t], data[4 * t + 1], data[4 * t + 2], data[4 * t + 3]);
    } else {
      ShiftsAreSigmas(W[t - 2]);
      ShiftsAreSigmas(W[t - 15]);
      w := Plus(Plus(S1(W[t - 2]), W[t - 7]), Plus(S0(W[t - 15]), W[t - 16]));
    }
  }

  /** PUT_UINT32_BE. */
  method PutWord(b: array<bv8>, i: nat, w: bv32)
    requires i + 4 <= b.Length
    modifies b
    ensures b[..i + 4] == old(b[..i]) + BytesBE(w)
    ensures forall k :: i + 4 <= k < b.Length ==> b[k] == old(b[k])
  {
    var bytes := BytesBE(w);
    hide BytesBE;
    b[i], b[i + 1], b[i + 2], b[i + 3] := bytes[0], bytes[1], bytes[2], bytes[3];
  }

  lemma PadLength(m: seq<bv8>)
    ensures |Pad(m)| % 64 == 0
  {
    hide Padding, Bytes32BE;
    PaddedLength(|m|);
  }

  /** utils_sha256. */
  method HashOnce(input: seq<bv8>, output: array<bv8>)
    requires |input| < TWO32 && output.Length >= 32
    modifies output
    ensures output[..32] == Sha256(input)
  {
    hide Sha256, Sha256Context.Valid;
    var ctx := new Sha256Context();
    ctx.Starts();
    ctx.Update(input);
    assert [] + input == input;
    ctx.Finish(output);
  }

  /** Any split of a message into update calls gives the digest of the whole message. */
  method HashParts(parts: seq<seq<bv8>>, output: array<bv8>)
    requires output.Length >= 32 && forall i :: 0 <= i < |parts| ==> |parts[i]| < TWO32
    modifies output
    ensures output[..32] == Sha256(Joined(parts))
  {
    hide Sha256, Sha256Context.Valid;
    var ctx := new Sha256Context();
    ctx.Starts();
    for i := 0 to |parts|
      invariant ctx.Valid() && ctx.msg == Joined(parts[..i])
    {
      ctx.Update(parts[i]);
      assert parts[..i + 1][..i] == parts[..i];
    }
    assert parts[..|parts|] == parts;
    ctx.Finish(output);
  }

  /** utils_hmac_sha256; a null argument or a key of more than 64 bytes leaves the output alone. */
  method HmacSha256(text: array?<bv8>, text_len: nat, key: array?<bv8>, key_len: nat, output: array?<bv8>)
    requires text != null ==> text_len <= text.Length && text_len < TWO32
    requires key != null ==> key_len <= key.Length
    requires output != null ==> output.Length >= 32
    modifies output
    ensures text != null && key != null && output != null && key_len <= 64 ==>
      output[..32] == Hmac(old(key[..key_len]), old(text[..text_len]))
    ensures output != null && (text == null || key == null || key_len > 64) ==> output[..] == old(output[..])
  {
    hide Sha256, XorWith, Sha256Context.Valid;
    if text == null || key == null || output == null {
      return;
    }
    if key_len > 64 {
      return;
    }
    var t := text[..text_len];
    var k_ipad := PaddedKey(key, key_len, 0x36);
    var k_opad := PaddedKey(key, key_len, 0x5c);

    var context := new Sha256Context();
    Pass(context, k_ipad[..], t, output);
    Pass(context, k_opad[..], output[..32], output);
  }

  /** One of the two passes: the context is started again, fed the pad and the data, and finished. */
  method Pass(context: Sha256Context, pad: seq<bv8>, data: seq<bv8>, output: array<bv8>)
    requires context.Shaped() && output.Length >= 32 && output != context.buffer
    requires |pad| == 64 && |data| < TWO32
    modifies context, context.state, context.buffer, output
    ensures output[..32] == Sha256(pad + data)
  {
    hide Sha256, Sha256Context.Valid;
    context.Starts();
    context.Update(pad);
    context.Update(data);
    assert [] + pad + data == pad + data;
    context.Finish(output);
  }

  /** The key copied into a zeroed 64-byte block and xored with the pad byte. */
  method PaddedKey(key: array<bv8>, key_len: nat, pad: bv8) returns (k: array<bv8>)
    requires key_len <= key.Length && key_len <= 64
    ensures fresh(k) && k[..] == XorWith(key[..key_len], pad)
  {
    k := new bv8[64](_ => 0);
    for i := 0 to key_len
      invariant forall j :: 0 <= j < 64 ==> k[j] == if j < i then key[j] else 0
    {
      k[i] := key[i];
    }
    ghost var full := key[..key_len] + Zeros(64 - key_len);
    for i := 0 to 64
      invariant forall j :: 0 <= j < 64 ==> k[j] == if j < i then XorByte(full[j], pad) else full[j]
    {
      k[i] := XorByte(k[i], pad);
    }
  }
}
