/**
  The Blowfish context of external_libs/mbedtls/library/blowfish.c: the block
  functions and the three mode functions, proved against the network and the machines
  of BlowfishModes for whatever P-array and S-boxes the context holds.
 */
module Blowfish {
  import opened Bytes
  import opened Words
  import opened BlowfishModes

  const ROUNDS := 16
  const BLOCKSIZE := 8
  const DECRYPT := 0
  const ENCRYPT := 1
  const ERR_BLOWFISH_INVALID_INPUT_LENGTH := -0x0018

  type Boxes = s: seq<seq<bv32>> | |s| == 4 && forall i :: 0 <= i < 4 ==> |s[i]| == 256
    witness seq(4, _ => seq(256, _ => 0))

  type Keys = p: seq<bv32> | |p| == ROUNDS + 2 witness seq(ROUNDS + 2, _ => 0)

  function ByteAt(x: bv32, n: nat): (v: int)
    requires n < 4
    ensures 0 <= v < 256
  {
    Value(((if n == 3 then x >> 24 else if n == 2 then x >> 16 else if n == 1 then x >> 8 else x) & 0xFF) as bv8)
  }

  /** The round function: two additions and an exclusive or of four S-box words. */
  function F(s: Boxes, x: bv32): bv32 {
    Plus(XorWord(Plus(s[0][ByteAt(x, 3)], s[1][ByteAt(x, 2)]), s[2][ByteAt(x, 1)]), s[3][ByteAt(x, 0)])
  }

  function RoundFunction(s: Boxes): bv32 -> bv32 {
    x => F(s, x)
  }

  function LoadHalves(b: Octets): Halves {
    Halves(WordBE(b[0], b[1], b[2], b[3]), WordBE(b[4], b[5], b[6], b[7]))
  }

  function StoreHalves(x: Halves): Octets {
    BytesBE(x.l) + BytesBE(x.r)
  }

  function EncryptBlock(p: Keys, s: Boxes): Octets -> Octets {
    (b: Octets) => StoreHalves(Network(RoundFunction(s), LoadHalves(b), p))
  }

  function DecryptBlock(p: Keys, s: Boxes): Octets -> Octets {
    (b: Octets) => StoreHalves(Network(RoundFunction(s), LoadHalves(b), Backwards(p)))
  }

  lemma LoadStore(b: Octets, x: Halves)
    ensures StoreHalves(LoadHalves(b)) == b
    ensures LoadHalves(StoreHalves(x)) == x
  {
    BytesOfWordBE(b[0], b[1], b[2], b[3]);
    BytesOfWordBE(b[4], b[5], b[6], b[7]);
    WordOfBytesBE(x.l);
    WordOfBytesBE(x.r);
    hide WordBE, BytesBE;
  }

  /** For every P-array and S-boxes, blowfish_dec undoes blowfish_enc on every block. */
  lemma BlocksInvert(p: Keys, s: Boxes)
    ensures BlockInverse(DecryptBlock(p, s), EncryptBlock(p, s))
  {
    hide LoadHalves, StoreHalves, Network;
    forall b: Octets
      ensures DecryptBlock(p, s)(EncryptBlock(p, s)(b)) == b
    {
      var x := LoadHalves(b);
      LoadStore(b, Network(RoundFunction(s), x, p));
      NetworkInverts(RoundFunction(s), x, p);
    }
  }

  /** The 8-byte blocks of a buffer. */
  function BlocksOf(b: seq<bv8>): (r: seq<Octets>)
    requires |b| % 8 == 0
    ensures |r| == |b| / 8
  {
    seq(|b| / 8, i requires 0 <= i < |b| / 8 => b[8 * i..8 * i + 8])
  }

  lemma BlocksAppend(b: seq<bv8>, x: Octets)
    requires |b| % 8 == 0
    ensures BlocksOf(b + x) == BlocksOf(b) + [x]
  {
    var r := BlocksOf(b + x);
    assert |r| == |b| / 8 + 1;
    forall i | 0 <= i < |b| / 8
      ensures r[i] == BlocksOf(b)[i]
    {
      assert (b + x)[8 * i..8 * i + 8] == b[8 * i..8 * i + 8];
    }
    assert (b + x)[|b|..|b| + 8] == x;
    assert r[|b| / 8] == x;
  }

  /** The blocks of `out` and the vector `iv` are what the machine makes of the blocks of `data` from iv0. */
  ghost predicate CbcRuns(step: (Octets, Octets) -> (Octets, Octets), iv0: Octets, data: seq<bv8>, out: seq<bv8>,
      iv: Octets) {
    && |data| % 8 == 0 && |out| == |data|
    && Run<Octets, Octets, Octets>(step, iv0, BlocksOf(data)) == (BlocksOf(out), iv)
  }

  lemma CbcExtend(step: (Octets, Octets) -> (Octets, Octets), iv0: Octets, data: seq<bv8>, out: seq<bv8>, iv: Octets,
      x: Octets)
    requires CbcRuns(step, iv0, data, out, iv)
    ensures CbcRuns(step, iv0, data + x, out + step(iv, x).0, step(iv, x).1)
  {
    BlocksAppend(data, x);
    BlocksAppend(out, step(iv, x).0);
    hide BlocksOf;
    assert BlocksOf(data + x)[..|BlocksOf(data + x)| - 1] == BlocksOf(data);
  }

  ghost predicate CfbRuns(step: (Feedback, bv8) -> (bv8, Feedback), s0: Feedback, data: seq<bv8>, out: seq<bv8>,
      s: Feedback) {
    Run<Feedback, bv8, bv8>(step, s0, data) == (out, s)
  }

  lemma CfbExtend(step: (Feedback, bv8) -> (bv8, Feedback), s0: Feedback, data: seq<bv8>, out: seq<bv8>, s: Feedback,
      x: bv8)
    requires CfbRuns(step, s0, data, out, s)
    ensures CfbRuns(step, s0, data + [x], out + [step(s, x).0], step(s, x).1)
  {
    assert (data + [x])[..|data + [x]| - 1] == data;
  }

  ghost predicate CtrRuns(step: (Counter, bv8) -> (bv8, Counter), s0: Counter, data: seq<bv8>, out: seq<bv8>,
      s: Counter) {
    Run<Counter, bv8, bv8>(step, s0, data) == (out, s)
  }

  lemma CtrExtend(step: (Counter, bv8) -> (bv8, Counter), s0: Counter, data: seq<bv8>, out: seq<bv8>, s: Counter,
      x: bv8)
    requires CtrRuns(step, s0, data, out, s)
    ensures CtrRuns(step, s0, data + [x], out + [step(s, x).0], step(s, x).1)
  {
    assert (data + [x])[..|data + [x]| - 1] == data;
  }

  lemma {:induction false} BlocksInjective(a: seq<bv8>, b: seq<bv8>)
    requires |a| % 8 == 0 && |a| == |b| && BlocksOf(a) == BlocksOf(b)
    ensures a == b
  {
    forall i | 0 <= i < |a|
      ensures a[i] == b[i]
    {
      var k := i / 8;
      assert BlocksOf(a)[k][i - 8 * k] == BlocksOf(b)[k][i - 8 * k];
    }
  }

  // ---------- the mode theorems, for every P-array, every S-boxes and every two ways of splitting ----------

  lemma CbcRoundTrip(p: Keys, s: Boxes, iv: Octets, sent: seq<seq<Octets>>, received: seq<seq<Octets>>)
    requires Concat(received) == RunParts(CbcEncrypt(EncryptBlock(p, s)), iv, sent).0
    ensures RunParts(CbcDecrypt(DecryptBlock(p, s)), iv, received)
         == (Concat(sent), RunParts(CbcEncrypt(EncryptBlock(p, s)), iv, sent).1)
  {
    hide EncryptBlock, DecryptBlock, CbcEncrypt, CbcDecrypt, RunParts, Concat, Undoes, BlockInverse;
    BlocksInvert(p, s);
    CbcUndoes(DecryptBlock(p, s), EncryptBlock(p, s));
    SplitsAgree(CbcDecrypt(DecryptBlock(p, s)), CbcEncrypt(EncryptBlock(p, s)), iv, sent, received);
  }

  lemma CfbRoundTrip(p: Keys, s: Boxes, start: Feedback, sent: seq<seq<bv8>>, received: seq<seq<bv8>>)
    requires Concat(received) == RunParts(CfbEncrypt(EncryptBlock(p, s)), start, sent).0
    ensures RunParts(CfbDecrypt(EncryptBlock(p, s)), start, received)
         == (Concat(sent), RunParts(CfbEncrypt(EncryptBlock(p, s)), start, sent).1)
  {
    hide EncryptBlock, CfbEncrypt, CfbDecrypt, RunParts, Concat, Undoes;
    CfbUndoes(EncryptBlock(p, s));
    SplitsAgree(CfbDecrypt(EncryptBlock(p, s)), CfbEncrypt(EncryptBlock(p, s)), start, sent, received);
  }

  lemma CtrRoundTrip(p: Keys, s: Boxes, start: Counter, sent: seq<seq<bv8>>, received: seq<seq<bv8>>)
    requires Concat(received) == RunParts(CtrCrypt(EncryptBlock(p, s)), start, sent).0
    ensures RunParts(CtrCrypt(EncryptBlock(p, s)), start, received)
         == (Concat(sent), RunParts(CtrCrypt(EncryptBlock(p, s)), start, sent).1)
  {
    hide EncryptBlock, CtrCrypt, RunParts, Concat, Undoes;
    CtrUndoes(EncryptBlock(p, s));
    SplitsAgree(CtrCrypt(EncryptBlock(p, s)), CtrCrypt(EncryptBlock(p, s)), start, sent, received);
  }

  class BlowfishContext {
    const P: array<bv32>
    const S: array2<bv32>

    ghost predicate Shaped() {
      P.Length == ROUNDS + 2 && S.Length0 == 4 && S.Length1 == 256
    }

    constructor ()
      ensures Shaped() && fresh(P) && fresh(S)
    {
      P := new bv32[ROUNDS + 2];
      S := new bv32[4, 256];
    }

    ghost function Boxes(): Boxes
      requires Shaped()
      reads S
    {
      seq(4, i requires 0 <= i < 4 reads S => seq(256, j requires 0 <= j < 256 reads S => S[i, j]))
    }

    ghost function Keys(): Keys
      requires Shaped()
      reads P
    {
      P[..]
    }

    /** The function F of the source. */
    method RoundF(x: bv32) returns (y: bv32)
      requires Shaped()
      ensures y == RoundFunction(Boxes())(x)
    {
      hide Plus, XorWord, ByteAt;
      y := Plus(S[0, ByteAt(x, 3)], S[1, ByteAt(x, 2)]);
      y := XorWord(y, S[2, ByteAt(x, 1)]);
      y := Plus(y, S[3, ByteAt(x, 0)]);
    }

    /** blowfish_enc: sixteen rounds in key order. */
    method BlowfishEnc(xl: bv32, xr: bv32) returns (l: bv32, r: bv32)
      requires Shaped()
      ensures Halves(l, r) == Network(RoundFunction(Boxes()), Halves(xl, xr), Keys())
    {
      hide XorWord, RoundFunction;
      ghost var f, p := RoundFunction(Boxes()), Keys();
      l, r := xl, xr;
      for i := 0 to ROUNDS
        invariant Halves(l, r) == Rounds(f, Halves(xl, xr), p[..i])
      {
        assert p[..i + 1][..i] == p[..i];
        l := XorWord(l, P[i]);
        var y := RoundF(l);
        r := XorWord(y, r);
        l, r := r, l;
      }
      l, r := r, l;
      r := XorWord(r, P[ROUNDS]);
      l := XorWord(l, P[ROUNDS + 1]);
    }

    /** blowfish_dec: sixteen rounds against key order. */
    method BlowfishDec(xl: bv32, xr: bv32) returns (l: bv32, r: bv32)
      requires Shaped()
      ensures Halves(l, r) == Network(RoundFunction(Boxes()), Halves(xl, xr), Backwards(Keys()))
    {
      hide XorWord, RoundFunction;
      ghost var f, q := RoundFunction(Boxes()), Backwards(Keys());
      l, r := xl, xr;
      var i := ROUNDS + 1;
      while i > 1
        invariant 1 <= i <= ROUNDS + 1
        invariant Halves(l, r) == Rounds(f, Halves(xl, xr), q[..ROUNDS + 1 - i])
      {
        assert q[..ROUNDS + 2 - i][..ROUNDS + 1 - i] == q[..ROUNDS + 1 - i];
        l := XorWord(l, P[i]);
        var y := RoundF(l);
        r := XorWord(y, r);
        l, r := r, l;
        i := i - 1;
      }
      l, r := r, l;
      r := XorWord(r, P[1]);
      l := XorWord(l, P[0]);
    }

    /** mbedtls_blowfish_crypt_ecb; the block is read whole before the result is written. */
    method CryptEcb(mode: int, input: Octets) returns (output: Octets)
      requires Shaped()
      ensures output ==
        (if mode == DECRYPT then DecryptBlock(Keys(), Boxes()) else EncryptBlock(Keys(), Boxes()))(input)
    {
      hide WordBE, BytesBE, Network, RoundFunction, Backwards;
      var x0 := WordBE(input[0], input[1], input[2], input[3]);
      var x1 := WordBE(input[4], input[5], input[6], input[7]);
      if mode == DECRYPT {
        x0, x1 := BlowfishDec(x0, x1);
      } else {
        x0, x1 := BlowfishEnc(x0, x1);
      }
      output := BytesBE(x0) + BytesBE(x1);
    }

    ghost function CbcStep(mode: int): (Octets, Octets) -> (Octets, Octets)
      requires Shaped()
      reads P, S
    {
      if mode == DECRYPT then CbcDecrypt(DecryptBlock(Keys(), Boxes())) else CbcEncrypt(EncryptBlock(Keys(), Boxes()))
    }

    /** mbedtls_blowfish_crypt_cbc; input and output may be the same buffer. */
    method CryptCbc(mode: int, length: nat, iv: array<bv8>, input: array<bv8>, output: array<bv8>) returns (ret: int)
      requires Shaped() && iv.Length == 8 && length <= input.Length && length <= output.Length
      requires iv != input && iv != output
      modifies iv, output
      ensures length % 8 != 0 ==> ret == ERR_BLOWFISH_INVALID_INPUT_LENGTH
      ensures length % 8 != 0 ==> iv[..] == old(iv[..]) && output[..] == old(output[..])
      ensures length % 8 == 0 ==> ret == 0
      ensures length % 8 == 0 ==>
        CbcRuns(CbcStep(mode), old(iv[..]), old(input[..length]), output[..length], iv[..])
      ensures forall k :: length <= k < output.Length ==> output[k] == old(output[k])
    {
      if length % BLOCKSIZE != 0 {
        return ERR_BLOWFISH_INVALID_INPUT_LENGTH;
      }
      hide CbcStep, CbcRuns;
      CbcLoop(mode, length, iv, input, output);
      ret := 0;
    }

    method CbcLoop(mode: int, length: nat, iv: array<bv8>, input: array<bv8>, output: array<bv8>)
      requires Shaped() && iv.Length == 8 && length <= input.Length && length <= output.Length
      requires iv != input && iv != output && length % 8 == 0
      modifies iv, output
      ensures CbcRuns(CbcStep(mode), old(iv[..]), old(input[..length]), output[..length], iv[..])
      ensures forall k :: length <= k < output.Length ==> output[k] == old(output[k])
    {
      hide CbcStep, CbcRuns;
      ghost var iv0, data := iv[..], input[..length];
      var pos := 0;
      CbcStart(CbcStep(mode), iv0);
      assert data[..0] == [] && output[..0] == [];
      while pos < length
        invariant 0 <= pos <= length && pos % 8 == 0
        invariant CbcRuns(CbcStep(mode), iv0, data[..pos], output[..pos], iv[..])
        invariant input[pos..length] == data[pos..]
        invariant forall k :: length <= k < output.Length ==> output[k] == old(output[k])
      {
        CbcTurn(mode, pos, length, iv, input, output, iv0, data);
        pos := pos + 8;
      }
      assert data[..length] == data;
    }

    /** One turn of either CBC loop: a block read, transformed and written, the vector replaced. */
    method CbcTurn(mode: int, pos: nat, length: nat, iv: array<bv8>, input: array<bv8>, output: array<bv8>,
                   ghost iv0: Octets, ghost data: seq<bv8>)
      requires Shaped() && iv.Length == 8 && length <= input.Length && length <= output.Length
      requires iv != input && iv != output
      requires |data| == length && pos + 8 <= length && input[pos..length] == data[pos..]
      requires CbcRuns(CbcStep(mode), iv0, data[..pos], output[..pos], iv[..])
      modifies iv, output
      ensures CbcRuns(CbcStep(mode), iv0, data[..pos + 8], output[..pos + 8], iv[..])
      ensures input[pos + 8..length] == data[pos + 8..]
      ensures forall k :: length <= k < output.Length ==> output[k] == old(output[k])
    {
      hide CbcStep, CbcRuns;
      var x := input[pos..pos + 8];
      assert x == input[pos..length][..8] == data[pos..][..8];
      assert data[..pos] + x == data[..pos + 8];
      var y, next := CbcBlock(mode, x, iv[..]);
      CbcExtend(CbcStep(mode), iv0, data[..pos], output[..pos], iv[..], x);
      ghost var before, rest := output[..pos], input[pos + 8..length];
      CopyOctets(output, pos, y);
      assert output[..pos + 8] == before + y;
      assert input[pos + 8..length] == rest;
      CopyOctets(iv, 0, next);
      assert iv[..] == next;
    }

    /** The loop bodies of the two CBC directions. */
    method CbcBlock(mode: int, x: Octets, iv: Octets) returns (y: Octets, next: Octets)
      requires Shaped()
      ensures (y, next) == CbcStep(mode)(iv, x)
    {
      hide XorByte, LoadHalves, StoreHalves, Network, Backwards, RoundFunction;
      if mode == DECRYPT {
        y := CryptEcb(mode, x);
        y := XorOctets(y, iv);
        next := x;
      } else {
        y := XorOctets(x, iv);
        y := CryptEcb(mode, y);
        next := y;
      }
    }

    ghost function CfbStep(mode: int): (Feedback, bv8) -> (bv8, Feedback)
      requires Shaped()
      reads P, S
    {
      if mode == DECRYPT then CfbDecrypt(EncryptBlock(Keys(), Boxes())) else CfbEncrypt(EncryptBlock(Keys(), Boxes()))
    }

    /** mbedtls_blowfish_crypt_cfb64; the offset goes in as iv_off and comes back as the result. */
    method CryptCfb64(mode: int, length: nat, iv_off: nat, iv: array<bv8>, input: array<bv8>, output: array<bv8>)
      returns (n: nat)
      requires Shaped() && iv.Length == 8 && iv_off < 8 && length <= input.Length && length <= output.Length
      requires iv != input && iv != output
      modifies iv, output
      ensures n < 8
      ensures CfbRuns(CfbStep(mode), Feedback(old(iv[..]), iv_off), old(input[..length]), output[..length],
        Feedback(iv[..], n))
      ensures forall k :: length <= k < output.Length ==> output[k] == old(output[k])
    {
      hide CfbStep;
      ghost var s0, data := Feedback(iv[..], iv_off), input[..length];
      n := iv_off;
      for pos := 0 to length
        invariant n < 8
        invariant CfbRuns(CfbStep(mode), s0, data[..pos], output[..pos], Feedback(iv[..], n))
        invariant input[pos..length] == data[pos..]
        invariant forall k :: length <= k < output.Length ==> output[k] == old(output[k])
      {
        n := CfbTurn(mode, pos, length, n, iv, input, output, s0, data);
      }
      assert data[..length] == data;
    }

    /** One turn of either CFB loop. */
    method CfbTurn(mode: int, pos: nat, length: nat, n: nat, iv: array<bv8>, input: array<bv8>, output: array<bv8>,
                   ghost s0: Feedback, ghost data: seq<bv8>) returns (next: nat)
      requires Shaped() && iv.Length == 8 && n < 8 && length <= input.Length && length <= output.Length
      requires iv != input && iv != output
      requires |data| == length && pos < length && input[pos..length] == data[pos..]
      requires CfbRuns(CfbStep(mode), s0, data[..pos], output[..pos], Feedback(iv[..], n))
      modifies iv, output
      ensures next < 8
      ensures CfbRuns(CfbStep(mode), s0, data[..pos + 1], output[..pos + 1], Feedback(iv[..], next))
      ensures input[pos + 1..length] == data[pos + 1..]
      ensures forall k :: length <= k < output.Length ==> output[k] == old(output[k])
    {
      hide CfbStep, CfbRuns;
      ghost var before, rest, s := output[..pos], input[pos + 1..length], Feedback(iv[..], n);
      var x := input[pos];
      assert x == input[pos..length][0] == data[pos];
      CfbExtend(CfbStep(mode), s0, data[..pos], before, s, x);
      assert data[..pos] + [x] == data[..pos + 1];
      var y, vector := CfbByte(mode, x, iv[..], n);
      output[pos] := y;
      assert output[..pos + 1] == before + [y];
      assert input[pos + 1..length] == rest == data[pos..][1..];
      CopyOctets(iv, 0, vector);
      assert iv[..] == vector;
      next := (n + 1) % 8;
    }

    /** The loop bodies of the two CFB directions: refill at offset 0, output byte, feedback byte. */
    method CfbByte(mode: int, x: bv8, iv: Octets, n: nat) returns (y: bv8, vector: Octets)
      requires Shaped() && n < 8
      ensures (y, Feedback(vector, (n + 1) % 8)) == CfbStep(mode)(Feedback(iv, n), x)
    {
      hide XorByte, CfbStep, Refilled;
      CfbByteIs(mode, Feedback(iv, n), x);
      vector := RefillVector(iv, n);
      if mode == DECRYPT {
        y := XorByte(x, vector[n]);
        vector := vector[n := x];
      } else {
        y := XorByte(vector[n], x);
        vector := vector[n := y];
      }
    }

    ghost function Refilled(s: Feedback): Octets
      requires Shaped()
      reads P, S
    {
      Refill(EncryptBlock(Keys(), Boxes()), s)
    }

    /** At offset 0 the vector is encrypted in place. */
    method RefillVector(iv: Octets, n: nat) returns (vector: Octets)
      requires Shaped() && n < 8
      ensures vector == Refilled(Feedback(iv, n))
    {
      hide LoadHalves, StoreHalves, Network, Backwards, RoundFunction;
      vector := iv;
      if n == 0 {
        vector := CryptEcb(ENCRYPT, vector);
      }
    }

    lemma CfbByteIs(mode: int, s: Feedback, x: bv8)
      requires Shaped()
      ensures var iv := Refilled(s);
        var c := if mode == DECRYPT then x else XorByte(iv[s.n], x);
        CfbStep(mode)(s, x) ==
          (if mode == DECRYPT then XorByte(x, iv[s.n]) else c, Feedback(iv[s.n := c], (s.n + 1) % 8))
    {
    }

    ghost function CtrStep(): (Counter, bv8) -> (bv8, Counter)
      requires Shaped()
      reads P, S
    {
      CtrCrypt(EncryptBlock(Keys(), Boxes()))
    }

    /** mbedtls_blowfish_crypt_ctr; the offset goes in as nc_off and comes back as the result. */
    method CryptCtr(length: nat, nc_off: nat, nonce_counter: array<bv8>, stream_block: array<bv8>,
                    input: array<bv8>, output: array<bv8>) returns (n: nat)
      requires Shaped() && nonce_counter.Length == 8 && stream_block.Length == 8 && nc_off < 8
      requires length <= input.Length && length <= output.Length && nonce_counter != stream_block
      requires nonce_counter != input && nonce_counter != output && stream_block != input && stream_block != output
      modifies nonce_counter, stream_block, output
      ensures n < 8
      ensures CtrRuns(CtrStep(), old(Counter(nonce_counter[..], stream_block[..], nc_off)), old(input[..length]),
                      output[..length], Counter(nonce_counter[..], stream_block[..], n))
      ensures forall k :: length <= k < output.Length ==> output[k] == old(output[k])
    {
      hide CtrStep;
      ghost var s0, data := Counter(nonce_counter[..], stream_block[..], nc_off), input[..length];
      n := nc_off;
      for pos := 0 to length
        invariant n < 8
        invariant CtrRuns(CtrStep(), s0, data[..pos], output[..pos], Counter(nonce_counter[..], stream_block[..], n))
        invariant input[pos..length] == data[pos..]
        invariant forall k :: length <= k < output.Length ==> output[k] == old(output[k])
      {
        n := CtrTurn(pos, length, n, nonce_counter, stream_block, input, output, s0, data);
      }
      assert data[..length] == data;
    }

    /** One turn of the CTR loop. */
    method CtrTurn(pos: nat, length: nat, n: nat, nonce_counter: array<bv8>, stream_block: array<bv8>,
                   input: array<bv8>, output: array<bv8>, ghost s0: Counter, ghost data: seq<bv8>) returns (next: nat)
      requires Shaped() && nonce_counter.Length == 8 && stream_block.Length == 8 && n < 8
      requires length <= input.Length && length <= output.Length && nonce_counter != stream_block
      requires nonce_counter != input && nonce_counter != output && stream_block != input && stream_block != output
      requires |data| == length && pos < length && input[pos..length] == data[pos..]
      requires CtrRuns(CtrStep(), s0, data[..pos], output[..pos], Counter(nonce_counter[..], stream_block[..], n))
      modifies nonce_counter, stream_block, output
      ensures next < 8
      ensures CtrRuns(CtrStep(), s0, data[..pos + 1], output[..pos + 1],
                      Counter(nonce_counter[..], stream_block[..], next))
      ensures input[pos + 1..length] == data[pos + 1..]
      ensures forall k :: length <= k < output.Length ==> output[k] == old(output[k])
    {
      hide CtrStep, CtrRuns;
      ghost var before, rest := output[..pos], input[pos + 1..length];
      ghost var s := Counter(nonce_counter[..], stream_block[..], n);
      var x := input[pos];
      assert x == input[pos..length][0] == data[pos];
      CtrExtend(CtrStep(), s0, data[..pos], before, s, x);
      assert data[..pos] + [x] == data[..pos + 1];
      var y := CtrByte(x, nonce_counter, stream_block, n);
      output[pos] := y;
      assert output[..pos + 1] == before + [y];
      assert input[pos + 1..length] == rest == data[pos..][1..];
      next := (n + 1) % 8;
    }

    /** The loop body of CTR. */
    method CtrByte(x: bv8, nonce_counter: array<bv8>, stream_block: array<bv8>, n: nat) returns (y: bv8)
      requires Shaped() && nonce_counter.Length == 8 && stream_block.Length == 8 && n < 8
        && nonce_counter != stream_block
      modifies nonce_counter, stream_block
      ensures (y, Counter(nonce_counter[..], stream_block[..], (n + 1) % 8))
           == CtrStep()(old(Counter(nonce_counter[..], stream_block[..], n)), x)
    {
      hide XorByte, CtrStep, Refreshed;
      CtrByteIs(Counter(nonce_counter[..], stream_block[..], n), x);
      RefreshStream(n, nonce_counter, stream_block);
      y := XorByte(x, stream_block[n]);
    }

    ghost function Refreshed(s: Counter): Counter
      requires Shaped()
      reads P, S
    {
      Refresh(EncryptBlock(Keys(), Boxes()), s)
    }

    lemma CtrByteIs(s: Counter, x: bv8)
      requires Shaped()
      ensures CtrStep()(s, x) == (XorByte(x, Refreshed(s).stream[s.n]), Refreshed(s).(n := (s.n + 1) % 8))
    {
    }

    /** At offset 0 the counter is encrypted into the key stream and then incremented. */
    method RefreshStream(n: nat, nonce_counter: array<bv8>, stream_block: array<bv8>)
      requires Shaped() && nonce_counter.Length == 8 && stream_block.Length == 8 && n < 8
        && nonce_counter != stream_block
      modifies nonce_counter, stream_block
      ensures Counter(nonce_counter[..], stream_block[..], n)
           == Refreshed(old(Counter(nonce_counter[..], stream_block[..], n)))
    {
      hide LoadHalves, StoreHalves, Network, Backwards, RoundFunction, Successor;
      if n == 0 {
        var block := CryptEcb(ENCRYPT, nonce_counter[..]);
        CopyOctets(stream_block, 0, block);
        assert stream_block[..] == block;
        Increment(nonce_counter);
      }
    }
  }

  /** The carry loop of the CTR counter. */
  method Increment(counter: array<bv8>)
    requires counter.Length == 8
    modifies counter
    ensures counter[..] == Successor(old(counter[..]))
  {
    hide NextByte, Successor;
    ghost var c := counter[..];
    var i := 8;
    SuccessorTail(c, 8);
    while i > 0
      invariant 0 <= i <= 8
      invariant counter[..i] == c[..i]
      invariant Successor(c[..i]) + counter[i..] == Successor(c)
    {
      assert counter[..i][i - 1] == c[..i][i - 1] && counter[..i][..i - 1] == counter[..i - 1];
      SuccessorCarry(c, i, counter[i..]);
      ghost var rest := counter[i..];
      counter[i - 1] := NextByte(counter[i - 1]);
      assert counter[..i - 1] == c[..i][..i - 1] == c[..i - 1];
      assert counter[i - 1..] == [counter[i - 1]] + rest;
      if counter[i - 1] != 0 {
        assert counter[..] == counter[..i - 1] + counter[i - 1..];
        break;
      }
      i := i - 1;
    }
  }

  /** A byte that wraps passes the carry on; one that does not ends it. */
  lemma SuccessorCarry(c: seq<bv8>, i: nat, rest: seq<bv8>)
    requires 0 < i <= |c|
    ensures var next := NextByte(c[i - 1]);
      Successor(c[..i]) + rest == (if next == 0 then Successor(c[..i - 1]) else c[..i - 1]) + ([next] + rest)
  {
    hide NextByte, Successor;
    SuccessorTail(c, i);
    var next := NextByte(c[i - 1]);
    var front := if next == 0 then Successor(c[..i - 1]) else c[..i - 1];
    assert front + [next] + rest == front + ([next] + rest);
  }

  lemma SuccessorTail(c: seq<bv8>, i: nat)
    requires i <= |c|
    ensures c[..|c|] == c && Successor([]) == []
    ensures i > 0 && NextByte(c[i - 1]) != 0 ==> Successor(c[..i]) == c[..i - 1] + [NextByte(c[i - 1])]
    ensures i > 0 && NextByte(c[i - 1]) == 0 ==> Successor(c[..i]) == Successor(c[..i - 1]) + [NextByte(c[i - 1])]
  {
    if i > 0 {
      assert c[..i][..i - 1] == c[..i - 1];
    }
  }

  lemma CbcStart(step: (Octets, Octets) -> (Octets, Octets), iv0: Octets)
    ensures CbcRuns(step, iv0, [], [], iv0)
  {
  }

  method CopyOctets(b: array<bv8>, at: nat, x: Octets)
    requires at + 8 <= b.Length
    modifies b
    ensures b[..at] == old(b[..at]) && b[at..at + 8] == x
    ensures forall k :: at + 8 <= k < b.Length ==> b[k] == old(b[k])
  {
    for i := 0 to 8
      invariant b[..at] == old(b[..at]) && b[at..at + i] == x[..i]
      invariant forall k :: at + 8 <= k < b.Length ==> b[k] == old(b[k])
    {
      b[at + i] := x[i];
    }
  }
}
