/**
  The AES context of external_libs/mbedtls/library/aes.c: both key schedules and
  both table-driven block operations, proved against FIPS 197.
 */
module Aes {
  import opened Bytes
  import opened Words
  import opened Gf256
  import opened Fips197
  import opened AesTables

  const ERR_AES_INVALID_KEY_LENGTH := -0x0020

  function ColumnAt(b: seq<bv8>, i: nat): Column
    requires 4 * i + 3 < |b|
  {
    Column(b[4 * i], b[4 * i + 1], b[4 * i + 2], b[4 * i + 3])
  }

  /** The state a 16-byte block fills column by column, section 3.4 of FIPS 197. */
  function BlockState(b: seq<bv8>): State
    requires |b| == 16
  {
    State(ColumnAt(b, 0), ColumnAt(b, 1), ColumnAt(b, 2), ColumnAt(b, 3))
  }

  /** The first nk words of a key. */
  function KeyColumns(key: seq<bv8>, nk: nat): (c: seq<Column>)
    requires |key| >= 4 * nk
    ensures |c| == nk
  {
    seq(nk, i requires 0 <= i < nk => ColumnAt(key, i))
  }

  function StateOf(x0: bv32, x1: bv32, x2: bv32, x3: bv32): State {
    State(ColumnOf(x0), ColumnOf(x1), ColumnOf(x2), ColumnOf(x3))
  }

  method LoadWord(b: array<bv8>, i: nat) returns (w: bv32)
    requires 4 * i + 3 < b.Length
    ensures ColumnOf(w) == ColumnAt(b[..], i)
  {
    hide ColumnOf, WordLE;
    w := WordLE(b[4 * i], b[4 * i + 1], b[4 * i + 2], b[4 * i + 3]);
    PackColumn(b[4 * i], b[4 * i + 1], b[4 * i + 2], b[4 * i + 3]);
  }

  method StoreWord(w: bv32, b: array<bv8>, i: nat)
    requires 4 * i + 3 < b.Length
    modifies b
    ensures ColumnAt(b[..], i) == ColumnOf(w)
    ensures forall k :: 0 <= k < b.Length && !(4 * i <= k < 4 * i + 4) ==> b[k] == old(b[k])
  {
    hide Byte0, Byte1, Byte2, Byte3;
    b[4 * i] := Byte0(w);
    b[4 * i + 1] := Byte1(w);
    b[4 * i + 2] := Byte2(w);
    b[4 * i + 3] := Byte3(w);
  }

  /** One line of a round: four table words and a key word. */
  method ForwardLine(t: Tables, k: bv32, y0: bv32, y1: bv32, y2: bv32, y3: bv32) returns (x: bv32)
    requires t.Ready()
    ensures ColumnOf(x) == AddColumn(MixColumn(SubColumn(Column(Byte0(y0), Byte1(y1), Byte2(y2), Byte3(y3)))),
      ColumnOf(k))
  {
    hide ColumnOf, Byte0, Byte1, Byte2, Byte3, SBox, MixTerm, Xor5, AddColumn, MixColumn, Value;
    var c := Column(Byte0(y0), Byte1(y1), Byte2(y2), Byte3(y3));
    var t0, t1, t2, t3 := t.FT[0, Value(c.b0)], t.FT[1, Value(c.b1)], t.FT[2, Value(c.b2)], t.FT[3, Value(c.b3)];
    x := Xor5(k, t0, t1, t2, t3);
    Xor5Column(k, t0, t1, t2, t3);
    MixTermsSum(SubColumn(c));
  }

  method ReverseLine(t: Tables, k: bv32, y0: bv32, y1: bv32, y2: bv32, y3: bv32) returns (x: bv32)
    requires t.Ready()
    ensures ColumnOf(x) == AddColumn(InvMixColumn(InvSubColumn(Column(Byte0(y0), Byte1(y1), Byte2(y2), Byte3(y3)))),
      ColumnOf(k))
  {
    hide ColumnOf, Byte0, Byte1, Byte2, Byte3, InvSBox, InvMixTerm, Xor5, AddColumn, InvMixColumn, Value;
    var c := Column(Byte0(y0), Byte1(y1), Byte2(y2), Byte3(y3));
    var t0, t1, t2, t3 := t.RT[0, Value(c.b0)], t.RT[1, Value(c.b1)], t.RT[2, Value(c.b2)], t.RT[3, Value(c.b3)];
    x := Xor5(k, t0, t1, t2, t3);
    Xor5Column(k, t0, t1, t2, t3);
    MixTermsSum(InvSubColumn(c));
  }

  /** The last line of encryption: S-box bytes joined and a key word added. */
  method FinalLine(box: array<bv8>, ghost f: bv8 -> bv8, k: bv32, y0: bv32, y1: bv32, y2: bv32, y3: bv32)
    returns (x: bv32)
    requires box.Length == 256 && forall b: bv8 :: box[Value(b)] == f(b)
    ensures ColumnOf(x) == AddColumn(Column(f(Byte0(y0)), f(Byte1(y1)), f(Byte2(y2)), f(Byte3(y3))), ColumnOf(k))
  {
    hide ColumnOf, Byte0, Byte1, Byte2, Byte3, JoinBytes, Value, XorWord;
    var w := JoinBytes(box[Value(Byte0(y0))], box[Value(Byte1(y1))], box[Value(Byte2(y2))], box[Value(Byte3(y3))]);
    JoinColumn(box[Value(Byte0(y0))], box[Value(Byte1(y1))], box[Value(Byte2(y2))], box[Value(Byte3(y3))]);
    x := XorWord(w, k);
    XorWordColumn(w, k);
  }

  /** An mbedtls_aes_context: the round count and the round-key words, with rk at the start of buf. */
  class AesContext {
    var nr: nat
    const buf: array<bv32>

    ghost predicate Shaped() {
      buf.Length == 68
    }

    constructor ()
      ensures Shaped() && fresh(buf) && nr == 0
    {
      nr := 0;
      buf := new bv32[68];
    }

    ghost function KeyAt(r: nat): State
      requires Shaped() && r < 17
      reads buf
    {
      StateOf(buf[4 * r], buf[4 * r + 1], buf[4 * r + 2], buf[4 * r + 3])
    }

    /** The buffer holds exactly the schedule w, one state per round. */
    ghost predicate Holds(w: seq<State>)
      reads this, buf
    {
      && Shaped() && 2 <= nr <= 14 && nr % 2 == 0 && |w| == nr + 1
      && forall r :: 0 <= r <= nr ==> KeyAt(r) == w[r]
    }

    /** AES_FROUND with its four key words at rk. */
    method ForwardRound(t: Tables, r: nat, y0: bv32, y1: bv32, y2: bv32, y3: bv32)
      returns (x0: bv32, x1: bv32, x2: bv32, x3: bv32)
      requires t.Ready() && Shaped() && r < 17
      ensures StateOf(x0, x1, x2, x3) == AddRoundKey(MixColumns(ShiftRows(SubBytes(StateOf(y0, y1, y2, y3)))), KeyAt(r))
    {
      hide Tables.Ready, Byte0, Byte1, Byte2, Byte3, MixColumn, SBox, AddColumn;
      x0 := ForwardLine(t, buf[4 * r], y0, y1, y2, y3);
      x1 := ForwardLine(t, buf[4 * r + 1], y1, y2, y3, y0);
      x2 := ForwardLine(t, buf[4 * r + 2], y2, y3, y0, y1);
      x3 := ForwardLine(t, buf[4 * r + 3], y3, y0, y1, y2);
    }

    /** AES_RROUND with its four key words at rk. */
    method ReverseRound(t: Tables, r: nat, y0: bv32, y1: bv32, y2: bv32, y3: bv32)
      returns (x0: bv32, x1: bv32, x2: bv32, x3: bv32)
      requires t.Ready() && Shaped() && r < 17
      ensures StateOf(x0, x1, x2, x3)
           == AddRoundKey(InvMixColumns(InvShiftRows(InvSubBytes(StateOf(y0, y1, y2, y3)))), KeyAt(r))
    {
      hide Tables.Ready, Byte0, Byte1, Byte2, Byte3, InvMixColumn, InvSBox, AddColumn;
      x0 := ReverseLine(t, buf[4 * r], y0, y3, y2, y1);
      x1 := ReverseLine(t, buf[4 * r + 1], y1, y0, y3, y2);
      x2 := ReverseLine(t, buf[4 * r + 2], y2, y1, y0, y3);
      x3 := ReverseLine(t, buf[4 * r + 3], y3, y2, y1, y0);
    }

    method LoadState(input: array<bv8>) returns (x0: bv32, x1: bv32, x2: bv32, x3: bv32)
      requires input.Length == 16 && Shaped()
      ensures StateOf(x0, x1, x2, x3) == AddRoundKey(BlockState(input[..]), KeyAt(0))
    {
      hide ColumnOf, AddColumn, XorWord;
      x0 := LoadWord(input, 0);
      x1 := LoadWord(input, 1);
      x2 := LoadWord(input, 2);
      x3 := LoadWord(input, 3);
      XorWordColumn(x0, buf[0]);
      XorWordColumn(x1, buf[1]);
      XorWordColumn(x2, buf[2]);
      XorWordColumn(x3, buf[3]);
      x0, x1, x2, x3 := XorWord(x0, buf[0]), XorWord(x1, buf[1]), XorWord(x2, buf[2]), XorWord(x3, buf[3]);
    }

    /** The Nr - 1 full rounds, two per turn of the loop and one after it. */
    method ForwardRounds(t: Tables, a0: bv32, a1: bv32, a2: bv32, a3: bv32, ghost block: State, ghost w: seq<State>)
      returns (x0: bv32, x1: bv32, x2: bv32, x3: bv32)
      requires t.Ready() && Holds(w)
      requires StateOf(a0, a1, a2, a3) == AddRoundKey(block, w[0])
      ensures StateOf(x0, x1, x2, x3) == AfterRounds(block, w, nr - 1)
    {
      hide Tables.Ready, AddRoundKey, MixColumns, ShiftRows, SubBytes, StateOf, KeyAt;
      x0, x1, x2, x3 := a0, a1, a2, a3;
      var i := nr / 2 - 1;
      var r := 1;
      while i > 0
        invariant i >= 0 && r == nr - 1 - 2 * i
        invariant StateOf(x0, x1, x2, x3) == AfterRounds(block, w, r - 1)
      {
        var y0, y1, y2, y3 := ForwardRound(t, r, x0, x1, x2, x3);
        x0, x1, x2, x3 := ForwardRound(t, r + 1, y0, y1, y2, y3);
        r := r + 2;
        i := i - 1;
      }
      x0, x1, x2, x3 := ForwardRound(t, r, x0, x1, x2, x3);
    }

    /** mbedtls_aes_encrypt; input and output may be the same buffer. */
    method Encrypt(t: Tables, input: array<bv8>, output: array<bv8>, ghost w: seq<State>)
      requires t.Ready() && Holds(w)
      requires input.Length == 16 && output.Length == 16
      requires output != t.FSb && output != t.RSb
      modifies output
      ensures BlockState(output[..]) == Cipher(old(BlockState(input[..])), w)
    {
      hide Tables.Ready, KeyAt, AfterRounds, AddRoundKey, MixColumns, ShiftRows, SubBytes, StateOf, BlockState;
      ghost var block := BlockState(input[..]);
      var x0, x1, x2, x3 := LoadState(input);
      x0, x1, x2, x3 := ForwardRounds(t, x0, x1, x2, x3, block, w);
      x0, x1, x2, x3 := LastForwardRound(t, nr, x0, x1, x2, x3);
      StoreState(output, x0, x1, x2, x3);
    }

    method LastForwardRound(t: Tables, r: nat, y0: bv32, y1: bv32, y2: bv32, y3: bv32)
      returns (x0: bv32, x1: bv32, x2: bv32, x3: bv32)
      requires t.Ready() && Shaped() && r < 17
      ensures StateOf(x0, x1, x2, x3) == AddRoundKey(ShiftRows(SubBytes(StateOf(y0, y1, y2, y3))), KeyAt(r))
    {
      hide Byte0, Byte1, Byte2, Byte3, SBox, AddColumn, Value;
      ghost var f := (b: bv8) => SBox(b);
      x0 := FinalLine(t.FSb, f, buf[4 * r], y0, y1, y2, y3);
      x1 := FinalLine(t.FSb, f, buf[4 * r + 1], y1, y2, y3, y0);
      x2 := FinalLine(t.FSb, f, buf[4 * r + 2], y2, y3, y0, y1);
      x3 := FinalLine(t.FSb, f, buf[4 * r + 3], y3, y0, y1, y2);
    }

    method LastReverseRound(t: Tables, r: nat, y0: bv32, y1: bv32, y2: bv32, y3: bv32)
      returns (x0: bv32, x1: bv32, x2: bv32, x3: bv32)
      requires t.Ready() && Shaped() && r < 17
      ensures StateOf(x0, x1, x2, x3) == AddRoundKey(InvShiftRows(InvSubBytes(StateOf(y0, y1, y2, y3))), KeyAt(r))
    {
      hide Byte0, Byte1, Byte2, Byte3, InvSBox, AddColumn, Value;
      ghost var f := (b: bv8) => InvSBox(b);
      x0 := FinalLine(t.RSb, f, buf[4 * r], y0, y3, y2, y1);
      x1 := FinalLine(t.RSb, f, buf[4 * r + 1], y1, y0, y3, y2);
      x2 := FinalLine(t.RSb, f, buf[4 * r + 2], y2, y1, y0, y3);
      x3 := FinalLine(t.RSb, f, buf[4 * r + 3], y3, y2, y1, y0);
    }

    /** The Nr - 1 full rounds, two per turn of the loop and one after it. */
    method ReverseRounds(t: Tables, a0: bv32, a1: bv32, a2: bv32, a3: bv32, ghost block: State, ghost dw: seq<State>)
      returns (x0: bv32, x1: bv32, x2: bv32, x3: bv32)
      requires t.Ready() && Holds(dw)
      requires StateOf(a0, a1, a2, a3) == AddRoundKey(block, dw[0])
      ensures StateOf(x0, x1, x2, x3) == AfterEqInvRounds(block, dw, nr - 1)
    {
      hide Tables.Ready, AddRoundKey, InvMixColumns, InvShiftRows, InvSubBytes, StateOf, KeyAt;
      x0, x1, x2, x3 := a0, a1, a2, a3;
      var i := nr / 2 - 1;
      var r := 1;
      while i > 0
        invariant i >= 0 && r == nr - 1 - 2 * i
        invariant StateOf(x0, x1, x2, x3) == AfterEqInvRounds(block, dw, r - 1)
      {
        var y0, y1, y2, y3 := ReverseRound(t, r, x0, x1, x2, x3);
        x0, x1, x2, x3 := ReverseRound(t, r + 1, y0, y1, y2, y3);
        r := r + 2;
        i := i - 1;
      }
      x0, x1, x2, x3 := ReverseRound(t, r, x0, x1, x2, x3);
    }

    /** mbedtls_aes_decrypt; input and output may be the same buffer. */
    method Decrypt(t: Tables, input: array<bv8>, output: array<bv8>, ghost dw: seq<State>)
      requires t.Ready() && Holds(dw)
      requires input.Length == 16 && output.Length == 16
      requires output != t.FSb && output != t.RSb
      modifies output
      ensures BlockState(output[..]) == EqInvCipher(old(BlockState(input[..])), dw)
    {
      hide Tables.Ready, KeyAt, AfterEqInvRounds, AddRoundKey, InvMixColumns, InvShiftRows, InvSubBytes, StateOf,
        BlockState;
      ghost var block := BlockState(input[..]);
      var x0, x1, x2, x3 := LoadState(input);
      x0, x1, x2, x3 := ReverseRounds(t, x0, x1, x2, x3, block, dw);
      x0, x1, x2, x3 := LastReverseRound(t, nr, x0, x1, x2, x3);
      StoreState(output, x0, x1, x2, x3);
    }

    // ---------- key schedules ----------

    /** The first n key words stand in the buffer. */
    ghost predicate Expanded(key: seq<Column>, n: nat)
      requires |key| > 0
      reads buf
    {
      Shaped() && n <= 68 && forall k :: 0 <= k < n ==> ColumnOf(buf[k]) == KeyWord(key, k)
    }

    /** RK[n + q] := RK[n + q - Nk] ^ RK[n + q - 1], the plain step of the expansion. */
    method PlainWord(ghost key: seq<Column>, n: nat, nk: nat)
      requires |key| == nk && 4 <= nk <= n < 68 && Expanded(key, n)
      requires n % nk != 0 && !(nk > 6 && n % nk == 4)
      modifies buf
      ensures Expanded(key, n + 1)
    {
      hide ColumnOf, XorWord, AddColumn, SubColumn;
      XorWordColumn(buf[n - nk], buf[n - 1]);
      buf[n] := XorWord(buf[n - nk], buf[n - 1]);
    }

    /** The step at a multiple of Nk: rotated, substituted, and the round constant added. */
    method RotatedWord(t: Tables, ghost key: seq<Column>, n: nat, nk: nat, i: nat)
      requires t.Ready() && t.RCON as object != buf && i < 10
      requires |key| == nk && nk in {4, 6, 8} && n < 68 && Expanded(key, n) && n == nk * (i + 1)
      modifies buf
      ensures Expanded(key, n + 1)
    {
      hide Tables.Ready, ColumnOf, XorWord, AddColumn, SubColumn, RotWord, AddFirst, Pow2;
      var g := SubRotRcon(t, buf[n - 1], i);
      XorWordColumn(buf[n - nk], g);
      MultipleOf(n, nk, i);
      buf[n] := XorWord(buf[n - nk], g);
    }

    /** The extra substitution of 256-bit keys at words 4 mod 8. */
    method SubstitutedWord(t: Tables, ghost key: seq<Column>, n: nat)
      requires t.Ready()
      requires |key| == 8 && 8 <= n < 68 && n % 8 == 4 && Expanded(key, n)
      modifies buf
      ensures Expanded(key, n + 1)
    {
      hide Tables.Ready, ColumnOf, XorWord, AddColumn, SubColumn;
      var g := SubWord(t, buf[n - 1]);
      XorWordColumn(buf[n - 8], g);
      buf[n] := XorWord(buf[n - 8], g);
    }

    method Expand128(t: Tables, ghost key: seq<Column>)
      requires t.Ready() && t.RCON != buf && |key| == 4 && Expanded(key, 4)
      modifies buf
      ensures Expanded(key, 44)
    {
      hide Tables.Ready, Expanded, KeyWord;
      for i := 0 to 10
        invariant t.Ready() && Expanded(key, 4 * i + 4)
      {
        RotatedWord(t, key, 4 * i + 4, 4, i);
        PlainWord(key, 4 * i + 5, 4);
        PlainWord(key, 4 * i + 6, 4);
        PlainWord(key, 4 * i + 7, 4);
      }
    }

    method Expand192(t: Tables, ghost key: seq<Column>)
      requires t.Ready() && t.RCON != buf && |key| == 6 && Expanded(key, 6)
      modifies buf
      ensures Expanded(key, 54)
    {
      hide Tables.Ready, Expanded, KeyWord;
      for i := 0 to 8
        invariant t.Ready() && Expanded(key, 6 * i + 6)
      {
        RotatedWord(t, key, 6 * i + 6, 6, i);
        PlainWord(key, 6 * i + 7, 6);
        PlainWord(key, 6 * i + 8, 6);
        PlainWord(key, 6 * i + 9, 6);
        PlainWord(key, 6 * i + 10, 6);
        PlainWord(key, 6 * i + 11, 6);
      }
    }

    method Expand256(t: Tables, ghost key: seq<Column>)
      requires t.Ready() && t.RCON != buf && |key| == 8 && Expanded(key, 8)
      modifies buf
      ensures Expanded(key, 64)
    {
      hide Tables.Ready, Expanded, KeyWord;
      for i := 0 to 7
        invariant t.Ready() && Expanded(key, 8 * i + 8)
      {
        RotatedWord(t, key, 8 * i + 8, 8, i);
        PlainWord(key, 8 * i + 9, 8);
        PlainWord(key, 8 * i + 10, 8);
        PlainWord(key, 8 * i + 11, 8);
        SubstitutedWord(t, key, 8 * i + 12);
        PlainWord(key, 8 * i + 13, 8);
        PlainWord(key, 8 * i + 14, 8);
        PlainWord(key, 8 * i + 15, 8);
      }
    }

    lemma ExpandedHolds(key: seq<Column>, n: nat)
      requires |key| in {4, 6, 8} && nr == |key| + 6
      requires Expanded(key, n) && n >= 4 * (nr + 1)
      ensures Holds(KeyExpansion(key))
    {
      hide KeyWord, ColumnOf;
    }

    /** mbedtls_aes_setkey_enc. */
    method SetkeyEnc(t: Tables, key: array<bv8>, keybits: nat) returns (ret: int)
      requires Shaped() && t.Valid() && buf != t.RCON && key != t.FSb && key != t.RSb
      requires keybits in {128, 192, 256} ==> 8 * key.Length >= keybits
      modifies this, buf, t`initDone, t.FSb, t.RSb, t.FT, t.RT, t.RCON
      ensures t.Ready() && t.initDone
      ensures ret == if keybits in {128, 192, 256} then 0 else ERR_AES_INVALID_KEY_LENGTH
      ensures ret == 0 ==> nr == keybits / 32 + 6 && Holds(KeyExpansion(KeyColumns(key[..], keybits / 32)))
      ensures ret != 0 ==> nr == old(nr) && buf[..] == old(buf[..])
    {
      hide Tables.Ready, Expanded, KeyExpansion, Holds, KeyWord;
      if !t.initDone {
        t.Generate();
        t.initDone := true;
      }
      if keybits == 128 {
        nr := 10;
      } else if keybits == 192 {
        nr := 12;
      } else if keybits == 256 {
        nr := 14;
      } else {
        return ERR_AES_INVALID_KEY_LENGTH;
      }
      ghost var c := KeyColumns(key[..], keybits / 32);
      LoadKey(key, keybits / 32);
      if nr == 10 {
        Expand128(t, c);
        ExpandedHolds(c, 44);
      } else if nr == 12 {
        Expand192(t, c);
        ExpandedHolds(c, 54);
      } else {
        Expand256(t, c);
        ExpandedHolds(c, 64);
      }
      ret := 0;
    }

    /** mbedtls_aes_setkey_dec: the encryption schedule backwards, its middle keys through InvMixColumns. */
    method SetkeyDec(t: Tables, key: array<bv8>, keybits: nat) returns (ret: int)
      requires Shaped() && t.Valid() && buf != t.RCON && key != t.FSb && key != t.RSb
      requires keybits in {128, 192, 256} ==> 8 * key.Length >= keybits
      modifies this, buf, t`initDone, t.FSb, t.RSb, t.FT, t.RT, t.RCON
      ensures t.Ready() && t.initDone
      ensures ret == if keybits in {128, 192, 256} then 0 else ERR_AES_INVALID_KEY_LENGTH
      ensures ret == 0 ==> nr == keybits / 32 + 6
      ensures ret == 0 ==> Holds(DecryptionKeys(KeyExpansion(KeyColumns(key[..], keybits / 32))))
      ensures ret != 0 ==> nr == old(nr) && buf[..] == old(buf[..])
    {
      hide Tables.Ready, KeyExpansion, DecryptionKeys, Holds;
      var cty := new AesContext();
      ret := cty.SetkeyEnc(t, key, keybits);
      if ret != 0 {
        return;
      }
      nr := cty.nr;
      InvertKeys(t, cty, KeyExpansion(KeyColumns(key[..], keybits / 32)));
    }

    /** The copying loop of mbedtls_aes_setkey_dec. */
    method InvertKeys(t: Tables, cty: AesContext, ghost w: seq<State>)
      requires t.Ready() && buf != t.RCON && buf != cty.buf
      requires Shaped() && cty.Holds(w) && nr == cty.nr
      modifies buf
      ensures Holds(DecryptionKeys(w))
    {
      hide Tables.Ready, KeyAt, InvMixColumns;
      ghost var dw := DecryptionKeys(w);
      forall r | 0 <= r < |w|
        ensures |dw| == |w| && dw[r] == if r == 0 || r == nr then w[nr - r] else InvMixColumns(w[nr - r])
      {
        DecryptionKeyAt(w, r);
      }
      hide DecryptionKeys;
      CopyKey(cty, nr, 0);
      var rk, i := 1, nr - 1;
      while i > 0
        invariant 0 <= i < nr && rk == nr - i
        invariant forall r :: 0 <= r < rk ==> KeyAt(r) == dw[r]
      {
        InvertKey(t, cty, i, rk);
        rk, i := rk + 1, i - 1;
      }
      CopyKey(cty, 0, rk);
    }

    method CopyKey(from: AesContext, sk: nat, rk: nat)
      requires Shaped() && from.Shaped() && buf != from.buf && sk < 17 && rk < 17
      modifies buf
      ensures KeyAt(rk) == from.KeyAt(sk)
      ensures forall r :: 0 <= r < 17 && r != rk ==> KeyAt(r) == old(KeyAt(r))
    {
      hide ColumnOf;
      StoreKey(rk, from.buf[4 * sk], from.buf[4 * sk + 1], from.buf[4 * sk + 2], from.buf[4 * sk + 3]);
    }

    method InvertKey(t: Tables, from: AesContext, sk: nat, rk: nat)
      requires t.Ready() && buf != t.RCON
      requires Shaped() && from.Shaped() && buf != from.buf && sk < 17 && rk < 17
      modifies buf
      ensures KeyAt(rk) == InvMixColumns(from.KeyAt(sk))
      ensures forall r :: 0 <= r < 17 && r != rk ==> KeyAt(r) == old(KeyAt(r))
    {
      hide Tables.Ready, ColumnOf, InvMixColumn;
      var a := InvertWord(t, from.buf[4 * sk]);
      var b := InvertWord(t, from.buf[4 * sk + 1]);
      var c := InvertWord(t, from.buf[4 * sk + 2]);
      var d := InvertWord(t, from.buf[4 * sk + 3]);
      StoreKey(rk, a, b, c, d);
    }

    method StoreKey(rk: nat, a: bv32, b: bv32, c: bv32, d: bv32)
      requires Shaped() && rk < 17
      modifies buf
      ensures KeyAt(rk) == StateOf(a, b, c, d)
      ensures forall r :: 0 <= r < 17 && r != rk ==> KeyAt(r) == old(KeyAt(r))
    {
      hide ColumnOf;
      buf[4 * rk], buf[4 * rk + 1], buf[4 * rk + 2], buf[4 * rk + 3] := a, b, c, d;
    }

    method LoadKey(key: array<bv8>, nk: nat)
      requires Shaped() && 0 < nk <= 8 && key.Length >= 4 * nk
      modifies buf
      ensures Expanded(KeyColumns(key[..], nk), nk)
    {
      hide ColumnOf;
      for i := 0 to nk
        invariant forall k :: 0 <= k < i ==> ColumnOf(buf[k]) == ColumnAt(key[..], k)
      {
        var w := LoadWord(key, i);
        buf[i] := w;
      }
    }
  }

  /** RT on FSb: the reverse tables read through the forward S-box multiply by the inverse matrix. */
  method InvertWord(t: Tables, w: bv32) returns (g: bv32)
    requires t.Ready()
    ensures ColumnOf(g) == InvMixColumn(ColumnOf(w))
  {
    hide Byte0, Byte1, Byte2, Byte3, SBox, InvSBox, InvMixTerm, XorWord, InvMixColumn, Value, SumColumns;
    var c := ColumnOf(w);
    var s0, s1, s2, s3 := t.FSb[Value(c.b0)], t.FSb[Value(c.b1)], t.FSb[Value(c.b2)], t.FSb[Value(c.b3)];
    var t0, t1, t2, t3 := t.RT[0, Value(s0)], t.RT[1, Value(s1)], t.RT[2, Value(s2)], t.RT[3, Value(s3)];
    g := XorWord(XorWord(t0, t1), XorWord(t2, t3));
    XorFour(t0, t1, t2, t3);
    SBoxInverts(c.b0);
    SBoxInverts(c.b1);
    SBoxInverts(c.b2);
    SBoxInverts(c.b3);
    MixTermsSum(c);
  }

  lemma XorFour(a: bv32, b: bv32, c: bv32, d: bv32)
    ensures ColumnOf(XorWord(XorWord(a, b), XorWord(c, d)))
         == SumColumns(ColumnOf(a), ColumnOf(b), ColumnOf(c), ColumnOf(d))
  {
    hide ColumnOf, XorWord, Add;
    XorWordColumn(XorWord(a, b), XorWord(c, d));
    XorWordColumn(a, b);
    XorWordColumn(c, d);
  }

  lemma MultipleOf(n: nat, nk: nat, i: nat)
    requires nk in {4, 6, 8} && n == nk * (i + 1)
    ensures n % nk == 0 && n / nk - 1 == i
  {
    if nk == 4 {
    } else if nk == 6 {
    } else {
    }
  }

  method SubWord(t: Tables, w: bv32) returns (g: bv32)
    requires t.Ready()
    ensures ColumnOf(g) == SubColumn(ColumnOf(w))
  {
    hide Byte0, Byte1, Byte2, Byte3, JoinBytes, SBox, Value;
    g := JoinBytes(t.FSb[Value(Byte0(w))], t.FSb[Value(Byte1(w))], t.FSb[Value(Byte2(w))], t.FSb[Value(Byte3(w))]);
    JoinColumn(t.FSb[Value(Byte0(w))], t.FSb[Value(Byte1(w))], t.FSb[Value(Byte2(w))], t.FSb[Value(Byte3(w))]);
  }

  method SubRotRcon(t: Tables, w: bv32, i: nat) returns (g: bv32)
    requires t.Ready() && i < 10
    ensures ColumnOf(g) == AddFirst(SubColumn(RotWord(ColumnOf(w))), Pow2(i))
  {
    hide Byte0, Byte1, Byte2, Byte3, JoinBytes, SBox, Value, XorWord, Add, Pow2;
    var s := JoinBytes(t.FSb[Value(Byte1(w))], t.FSb[Value(Byte2(w))], t.FSb[Value(Byte3(w))], t.FSb[Value(Byte0(w))]);
    JoinColumn(t.FSb[Value(Byte1(w))], t.FSb[Value(Byte2(w))], t.FSb[Value(Byte3(w))], t.FSb[Value(Byte0(w))]);
    g := XorWord(s, t.RCON[i]);
    XorWordColumn(s, t.RCON[i]);
    AddZero(SBox(Byte2(w)));
    AddZero(SBox(Byte3(w)));
    AddZero(SBox(Byte0(w)));
  }

  method StoreState(output: array<bv8>, x0: bv32, x1: bv32, x2: bv32, x3: bv32)
    requires output.Length == 16
    modifies output
    ensures BlockState(output[..]) == StateOf(x0, x1, x2, x3)
  {
    hide ColumnOf;
    StoreWord(x0, output, 0);
    StoreWord(x1, output, 1);
    StoreWord(x2, output, 2);
    StoreWord(x3, output, 3);
  }

  /**
    The four entry points in a row: whatever the key of 128, 192 or 256 bits and the
    block, decryption under the setkey_dec schedule returns the block that
    encryption under the setkey_enc schedule was given.
   */
  method EncryptThenDecrypt(t: Tables, key: array<bv8>, keybits: nat, block: array<bv8>)
    requires t.Valid() && keybits in {128, 192, 256} && 8 * key.Length >= keybits && block.Length == 16
    requires key != t.FSb && key != t.RSb && block != t.FSb && block != t.RSb
    modifies block, t`initDone, t.FSb, t.RSb, t.FT, t.RT, t.RCON
    ensures block[..] == old(block[..])
  {
    hide Tables.Ready, KeyExpansion, DecryptionKeys, Cipher, EqInvCipher, AesContext.Holds, BlockState;
    ghost var w := KeyExpansion(KeyColumns(key[..], keybits / 32));
    var enc := new AesContext();
    var dec := new AesContext();
    var ok := enc.SetkeyEnc(t, key, keybits);
    ok := dec.SetkeyDec(t, key, keybits);
    enc.Encrypt(t, block, block, w);
    dec.Decrypt(t, block, block, DecryptionKeys(w));
    EqInvCipherInverts(old(BlockState(block[..])), w);
    BlockStateInjective(block[..], old(block[..]));
  }

  lemma BlockStateInjective(a: seq<bv8>, b: seq<bv8>)
    requires |a| == |b| == 16 && BlockState(a) == BlockState(b)
    ensures a == b
  {
  }
}
