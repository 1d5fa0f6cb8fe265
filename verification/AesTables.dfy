/**
  The tables of external_libs/mbedtls/library/aes.c and their generator: each entry
  is proved to be the FIPS 197 value it stands for.
 */
module AesTables {
  import opened Bytes
  import opened Words
  import opened Gf256
  import opened GfPowers
  import opened Fips197

  // ---------- little-endian words as columns ----------

  function Byte0(w: bv32): bv8 { (w & 0xFF) as bv8 }

  function Byte1(w: bv32): bv8 { ((w >> 8) & 0xFF) as bv8 }

  function Byte2(w: bv32): bv8 { ((w >> 16) & 0xFF) as bv8 }

  function Byte3(w: bv32): bv8 { ((w >> 24) & 0xFF) as bv8 }

  function ColumnOf(w: bv32): Column {
    Column(Byte0(w), Byte1(w), Byte2(w), Byte3(w))
  }

  /** The generator and the rounds join bytes with exclusive or. */
  function JoinBytes(b0: bv8, b1: bv8, b2: bv8, b3: bv8): bv32 {
    (b0 as bv32) ^ (b1 as bv32 << 8) ^ (b2 as bv32 << 16) ^ (b3 as bv32 << 24)
  }

  function RotateWord8(w: bv32): bv32 {
    (w << 8) | (w >> 24)
  }

  function Xor5(k: bv32, a: bv32, b: bv32, c: bv32, d: bv32): bv32 {
    XorWord(XorWord(XorWord(XorWord(k, a), b), c), d)
  }

  lemma PackColumn(b0: bv8, b1: bv8, b2: bv8, b3: bv8)
    ensures ColumnOf(WordLE(b0, b1, b2, b3)) == Column(b0, b1, b2, b3)
  {
  }

  lemma JoinColumn(b0: bv8, b1: bv8, b2: bv8, b3: bv8)
    ensures ColumnOf(JoinBytes(b0, b1, b2, b3)) == Column(b0, b1, b2, b3)
  {
  }

  lemma RotateColumn(w: bv32)
    ensures ColumnOf(RotateWord8(w)) == Column(Byte3(w), Byte0(w), Byte1(w), Byte2(w))
  {
  }

  lemma XorColumn(v: bv32, w: bv32)
    ensures ColumnOf(v ^ w) == AddColumn(ColumnOf(v), ColumnOf(w))
  {
  }

  lemma XorWordColumn(v: bv32, w: bv32)
    ensures ColumnOf(XorWord(v, w)) == AddColumn(ColumnOf(v), ColumnOf(w))
  {
    hide ColumnOf, AddColumn;
    XorColumn(v, w);
  }

  lemma FiveTerms(k: bv8, a: bv8, b: bv8, c: bv8, d: bv8)
    ensures Add(Add(Add(Add(k, a), b), c), d) == Add(Sum4(a, b, c, d), k)
  {
    hide Add;
    AddLaws(Add(Add(k, a), b), c, d);
    AddLaws(Add(k, a), b, Add(c, d));
    AddLaws(k, a, Add(b, Add(c, d)));
    AddLaws(a, b, Add(c, d));
    AddLaws(k, Sum4(a, b, c, d), k);
  }

  function SumColumns(a: Column, b: Column, c: Column, d: Column): Column {
    Column(Sum4(a.b0, b.b0, c.b0, d.b0), Sum4(a.b1, b.b1, c.b1, d.b1),
           Sum4(a.b2, b.b2, c.b2, d.b2), Sum4(a.b3, b.b3, c.b3, d.b3))
  }

  lemma Xor5Column(k: bv32, a: bv32, b: bv32, c: bv32, d: bv32)
    ensures ColumnOf(Xor5(k, a, b, c, d))
         == AddColumn(SumColumns(ColumnOf(a), ColumnOf(b), ColumnOf(c), ColumnOf(d)), ColumnOf(k))
  {
    hide ColumnOf, XorWord, Add, Sum4;
    XorWordColumn(k, a);
    XorWordColumn(XorWord(k, a), b);
    XorWordColumn(XorWord(XorWord(k, a), b), c);
    XorWordColumn(XorWord(XorWord(XorWord(k, a), b), c), d);
    var p, q, r, s, t := ColumnOf(k), ColumnOf(a), ColumnOf(b), ColumnOf(c), ColumnOf(d);
    FiveTerms(p.b0, q.b0, r.b0, s.b0, t.b0);
    FiveTerms(p.b1, q.b1, r.b1, s.b1, t.b1);
    FiveTerms(p.b2, q.b2, r.b2, s.b2, t.b2);
    FiveTerms(p.b3, q.b3, r.b3, s.b3, t.b3);
  }

  // ---------- the meaning of the tables ----------

  /** Column j of the MixColumns matrix times s: what row j of the forward table holds at an S-box output s. */
  function MixTerm(j: int, s: bv8): Column {
    if j == 0 then Column(XTime(s), s, s, Times3(s))
    else if j == 1 then Column(Times3(s), XTime(s), s, s)
    else if j == 2 then Column(s, Times3(s), XTime(s), s)
    else Column(s, s, Times3(s), XTime(s))
  }

  function InvMixTerm(j: int, s: bv8): Column {
    var e, n, d, b := Mul(0x0e, s), Mul(0x09, s), Mul(0x0d, s), Mul(0x0b, s);
    if j == 0 then Column(e, n, d, b)
    else if j == 1 then Column(b, e, n, d)
    else if j == 2 then Column(d, b, e, n)
    else Column(n, d, b, e)
  }

  lemma MixTermsSum(c: Column)
    ensures SumColumns(MixTerm(0, c.b0), MixTerm(1, c.b1), MixTerm(2, c.b2), MixTerm(3, c.b3)) == MixColumn(c)
    ensures SumColumns(InvMixTerm(0, c.b0), InvMixTerm(1, c.b1), InvMixTerm(2, c.b2), InvMixTerm(3, c.b3))
      == InvMixColumn(c)
  {
    hide Sum4, XTime, Times3, Mul;
  }

  // ---------- the static tables ----------

  /**
    The static tables of the engine. FT and RT have one row for each of FT0..FT3
    and RT0..RT3; `initDone` is aes_init_done.
   */
  class Tables {
    const FSb: array<bv8>
    const RSb: array<bv8>
    const FT: array2<bv32>
    const RT: array2<bv32>
    const RCON: array<bv32>
    var initDone: bool

    ghost predicate Shaped() {
      && FSb.Length == 256 && RSb.Length == 256 && FSb != RSb
      && FT.Length0 == 4 && FT.Length1 == 256
      && RT.Length0 == 4 && RT.Length1 == 256 && FT != RT
      && RCON.Length == 10
      && {FSb as object, RSb as object, RCON as object} !! {FT as object, RT as object}
      && RCON as object != FSb && RCON as object != RSb
    }

    ghost predicate SBoxesReady()
      requires Shaped()
      reads FSb, RSb
    {
      && (forall b: bv8 :: FSb[Value(b)] == SBox(b))
      && (forall b: bv8 :: RSb[Value(b)] == InvSBox(b))
    }

    ghost predicate RoundTablesReady()
      requires Shaped()
      reads FT, RT
    {
      && (forall j, b: bv8 :: 0 <= j < 4 ==> ColumnOf(FT[j, Value(b)]) == MixTerm(j, SBox(b)))
      && (forall j, b: bv8 :: 0 <= j < 4 ==> ColumnOf(RT[j, Value(b)]) == InvMixTerm(j, InvSBox(b)))
    }

    ghost predicate RconReady()
      requires Shaped()
      reads RCON
    {
      forall i :: 0 <= i < 10 ==> ColumnOf(RCON[i]) == Column(Pow2(i), 0, 0, 0)
    }

    ghost predicate Ready()
      reads FSb, RSb, FT, RT, RCON
    {
      Shaped() && SBoxesReady() && RoundTablesReady() && RconReady()
    }

    ghost predicate Valid()
      reads this, FSb, RSb, FT, RT, RCON
    {
      Shaped() && (initDone ==> Ready())
    }

    constructor ()
      ensures Valid() && !initDone
      ensures fresh(FSb) && fresh(RSb) && fresh(FT) && fresh(RT) && fresh(RCON)
    {
      FSb := new bv8[256];
      RSb := new bv8[256];
      FT := new bv32[4, 256];
      RT := new bv32[4, 256];
      RCON := new bv32[10];
      initDone := false;
    }

    /** The pow and log tables over GF(2^8); log[1] ends as 255. */
    method GeneratePowers() returns (pow: array<bv8>, log: array<nat>)
      ensures pow.Length == 256 && forall k :: 0 <= k < 256 ==> pow[k] == Pow3(k)
      ensures log.Length == 256 && forall k :: 1 <= k <= 255 ==> log[Value(Pow3(k))] == k
      ensures fresh(pow) && fresh(log)
    {
      hide Pow3, Times3, Value;
      pow := new bv8[256];
      log := new nat[256];
      var x: bv8 := 1;
      PowZero();
      for i := 0 to 256
        invariant x == Pow3(i)
        invariant forall k :: 0 <= k < i ==> pow[k] == Pow3(k)
        invariant forall k :: 1 <= k < i ==> log[Value(Pow3(k))] == k
      {
        pow[i] := x;
        log[Value(x)] := i;
        forall k | 1 <= k < i
          ensures Value(Pow3(k)) != Value(x)
        {
          PowInjective(k, i);
          if Value(Pow3(k)) == Value(x) {
            ValueInjective(Pow3(k), x);
          }
        }
        PowStep(i);
        x := Times3(x);
      }
    }

    method GenerateRcon()
      requires Shaped()
      modifies RCON
      ensures RconReady()
    {
      hide XTime, ColumnOf;
      var x: bv8 := 1;
      for i := 0 to 10
        invariant x == Pow2(i)
        invariant forall k :: 0 <= k < i ==> ColumnOf(RCON[k]) == Column(Pow2(k), 0, 0, 0)
      {
        RCON[i] := WordLE(x, 0, 0, 0);
        PackColumn(x, 0, 0, 0);
        x := XTime(x);
      }
    }

    /** The forward and reverse S-boxes: inverses by logarithm, then four rotations. */
    method GenerateSBoxes(pow: array<bv8>, log: array<nat>)
      requires Shaped()
      requires pow.Length == 256 && forall k :: 0 <= k < 256 ==> pow[k] == Pow3(k)
      requires log.Length == 256 && forall k :: 1 <= k <= 255 ==> log[Value(Pow3(k))] == k
      requires {pow as object, log as object} !! {FSb as object, RSb as object}
      modifies FSb, RSb
      ensures SBoxesReady()
    {
      hide Pow3, RotateLeft, Affine, InvSBox, SBox, Value, Inverse;
      FSb[0x00] := 0x63;
      RSb[0x63] := 0x00;
      ZeroEntries();
      for i := 1 to 256
        invariant EntriesBelow(i)
      {
        var a := ByteOf(i);
        NonzeroIndex(a);
        ghost var k := PowSurjective(a);
        var x := pow[255 - log[i]];
        InverseIsPower(a, k);
        x := RotateAndAdd(x, a);
        PutEntry(a, x);
      }
      EntriesComplete();
    }

    ghost predicate EntriesBelow(n: int)
      requires Shaped()
      reads FSb, RSb
    {
      forall b: bv8 :: Value(b) < n ==> FSb[Value(b)] == SBox(b) && RSb[Value(SBox(b))] == b
    }

    /** Both boxes at one more byte; no entry for a byte below it is overwritten. */
    method PutEntry(a: bv8, x: bv8)
      requires Shaped() && EntriesBelow(Value(a)) && x == SBox(a)
      modifies FSb, RSb
      ensures EntriesBelow(Value(a) + 1)
    {
      hide SBox, Value;
      FSb[Value(a)] := x;
      RSb[Value(x)] := a;
      forall b: bv8
        ensures Value(SBox(a)) == Value(SBox(b)) || Value(a) == Value(b) ==> a == b
      {
        SameEntry(a, b);
      }
    }

    lemma EntriesComplete()
      requires Shaped() && EntriesBelow(256)
      ensures SBoxesReady()
    {
      hide SBox, InvSBox, Value;
      forall b: bv8
        ensures RSb[Value(b)] == InvSBox(b)
      {
        SBoxInverts(b);
        assert RSb[Value(SBox(InvSBox(b)))] == InvSBox(b);
      }
    }

    /** FT0..FT3 and RT0..RT3: each row is the previous one with its words rotated by a byte. */
    method GenerateRoundTables(pow: array<bv8>, log: array<nat>)
      requires Shaped() && SBoxesReady()
      requires pow.Length == 256 && forall k :: 0 <= k < 256 ==> pow[k] == Pow3(k)
      requires log.Length == 256 && forall k :: 1 <= k <= 255 ==> log[Value(Pow3(k))] == k
      requires {pow as object, log as object} !! {FT as object, RT as object}
      modifies FT, RT
      ensures RoundTablesReady()
    {
      hide Pow3, SBoxesReady, RoundTablesReady, Value;
      for i := 0 to 256
        invariant MixEntries(i) && InvMixEntries(i)
      {
        PutForward(i);
        PutReverse(pow, log, i);
      }
      AllEntries();
    }

    method PutForward(i: nat)
      requires Shaped() && i < 256 && MixEntries(i)
      modifies FT
      ensures MixEntries(i + 1)
    {
      hide MixTerm, ColumnOf;
      var t0, t1, t2, t3 := ForwardEntries(FSb[i]);
      StoreEntries(FT, i, t0, t1, t2, t3);
    }

    method PutReverse(pow: array<bv8>, log: array<nat>, i: nat)
      requires Shaped() && i < 256 && InvMixEntries(i)
      requires pow.Length == 256 && forall k :: 0 <= k < 256 ==> pow[k] == Pow3(k)
      requires log.Length == 256 && forall k :: 1 <= k <= 255 ==> log[Value(Pow3(k))] == k
      modifies RT
      ensures InvMixEntries(i + 1)
    {
      hide Pow3, InvMixTerm, ColumnOf, Value;
      var t0, t1, t2, t3 := ReverseEntries(pow, log, RSb[i]);
      StoreEntries(RT, i, t0, t1, t2, t3);
    }

    ghost predicate MixEntries(n: nat)
      requires Shaped() && n <= 256
      reads FSb, FT
    {
      forall j, k :: 0 <= j < 4 && 0 <= k < n ==> ColumnOf(FT[j, k]) == MixTerm(j, FSb[k])
    }

    ghost predicate InvMixEntries(n: nat)
      requires Shaped() && n <= 256
      reads RSb, RT
    {
      forall j, k :: 0 <= j < 4 && 0 <= k < n ==> ColumnOf(RT[j, k]) == InvMixTerm(j, RSb[k])
    }

    lemma AllEntries()
      requires Shaped() && SBoxesReady() && MixEntries(256) && InvMixEntries(256)
      ensures RoundTablesReady()
    {
      hide MixTerm, InvMixTerm, SBox, InvSBox, Value, ColumnOf;
    }

    /** aes_gen_tables. */
    method Generate()
      requires Shaped()
      modifies FSb, RSb, FT, RT, RCON
      ensures Ready()
    {
      hide SBoxesReady, RoundTablesReady, RconReady;
      var pow, log := GeneratePowers();
      GenerateRcon();
      GenerateSBoxes(pow, log);
      GenerateRoundTables(pow, log);
    }
  }

  method StoreEntries(table: array2<bv32>, i: nat, t0: bv32, t1: bv32, t2: bv32, t3: bv32)
    requires table.Length0 == 4 && i < table.Length1
    modifies table
    ensures table[0, i] == t0 && table[1, i] == t1 && table[2, i] == t2 && table[3, i] == t3
    ensures forall j, k :: 0 <= j < 4 && 0 <= k < table.Length1 && k != i ==> table[j, k] == old(table[j, k])
  {
    table[0, i] := t0;
    table[1, i] := t1;
    table[2, i] := t2;
    table[3, i] := t3;
  }

  method ForwardEntries(x: bv8) returns (t0: bv32, t1: bv32, t2: bv32, t3: bv32)
    ensures ColumnOf(t0) == MixTerm(0, x) && ColumnOf(t1) == MixTerm(1, x)
    ensures ColumnOf(t2) == MixTerm(2, x) && ColumnOf(t3) == MixTerm(3, x)
  {
    hide ColumnOf, XTime, Add, RotateWord8, JoinBytes;
    var y := XTime(x);
    var z := Add(x, y);
    t0 := JoinBytes(y, x, x, z);
    JoinColumn(y, x, x, z);
    t1, t2, t3 := RotatedWords(t0);
  }

  method ReverseEntries(pow: array<bv8>, log: array<nat>, x: bv8) returns (t0: bv32, t1: bv32, t2: bv32, t3: bv32)
    requires pow.Length == 256 && forall k :: 0 <= k < 256 ==> pow[k] == Pow3(k)
    requires log.Length == 256 && forall k :: 1 <= k <= 255 ==> log[Value(Pow3(k))] == k
    ensures ColumnOf(t0) == InvMixTerm(0, x) && ColumnOf(t1) == InvMixTerm(1, x)
    ensures ColumnOf(t2) == InvMixTerm(2, x) && ColumnOf(t3) == InvMixTerm(3, x)
  {
    hide ColumnOf, Mul, RotateWord8, JoinBytes, Pow3, Value;
    var e := TableProduct(pow, log, 0x0E, x);
    var n := TableProduct(pow, log, 0x09, x);
    var d := TableProduct(pow, log, 0x0D, x);
    var b := TableProduct(pow, log, 0x0B, x);
    t0 := JoinBytes(e, n, d, b);
    JoinColumn(e, n, d, b);
    t1, t2, t3 := RotatedWords(t0);
  }

  method RotatedWords(t0: bv32) returns (t1: bv32, t2: bv32, t3: bv32)
    ensures var c := ColumnOf(t0);
      && ColumnOf(t1) == Column(c.b3, c.b0, c.b1, c.b2)
      && ColumnOf(t2) == Column(c.b2, c.b3, c.b0, c.b1)
      && ColumnOf(t3) == Column(c.b1, c.b2, c.b3, c.b0)
  {
    hide RotateWord8, Byte0, Byte1, Byte2, Byte3;
    t1 := RotateWord8(t0);
    RotateColumn(t0);
    t2 := RotateWord8(t1);
    RotateColumn(t1);
    t3 := RotateWord8(t2);
    RotateColumn(t2);
  }

  /** The MUL macro: a product by adding logarithms mod 255, with zero on its own. */
  method TableProduct(pow: array<bv8>, log: array<nat>, x: bv8, y: bv8) returns (r: bv8)
    requires pow.Length == 256 && forall k :: 0 <= k < 256 ==> pow[k] == Pow3(k)
    requires log.Length == 256 && forall k :: 1 <= k <= 255 ==> log[Value(Pow3(k))] == k
    ensures r == Mul(x, y)
  {
    hide Mul, Pow3, Value;
    if x != 0 && y != 0 {
      ghost var i := PowSurjective(x);
      ghost var j := PowSurjective(y);
      r := pow[(log[Value(x)] + log[Value(y)]) % 255];
      PowAdd(i, j);
      Periods();
      Repeat(255, (i + j) / 255, (i + j) % 255);
    } else {
      r := 0;
      MulZero(x);
      MulZero(y);
    }
  }

  lemma ZeroEntries()
    ensures SBox(0) == 0x63 && Value(0x63) == 0x63 && Value(0) == 0
    ensures forall b: bv8 :: Value(b) < 1 ==> b == 0
  {
    hide Inverse;
    InverseUnique(0, 0, Inverse(0));
    AffineRotates(0);
    hide Affine;
    assert Affine(0) == 0x63;
  }

  lemma NonzeroIndex(a: bv8)
    ensures Value(a) > 0 ==> a != 0
  {
  }

  /** Equal S-box outputs, or equal indices, mean equal bytes. */
  lemma SameEntry(a: bv8, b: bv8)
    ensures Value(SBox(a)) == Value(SBox(b)) ==> a == b
    ensures Value(a) == Value(b) ==> a == b
  {
    hide SBox, InvSBox, Value;
    SBoxInverts(a);
    SBoxInverts(b);
    if Value(SBox(a)) == Value(SBox(b)) {
      ValueInjective(SBox(a), SBox(b));
    }
    if Value(a) == Value(b) {
      ValueInjective(a, b);
    }
  }

  /** Four rotate-and-add steps turn the inverse of `a` into its S-box value. */
  method RotateAndAdd(inverse: bv8, ghost a: bv8) returns (x: bv8)
    requires inverse == Inverse(a)
    ensures x == SBox(a)
  {
    hide RotateLeft, Inverse;
    x := inverse;
    var y := x;
    y := RotateLeft(y); x := XorByte(x, y);
    y := RotateLeft(y); x := XorByte(x, y);
    y := RotateLeft(y); x := XorByte(x, y);
    y := RotateLeft(y); x := XorByte(x, XorByte(y, 0x63));
    FourRotations(a);
  }

  lemma PowStep(i: nat)
    ensures Pow3(i + 1) == Times3(Pow3(i))
  {
  }

  lemma InverseIsPower(a: bv8, k: nat)
    requires 1 <= k <= 255 && Pow3(k) == a
    ensures Pow3(255 - k) == Inverse(a)
  {
    hide Pow3;
    InverseByPowers(k);
    InverseUnique(a, Pow3(255 - k), Inverse(a));
  }

  /** The generator's four rotate-and-add steps compute the S-box. */
  lemma FourRotations(a: bv8)
    ensures var b := Inverse(a);
      var r1 := RotateLeft(b); var r2 := RotateLeft(r1); var r3 := RotateLeft(r2); var r4 := RotateLeft(r3);
      XorByte(XorByte(XorByte(XorByte(b, r1), r2), r3), XorByte(r4, 0x63)) == SBox(a)
  {
    hide RotateLeft, Inverse, Affine;
    AffineRotates(Inverse(a));
  }
}
