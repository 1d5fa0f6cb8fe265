/**
  The Blowfish block and its modes written out: the round function by bytes, the network by its
  states, and each mode by the index of its blocks or bytes.
 */
module BlowfishLaws {
  import opened Bytes
  import opened Words
  import opened BlowfishModes
  import opened Blowfish

  // ---------- the block ----------

  /** ((S0[a] + S1[b]) xor S2[c]) + S3[d] for the bytes a, b, c, d of the word, the first one leading. */
  lemma RoundFunctionOfBytes(s: Boxes, a: bv8, b: bv8, c: bv8, d: bv8)
    ensures RoundFunction(s)(WordBE(a, b, c, d))
      == Plus(XorWord(Plus(s[0][Value(a)], s[1][Value(b)]), s[2][Value(c)]), s[3][Value(d)])
  {
    hide ByteAt, WordBE, BytesBE, Plus, XorWord, Value;
    ByteAtIs(WordBE(a, b, c, d));
    BytesOfWordBE(a, b, c, d);
  }

  lemma ByteAtIs(w: bv32)
    ensures ByteAt(w, 3) == Value(BytesBE(w)[0]) && ByteAt(w, 2) == Value(BytesBE(w)[1])
    ensures ByteAt(w, 1) == Value(BytesBE(w)[2]) && ByteAt(w, 0) == Value(BytesBE(w)[3])
  {
    hide Value;
  }

  /** A block's first four bytes are its left half, and its last four the right, in either direction. */
  lemma HalvesOfBlock(b: Octets, x: Halves)
    ensures BytesBE(LoadHalves(b).l) == b[..4] && BytesBE(LoadHalves(b).r) == b[4..]
    ensures StoreHalves(x)[..4] == BytesBE(x.l) && StoreHalves(x)[4..] == BytesBE(x.r)
  {
    BytesOfWordBE(b[0], b[1], b[2], b[3]);
    BytesOfWordBE(b[4], b[5], b[6], b[7]);
    hide WordBE, BytesBE;
  }

  /** The keyed left half moves right, and its round value onto the right half moves left. */
  ghost predicate Step(f: bv32 -> bv32, z: Halves, k: bv32, y: Halves) {
    y.r == z.l ^ k && y.l == f(z.l ^ k) ^ z.r
  }

  lemma RoundSteps(f: bv32 -> bv32, z: Halves, k: bv32)
    ensures Step(f, z, k, FeistelRound(f, z, k))
  {
  }

  ghost predicate Steps(f: bv32 -> bv32, x: Halves, p: seq<bv32>, z: seq<Halves>) {
    && 0 < |z| <= |p| + 1 && z[0] == x
    && forall i :: 0 <= i < |z| - 1 ==> Step(f, z[i], p[i], z[i + 1])
  }

  lemma {:induction false} RoundStates(f: bv32 -> bv32, x: Halves, p: seq<bv32>, n: nat) returns (z: seq<Halves>)
    requires n <= |p|
    ensures |z| == n + 1 && Steps(f, x, p, z) && z[n] == Rounds(f, x, p[..n])
  {
    hide Step, FeistelRound;
    if n == 0 {
      z := [x];
    } else {
      var before := RoundStates(f, x, p, n - 1);
      LastRound(f, x, p, n - 1);
      RoundSteps(f, before[n - 1], p[n - 1]);
      hide Rounds;
      z := before + [Rounds(f, x, p[..n])];
    }
  }

  /** The whole network: a state for each round, the halves crossed at the end and the last two keys added. */
  lemma NetworkStates(f: bv32 -> bv32, x: Halves, p: seq<bv32>) returns (z: seq<Halves>)
    requires |p| >= 2
    ensures var n := |p| - 2;
      && |z| == n + 1 && Steps(f, x, p, z)
      && Network(f, x, p).l == z[n].r ^ p[n + 1] && Network(f, x, p).r == z[n].l ^ p[n]
  {
    hide Steps, Rounds;
    z := RoundStates(f, x, p, |p| - 2);
  }

  // ---------- CBC ----------

  lemma XorOctetsAt(a: Octets, b: Octets, i: nat)
    requires i < 8
    ensures XorOctets(a, b)[i] == a[i] ^ b[i]
  {
  }

  /** The block before number i, the vector before the first. */
  function Before(iv: Octets, blocks: seq<Octets>, i: nat): Octets
    requires i <= |blocks|
  {
    if i == 0 then iv else blocks[i - 1]
  }

  /** c[i] = e(p[i] xor c[i - 1]), the vector standing before the first block; the last one is the next vector. */
  lemma {:induction false} CbcChains(e: Octets -> Octets, iv: Octets, data: seq<Octets>)
    ensures var (c, last) := Run(CbcEncrypt(e), iv, data);
      && |c| == |data| && last == Before(iv, c, |c|)
      && forall i :: 0 <= i < |c| ==> c[i] == e(XorOctets(data[i], Before(iv, c, i)))
  {
    if |data| > 0 {
      CbcChains(e, iv, data[..|data| - 1]);
    }
  }

  /** p[i] = d(c[i]) xor c[i - 1]. */
  predicate Unchained(d: Octets -> Octets, iv: Octets, c: seq<Octets>, p: seq<Octets>) {
    |p| == |c| && forall i :: 0 <= i < |p| ==> p[i] == XorOctets(d(c[i]), Before(iv, c, i))
  }

  lemma {:induction false} CbcUnchains(d: Octets -> Octets, iv: Octets, c: seq<Octets>)
    ensures var (p, last) := Run(CbcDecrypt(d), iv, c);
      Unchained(d, iv, c, p) && last == Before(iv, c, |c|)
  {
    hide Unchained, XorOctets;
    if |c| == 0 {
      NothingUnchained(d, iv);
    } else {
      var init, x := c[..|c| - 1], c[|c| - 1];
      CbcUnchains(d, iv, init);
      UnchainedMore(d, iv, init, Run(CbcDecrypt(d), iv, init).0, x);
      assert init + [x] == c;
    }
  }

  lemma NothingUnchained(d: Octets -> Octets, iv: Octets)
    ensures Unchained(d, iv, [], [])
  {
  }

  lemma UnchainedMore(d: Octets -> Octets, iv: Octets, c: seq<Octets>, p: seq<Octets>, x: Octets)
    requires Unchained(d, iv, c, p)
    ensures Unchained(d, iv, c + [x], p + [XorOctets(d(x), Before(iv, c, |c|))])
  {
    hide XorOctets;
  }

  // ---------- CTR ----------

  /** The counter m blocks later. */
  function Later(nonce: Octets, m: nat): (r: Octets) {
    if m == 0 then nonce else Successor(Later(nonce, m - 1))
  }

  /** It counts up by m, less the times it has wrapped around. */
  lemma {:induction false} LaterCounts(nonce: Octets, m: nat) returns (wraps: nat)
    ensures Number(Later(nonce, m)) + wraps * Radix(8) == Number(nonce) + m
    ensures Number(Later(nonce, m)) < Radix(8)
  {
    hide Number, Successor, Radix;
    NumberBound(Later(nonce, m));
    if m == 0 {
      wraps := 0;
    } else {
      wraps := LaterCounts(nonce, m - 1);
      SuccessorCounts(Later(nonce, m - 1));
      if Number(Later(nonce, m - 1)) + 1 == Radix(8) {
        wraps := wraps + 1;
      }
    }
  }

  /** Block j of the key stream, counted from where the current one begins: what is left of it, then counters. */
  function KeyBlock(e: Octets -> Octets, s: Counter, j: nat): Octets {
    if s.n == 0 then e(Later(s.nonce, j))
    else if j == 0 then s.stream
    else e(Later(s.nonce, j - 1))
  }

  /** Counters taken when the next byte is number p of those blocks. */
  function Used(s: Counter, p: nat): nat
    requires p >= s.n
  {
    if s.n == 0 then (p + 7) / 8 else (p - 1) / 8
  }

  /** Each byte xored with its byte of the key stream. */
  predicate Streamed(e: Octets -> Octets, s: Counter, data: seq<bv8>, c: seq<bv8>) {
    |c| == |data| && forall i :: 0 <= i < |c| ==> c[i] == XorByte(data[i], KeyBlock(e, s, (s.n + i) / 8)[(s.n + i) % 8])
  }

  lemma StreamedMore(e: Octets -> Octets, s: Counter, data: seq<bv8>, c: seq<bv8>, x: bv8, y: bv8)
    requires Streamed(e, s, data, c)
    requires var p := s.n + |data|; y == XorByte(x, KeyBlock(e, s, p / 8)[p % 8])
    ensures Streamed(e, s, data + [x], c + [y])
  {
    hide KeyBlock;
  }

  /** The state when byte p of the key stream is next. */
  predicate CounterAt(e: Octets -> Octets, s: Counter, p: nat, t: Counter)
    requires p >= s.n
  {
    && t.n == p % 8 && t.nonce == Later(s.nonce, Used(s, p))
    && (p % 8 != 0 ==> t.stream == KeyBlock(e, s, p / 8))
  }

  /** Byte i is combined with byte n + i of the key stream, and the state goes on from there. */
  lemma {:induction false} CtrByIndex(e: Octets -> Octets, s: Counter, data: seq<bv8>)
    ensures var (c, t) := Run(CtrCrypt(e), s, data);
      Streamed(e, s, data, c) && CounterAt(e, s, s.n + |data|, t)
  {
    hide Streamed, CounterAt, CtrCrypt, XorByte, KeyBlock;
    if |data| > 0 {
      var init, x := data[..|data| - 1], data[|data| - 1];
      CtrByIndex(e, s, init);
      var (c, t) := Run(CtrCrypt(e), s, init);
      CtrNext(e, s, t, s.n + |init|, x);
      StreamedMore(e, s, init, c, x, CtrCrypt(e)(t, x).0);
      assert init + [x] == data;
    } else {
      NothingStreamed(e, s);
    }
  }

  lemma NothingStreamed(e: Octets -> Octets, s: Counter)
    ensures Streamed(e, s, [], []) && CounterAt(e, s, s.n, s)
  {
  }

  lemma CtrNext(e: Octets -> Octets, s: Counter, t: Counter, p: nat, x: bv8)
    requires p >= s.n && CounterAt(e, s, p, t)
    ensures var (y, u) := CtrCrypt(e)(t, x);
      y == XorByte(x, KeyBlock(e, s, p / 8)[p % 8]) && CounterAt(e, s, p + 1, u)
  {
    hide Successor, XorByte, KeyBlock, Used, Later;
    EighthStep(p);
    LaterBlock(e, s, p);
    assert Refresh(e, t).stream == KeyBlock(e, s, p / 8);
    assert t.n == p % 8;
  }

  lemma LaterBlock(e: Octets -> Octets, s: Counter, p: nat)
    requires p >= s.n
    ensures p % 8 == 0 ==>
      && e(Later(s.nonce, Used(s, p))) == KeyBlock(e, s, p / 8)
      && Successor(Later(s.nonce, Used(s, p))) == Later(s.nonce, Used(s, p + 1))
    ensures p % 8 != 0 ==> Used(s, p + 1) == Used(s, p)
  {
    hide Successor;
  }

  lemma EighthStep(p: nat)
    ensures p % 8 < 7 ==> (p + 1) / 8 == p / 8 && (p + 1) % 8 == p % 8 + 1
    ensures p % 8 == 7 ==> (p + 1) / 8 == p / 8 + 1 && (p + 1) % 8 == 0
  {
  }

  // ---------- CFB64 ----------

  /** Block j of the key stream: what is left of the current one, and then the cipher of the 8 bytes before. */
  function FeedBlock(e: Octets -> Octets, s: Feedback, told: seq<bv8>, j: nat): Octets
    requires 8 * j <= |told|
  {
    if j > 0 then e(told[8 * (j - 1)..8 * j]) else if s.n > 0 then s.iv else e(s.iv)
  }

  /** The bytes the vector has taken up, and the vector's own before them. */
  function Told(s: Feedback, c: seq<bv8>): (told: seq<bv8>)
    ensures |told| == s.n + |c|
  {
    s.iv[..s.n] + c
  }

  /** The vector holds the cipher bytes of its block, with what is left of the key block behind them. */
  ghost predicate HoldsFeed(e: Octets -> Octets, s: Feedback, c: seq<bv8>, t: Feedback) {
    var told := Told(s, c);
    var j := |told| / 8;
    && t.n == |told| % 8
    && (|c| == 0 ==> t == s)
    && (t.n == 0 && |c| > 0 ==> t.iv == told[8 * (j - 1)..8 * j])
    && (t.n > 0 ==> t.iv == told[8 * j..] + FeedBlock(e, s, told, j)[t.n..])
  }

  /** Each byte xored with its byte of the key stream, which each 8 bytes of cipher text feed. */
  predicate Fed(e: Octets -> Octets, s: Feedback, data: seq<bv8>, c: seq<bv8>) {
    |c| == |data| && forall i :: 0 <= i < |c| ==>
      c[i] == XorByte(data[i], FeedBlock(e, s, Told(s, c), (s.n + i) / 8)[(s.n + i) % 8])
  }

  lemma FedMore(e: Octets -> Octets, s: Feedback, data: seq<bv8>, c: seq<bv8>, x: bv8, y: bv8)
    requires Fed(e, s, data, c)
    requires var p := s.n + |data|; y == XorByte(x, FeedBlock(e, s, Told(s, c), p / 8)[p % 8])
    ensures Fed(e, s, data + [x], c + [y])
  {
    hide FeedBlock, Told, XorByte;
    var c' := c + [y];
    forall i | 0 <= i < |c'|
      ensures c'[i] == XorByte((data + [x])[i], FeedBlock(e, s, Told(s, c'), (s.n + i) / 8)[(s.n + i) % 8])
    {
      FedAlike(e, s, c, y, (s.n + i) / 8);
    }
  }

  /** Byte i is combined with byte n + i of the key stream, and the vector goes on from there. */
  lemma {:induction false} CfbByIndex(e: Octets -> Octets, s: Feedback, data: seq<bv8>)
    ensures var (c, t) := Run(CfbEncrypt(e), s, data);
      Fed(e, s, data, c) && HoldsFeed(e, s, c, t)
  {
    hide Fed, HoldsFeed, XorByte, FeedBlock, Refill;
    if |data| == 0 {
      NothingFed(e, s);
    } else {
      var init, x := data[..|data| - 1], data[|data| - 1];
      CfbByIndex(e, s, init);
      var (c, t) := Run(CfbEncrypt(e), s, init);
      FedLength(e, s, init, c);
      CfbNext(e, s, c, t, x);
      FedMore(e, s, init, c, x, CfbEncrypt(e)(t, x).0);
      assert init + [x] == data;
    }
  }

  lemma FedLength(e: Octets -> Octets, s: Feedback, data: seq<bv8>, c: seq<bv8>)
    requires Fed(e, s, data, c)
    ensures |c| == |data|
  {
  }

  lemma NothingFed(e: Octets -> Octets, s: Feedback)
    ensures Fed(e, s, [], []) && HoldsFeed(e, s, [], s)
  {
    assert Told(s, []) == s.iv[..s.n];
    assert s.n > 0 ==> s.iv == s.iv[..s.n][0..] + s.iv[s.n..];
  }

  lemma FedAlike(e: Octets -> Octets, s: Feedback, c: seq<bv8>, y: bv8, j: nat)
    requires 8 * j <= s.n + |c|
    ensures FeedBlock(e, s, Told(s, c + [y]), j) == FeedBlock(e, s, Told(s, c), j)
  {
    if j > 0 {
      assert Told(s, c + [y])[8 * (j - 1)..8 * j] == Told(s, c)[8 * (j - 1)..8 * j];
    }
  }

  lemma CfbNext(e: Octets -> Octets, s: Feedback, c: seq<bv8>, t: Feedback, x: bv8)
    requires HoldsFeed(e, s, c, t)
    ensures var (y, u) := CfbEncrypt(e)(t, x);
      var p := s.n + |c|;
      y == XorByte(x, FeedBlock(e, s, Told(s, c), p / 8)[p % 8]) && HoldsFeed(e, s, c + [y], u)
  {
    hide XorByte, FeedBlock, HoldsFeed, Refill, Told;
    var j := (s.n + |c|) / 8;
    var feed := FeedBlock(e, s, Told(s, c), j);
    var iv := Refill(e, t);
    RefillIs(e, s, c, t);
    AtOffset(Told(s, c)[8 * j..], feed, t.n);
    XorCommutes(iv[t.n], x);
    var (y, u) := CfbEncrypt(e)(t, x);
    HoldsNext(e, s, c, y, feed, u);
  }

  lemma HoldsNext(e: Octets -> Octets, s: Feedback, c: seq<bv8>, y: bv8, feed: Octets, u: Feedback)
    requires feed == FeedBlock(e, s, Told(s, c), (s.n + |c|) / 8)
    requires var p := s.n + |c|; u.n == (p + 1) % 8 && u.iv == (Told(s, c)[8 * (p / 8)..] + [y]) + feed[p % 8 + 1..]
    ensures HoldsFeed(e, s, c + [y], u)
  {
    hide FeedBlock, Told;
    var p := s.n + |c|;
    EighthStep(p);
    FedAlike(e, s, c, y, p / 8);
    Grown(s, c, y, feed, p % 8);
  }

  lemma RefillIs(e: Octets -> Octets, s: Feedback, c: seq<bv8>, t: Feedback)
    requires HoldsFeed(e, s, c, t)
    ensures var j := (s.n + |c|) / 8;
      && t.n == (s.n + |c|) % 8 && |Told(s, c)[8 * j..]| == t.n
      && Refill(e, t) == Told(s, c)[8 * j..] + FeedBlock(e, s, Told(s, c), j)[t.n..]
  {
  }

  lemma AtOffset(head: seq<bv8>, feed: Octets, n: nat)
    requires |head| == n < 8
    ensures (head + feed[n..])[n] == feed[n]
    ensures forall y :: (head + feed[n..])[n := y] == (head + [y]) + feed[n + 1..]
  {
  }

  lemma XorCommutes(a: bv8, b: bv8)
    ensures XorByte(a, b) == XorByte(b, a)
  {
  }

  lemma Grown(s: Feedback, c: seq<bv8>, y: bv8, feed: Octets, n: nat)
    requires n == (s.n + |c|) % 8
    ensures var told, j := Told(s, c), (s.n + |c|) / 8;
      && Told(s, c + [y]) == told + [y]
      && (n < 7 ==> (told[8 * j..] + [y]) + feed[n + 1..] == Told(s, c + [y])[8 * j..] + feed[n + 1..])
      && (n == 7 ==> (told[8 * j..] + [y]) + feed[n + 1..] == Told(s, c + [y])[8 * j..8 * j + 8])
  {
  }
}
