/**
  The Blowfish Feistel network for any P-array and round function, and the CBC,
  CFB64 and CTR modes over any block permutation: decryption undoes encryption, and
  a mode's result does not depend on how the data is split into calls.
 */
module BlowfishModes {
  import opened Bytes
  import opened Words

  // ---------- the Feistel network ----------

  datatype Halves = Halves(l: bv32, r: bv32)

  /** One round with its swap. */
  function FeistelRound(f: bv32 -> bv32, x: Halves, k: bv32): Halves {
    var l := XorWord(x.l, k);
    Halves(XorWord(f(l), x.r), l)
  }

  function Rounds(f: bv32 -> bv32, x: Halves, keys: seq<bv32>): Halves {
    if |keys| == 0 then x
    else FeistelRound(f, Rounds(f, x, keys[..|keys| - 1]), keys[|keys| - 1])
  }

  /** The network: one round per key but the last two, the last swap undone, the last two keys added. */
  function Network(f: bv32 -> bv32, x: Halves, p: seq<bv32>): Halves
    requires |p| >= 2
  {
    var n := |p| - 2;
    var y := Rounds(f, x, p[..n]);
    Halves(XorWord(y.r, p[n + 1]), XorWord(y.l, p[n]))
  }

  function Backwards(p: seq<bv32>): (q: seq<bv32>)
    ensures |q| == |p|
    ensures forall i :: 0 <= i < |p| ==> q[i] == p[|p| - 1 - i]
  {
    seq(|p|, i requires 0 <= i < |p| => p[|p| - 1 - i])
  }

  /** After j rounds of decryption: the encryption state j rounds before its end, halves swapped, two keys on it. */
  lemma {:induction false} RoundsUnwind(f: bv32 -> bv32, x: Halves, p: seq<bv32>, j: nat)
    requires |p| >= 2 && j <= |p| - 2
    ensures var n := |p| - 2;
      var y := Rounds(f, x, p[..n - j]);
      Rounds(f, Network(f, x, p), Backwards(p)[..j])
      == Halves(XorWord(y.r, p[n - j + 1]), XorWord(y.l, p[n - j]))
  {
    hide XorWord, FeistelRound, Rounds, Network, Backwards;
    var n := |p| - 2;
    BackwardsAt(p, j);
    if j == 0 {
      NoRoundsUnwound(f, x, p);
    } else {
      RoundsUnwind(f, x, p, j - 1);
      BackwardsAt(p, j - 1);
      LastRound(f, Network(f, x, p), Backwards(p), j - 1);
      LastRound(f, x, p, n - j);
      UndoStep(f, Rounds(f, x, p[..n - j]), p[n - j], p[n - j + 1], p[n + 2 - j]);
    }
  }

  lemma NoRoundsUnwound(f: bv32 -> bv32, x: Halves, p: seq<bv32>)
    requires |p| >= 2
    ensures var n := |p| - 2;
      var y := Rounds(f, x, p[..n]);
      Rounds(f, Network(f, x, p), Backwards(p)[..0]) == Halves(XorWord(y.r, p[n + 1]), XorWord(y.l, p[n]))
  {
    hide XorWord, FeistelRound, Backwards;
  }

  lemma LastRound(f: bv32 -> bv32, x: Halves, p: seq<bv32>, n: nat)
    requires n < |p|
    ensures Rounds(f, x, p[..n + 1]) == FeistelRound(f, Rounds(f, x, p[..n]), p[n])
  {
    hide FeistelRound;
    assert p[..n + 1][..n] == p[..n];
  }

  lemma BackwardsAt(p: seq<bv32>, i: nat)
    requires i < |p|
    ensures |Backwards(p)| == |p| && Backwards(p)[i] == p[|p| - 1 - i]
  {
  }

  /** A round on a swapped and keyed state gives the swapped and keyed state one round before. */
  lemma UndoStep(f: bv32 -> bv32, z: Halves, k: bv32, k1: bv32, k2: bv32)
    ensures var y := FeistelRound(f, z, k);
      FeistelRound(f, Halves(XorWord(y.r, k2), XorWord(y.l, k1)), k2) == Halves(XorWord(z.r, k1), XorWord(z.l, k))
  {
    hide XorWord;
    XorWordTwice(FeistelRound(f, z, k).r, k2);
    UndoRound(f, z, k, k1);
  }

  lemma UndoRound(f: bv32 -> bv32, z: Halves, k: bv32, k': bv32)
    ensures var y := FeistelRound(f, z, k);
      XorWord(f(y.r), XorWord(y.l, k')) == XorWord(z.r, k')
  {
    hide XorWord;
    var g := f(XorWord(z.l, k));
    XorCancel(g, z.r, k');
  }

  lemma XorCancel(g: bv32, r: bv32, k: bv32)
    ensures XorWord(g, XorWord(XorWord(g, r), k)) == XorWord(r, k)
  {
    hide XorWord;
    XorWordAssociates(g, r, k);
    XorWordCommutes(g, XorWord(r, k));
    XorWordCommutes(g, XorWord(g, XorWord(r, k)));
    XorWordCommutes(XorWord(r, k), g);
    XorWordTwice(XorWord(r, k), g);
  }

  /** For every P-array and round function, the network with the keys backwards undoes the network. */
  lemma NetworkInverts(f: bv32 -> bv32, x: Halves, p: seq<bv32>)
    requires |p| >= 2
    ensures Network(f, Network(f, x, p), Backwards(p)) == x
  {
    hide XorWord;
    var n := |p| - 2;
    RoundsUnwind(f, x, p, n);
    XorWordTwice(x.l, p[0]);
    XorWordTwice(x.r, p[1]);
  }

  // ---------- blocks ----------

  type Octets = b: seq<bv8> | |b| == 8 witness [0, 0, 0, 0, 0, 0, 0, 0]

  function XorOctets(a: Octets, b: Octets): Octets {
    seq(8, i requires 0 <= i < 8 => XorByte(a[i], b[i]))
  }

  lemma XorByteTwice(a: bv8, b: bv8)
    ensures XorByte(XorByte(a, b), b) == a
    ensures XorByte(b, XorByte(b, a)) == a
    ensures XorByte(a, b) == XorByte(b, a)
  {
  }

  lemma XorOctetsTwice(a: Octets, b: Octets)
    ensures XorOctets(XorOctets(a, b), b) == a
  {
    hide XorByte;
    forall i | 0 <= i < 8
      ensures XorOctets(XorOctets(a, b), b)[i] == a[i]
    {
      XorByteTwice(a[i], b[i]);
    }
  }

  // ---------- modes as machines that carry state from one input to the next ----------

  /** The outputs and the final state of a machine fed data from state s. */
  function Run<S, A, B>(step: (S, A) -> (B, S), s: S, data: seq<A>): (r: (seq<B>, S))
    ensures |r.0| == |data|
  {
    if |data| == 0 then ([], s)
    else
      var (before, t) := Run(step, s, data[..|data| - 1]);
      var (out, u) := step(t, data[|data| - 1]);
      (before + [out], u)
  }

  /** Feeding data in two calls, the second from the state the first left, is feeding it in one. */
  lemma {:induction false} RunSplit<S, A, B>(step: (S, A) -> (B, S), s: S, a: seq<A>, b: seq<A>)
    ensures var first := Run(step, s, a);
      var second := Run(step, first.1, b);
      Run(step, s, a + b) == (first.0 + second.0, second.1)
    decreases |b|
  {
    if |b| == 0 {
      assert a + b == a;
      assert Run(step, s, a).0 + [] == Run(step, s, a).0;
    } else {
      var init := b[..|b| - 1];
      assert (a + b)[..|a + b| - 1] == a + init && (a + b)[|a + b| - 1] == b[|b| - 1];
      RunSplit(step, s, a, init);
      var first := Run(step, s, a);
      var second := Run(step, first.1, init);
      var (out, u) := step(second.1, b[|b| - 1]);
      assert (first.0 + second.0) + [out] == first.0 + (second.0 + [out]);
    }
  }

  /** The data of many calls, in order. */
  function Concat<A>(parts: seq<seq<A>>): seq<A> {
    if |parts| == 0 then [] else Concat(parts[..|parts| - 1]) + parts[|parts| - 1]
  }

  /** One call per part, each from the state the previous one left; the outputs joined. */
  function RunParts<S, A, B>(step: (S, A) -> (B, S), s: S, parts: seq<seq<A>>): (seq<B>, S) {
    if |parts| == 0 then ([], s)
    else
      var (before, t) := RunParts(step, s, parts[..|parts| - 1]);
      var (out, u) := Run(step, t, parts[|parts| - 1]);
      (before + out, u)
  }

  lemma {:induction false} RunPartsIsRun<S, A, B>(step: (S, A) -> (B, S), s: S, parts: seq<seq<A>>)
    ensures RunParts(step, s, parts) == Run(step, s, Concat(parts))
  {
    if |parts| > 0 {
      RunPartsIsRun(step, s, parts[..|parts| - 1]);
      RunSplit(step, s, Concat(parts[..|parts| - 1]), parts[|parts| - 1]);
    }
  }

  /** The second machine recovers each input of the first from its output and ends in the same state. */
  ghost predicate Undoes<S(!new), A(!new)>(dec: (S, A) -> (A, S), enc: (S, A) -> (A, S)) {
    forall s, x :: dec(s, enc(s, x).0) == (x, enc(s, x).1)
  }

  lemma {:induction false} RunInverts<S(!new), A(!new)>(
      dec: (S, A) -> (A, S), enc: (S, A) -> (A, S), s: S, data: seq<A>)
    requires Undoes(dec, enc)
    ensures Run(dec, s, Run(enc, s, data).0) == (data, Run(enc, s, data).1)
  {
    if |data| > 0 {
      var init := data[..|data| - 1];
      RunInverts(dec, enc, s, init);
      var out := Run(enc, s, data).0;
      assert out[..|data| - 1] == Run(enc, s, init).0;
      assert init + [data[|data| - 1]] == data;
    }
  }

  /**
    Whatever two splits the sides use, decrypting what was encrypted gives the data
    back, as long as both start from the same state and the pieces join to the same text.
   */
  lemma SplitsAgree<S(!new), A(!new)>(dec: (S, A) -> (A, S), enc: (S, A) -> (A, S), s: S,
                                     sent: seq<seq<A>>, received: seq<seq<A>>)
    requires Undoes(dec, enc)
    requires Concat(received) == RunParts(enc, s, sent).0
    ensures RunParts(dec, s, received) == (Concat(sent), RunParts(enc, s, sent).1)
  {
    RunPartsIsRun(enc, s, sent);
    RunPartsIsRun(dec, s, received);
    RunInverts(dec, enc, s, Concat(sent));
  }

  // ---------- CBC: blocks, carrying the previous cipher block ----------

  function CbcEncrypt(e: Octets -> Octets): (Octets, Octets) -> (Octets, Octets) {
    (iv: Octets, x: Octets) => var c := e(XorOctets(x, iv)); (c, c)
  }

  function CbcDecrypt(d: Octets -> Octets): (Octets, Octets) -> (Octets, Octets) {
    (iv: Octets, c: Octets) => (XorOctets(d(c), iv), c)
  }

  ghost predicate BlockInverse(d: Octets -> Octets, e: Octets -> Octets) {
    forall x :: d(e(x)) == x
  }

  lemma CbcUndoes(d: Octets -> Octets, e: Octets -> Octets)
    requires BlockInverse(d, e)
    ensures Undoes(CbcDecrypt(d), CbcEncrypt(e))
  {
    forall iv: Octets, x: Octets
      ensures CbcDecrypt(d)(iv, CbcEncrypt(e)(iv, x).0) == (x, CbcEncrypt(e)(iv, x).1)
    {
      XorOctetsTwice(x, iv);
    }
  }

  // ---------- CFB64: bytes, carrying the vector and the offset into it ----------

  type Offset = n: nat | n < 8

  datatype Feedback = Feedback(iv: Octets, n: Offset)

  function Refill(e: Octets -> Octets, s: Feedback): Octets {
    if s.n == 0 then e(s.iv) else s.iv
  }

  function CfbEncrypt(e: Octets -> Octets): (Feedback, bv8) -> (bv8, Feedback) {
    (s: Feedback, x: bv8) =>
      var iv := Refill(e, s);
      var c := XorByte(iv[s.n], x);
      (c, Feedback(iv[s.n := c], (s.n + 1) % 8))
  }

  function CfbDecrypt(e: Octets -> Octets): (Feedback, bv8) -> (bv8, Feedback) {
    (s: Feedback, c: bv8) =>
      var iv := Refill(e, s);
      (XorByte(c, iv[s.n]), Feedback(iv[s.n := c], (s.n + 1) % 8))
  }

  lemma CfbUndoes(e: Octets -> Octets)
    ensures Undoes(CfbDecrypt(e), CfbEncrypt(e))
  {
    hide XorByte;
    forall s: Feedback, x: bv8
      ensures CfbDecrypt(e)(s, CfbEncrypt(e)(s, x).0) == (x, CfbEncrypt(e)(s, x).1)
    {
      XorByteTwice(x, Refill(e, s)[s.n]);
    }
  }

  // ---------- CTR: bytes, carrying the counter, the key stream and the offset into it ----------

  datatype Counter = Counter(nonce: Octets, stream: Octets, n: Offset)

  /** The byte string as a number, most significant byte first. */
  function Number(b: seq<bv8>): nat {
    if |b| == 0 then 0 else Number(b[..|b| - 1]) * 256 + Value(b[|b| - 1])
  }

  /** 256 to the n. */
  function Radix(n: nat): nat {
    if n == 0 then 1 else Radix(n - 1) * 256
  }

  /** Adding one from the last byte, carrying while bytes wrap to zero. */
  function Successor(b: seq<bv8>): (r: seq<bv8>)
    ensures |r| == |b|
  {
    if |b| == 0 then []
    else
      var last := NextByte(b[|b| - 1]);
      if last != 0 then b[..|b| - 1] + [last] else Successor(b[..|b| - 1]) + [last]
  }

  function NextByte(b: bv8): bv8 {
    b + 1
  }

  lemma NextByteCounts(b: bv8)
    ensures NextByte(b) != 0 ==> Value(NextByte(b)) == Value(b) + 1
    ensures NextByte(b) == 0 ==> Value(b) == 255 && Value(NextByte(b)) == 0
  {
  }

  lemma {:induction false} NumberBound(b: seq<bv8>)
    ensures Number(b) < Radix(|b|)
  {
    hide Value;
    if |b| > 0 {
      NumberBound(b[..|b| - 1]);
    }
  }

  /** The counter counts: Successor adds one modulo 256^|b|. */
  lemma {:induction false} SuccessorCounts(b: seq<bv8>)
    ensures Number(Successor(b)) == if Number(b) + 1 == Radix(|b|) then 0 else Number(b) + 1
  {
    hide Value, NextByte;
    if |b| > 0 {
      var init := b[..|b| - 1];
      var last := b[|b| - 1];
      NextByteCounts(last);
      NumberBound(init);
      var r := Successor(b);
      assert r[|b| - 1] == NextByte(last);
      if NextByte(last) != 0 {
        assert r[..|b| - 1] == init;
      } else {
        assert r[..|b| - 1] == Successor(init);
        SuccessorCounts(init);
      }
    }
  }

  function Refresh(e: Octets -> Octets, s: Counter): Counter {
    if s.n == 0 then Counter(Successor(s.nonce), e(s.nonce), 0) else s
  }

  function CtrCrypt(e: Octets -> Octets): (Counter, bv8) -> (bv8, Counter) {
    (s: Counter, x: bv8) =>
      var t := Refresh(e, s);
      (XorByte(x, t.stream[s.n]), t.(n := (s.n + 1) % 8))
  }

  /** CTR is its own inverse. */
  lemma CtrUndoes(e: Octets -> Octets)
    ensures Undoes(CtrCrypt(e), CtrCrypt(e))
  {
    hide XorByte, Successor;
    forall s: Counter, x: bv8
      ensures CtrCrypt(e)(s, CtrCrypt(e)(s, x).0) == (x, CtrCrypt(e)(s, x).1)
    {
      XorByteTwice(x, Refresh(e, s).stream[s.n]);
    }
  }
}
