/**
  What the two streaming hashes of the SDK share: folding a compression function over
  the 64-byte blocks of a message, the padding, and the 64-bit length kept in two words.
 */
module BlockHash {
  import opened Bytes

  type Block = b: seq<bv8> | |b| == 64 witness seq(64, _ => 0)

  const TWO32: int := 0x1_0000_0000
  const TWO64: int := 0x1_0000_0000_0000_0000

  /** The whole blocks of msg folded into h; a final partial block is left out. */
  function Fold<S>(f: (S, Block) -> S, h: S, msg: seq<bv8>): S
    decreases |msg|
  {
    if |msg| < 64 then h else Fold(f, f(h, msg[..64]), msg[64..])
  }

  lemma {:induction false} FoldConcat<S>(f: (S, Block) -> S, h: S, a: seq<bv8>, b: seq<bv8>)
    requires |a| % 64 == 0
    ensures Fold(f, h, a + b) == Fold(f, Fold(f, h, a), b)
    decreases |a|
  {
    if |a| == 0 {
      assert a + b == b;
    } else {
      assert (a + b)[..64] == a[..64];
      assert (a + b)[64..] == a[64..] + b;
      FoldConcat(f, f(h, a[..64]), a[64..], b);
    }
  }

  lemma FoldOne<S>(f: (S, Block) -> S, h: S, b: Block)
    ensures Fold(f, h, b) == f(h, b)
  {
    assert b[..64] == b;
    assert Fold(f, h, b) == Fold(f, f(h, b), b[64..]);
  }

  lemma FoldEmpty<S>(f: (S, Block) -> S, h: S)
    ensures Fold(f, h, []) == h
  {
  }

  /** The whole blocks of msg. */
  function Whole(msg: seq<bv8>): (w: seq<bv8>)
    ensures |w| % 64 == 0
  {
    msg[..|msg| - |msg| % 64]
  }

  /** The bytes of msg after its last whole block. */
  function Tail(msg: seq<bv8>): (t: seq<bv8>)
    ensures |t| == |msg| % 64
  {
    msg[|msg| - |msg| % 64..]
  }

  lemma EmptyTail(msg: seq<bv8>)
    requires |msg| % 64 == 0
    ensures Tail(msg) == []
  {
  }

  lemma SplitIsUnique(w: seq<bv8>, t: seq<bv8>)
    requires |w| % 64 == 0 && |t| < 64
    ensures Whole(w + t) == w && Tail(w + t) == t
  {
    assert |w + t| - |w + t| % 64 == |w|;
  }

  lemma WholeLength(msg: seq<bv8>)
    ensures |Whole(msg)| == 64 * (|msg| / 64)
  {
  }

  lemma SplitJoins(msg: seq<bv8>)
    ensures Whole(msg) + Tail(msg) == msg
  {
  }

  lemma FoldWhole<S>(f: (S, Block) -> S, h: S, msg: seq<bv8>)
    ensures Fold(f, h, msg) == Fold(f, h, Whole(msg))
  {
    hide Whole, Tail;
    SplitJoins(msg);
    FoldConcat(f, h, Whole(msg), Tail(msg));
  }

  /** A tail completed to a block costs one compression and leaves no tail. */
  lemma FoldComplete<S>(f: (S, Block) -> S, h: S, msg: seq<bv8>, more: seq<bv8>, block: Block)
    requires Tail(msg) + more == block
    ensures |msg + more| % 64 == 0
    ensures Fold(f, h, msg + more) == f(Fold(f, h, msg), block)
  {
    hide Fold, Whole, Tail;
    SplitJoins(msg);
    WholeLength(msg);
    assert msg + more == Whole(msg) + block;
    QuotientIs(|msg + more|, |msg| / 64 + 1, 0);
    QuotientIs(|Whole(msg)|, |msg| / 64, 0);
    FoldConcat(f, h, Whole(msg), block);
    FoldOne(f, Fold(f, h, Whole(msg)), block);
    FoldWhole(f, h, msg);
  }

  /** Bytes that do not complete the tail only lengthen it. */
  lemma FoldPartial<S>(f: (S, Block) -> S, h: S, msg: seq<bv8>, more: seq<bv8>)
    requires |Tail(msg)| + |more| < 64
    ensures Fold(f, h, msg + more) == Fold(f, h, msg)
    ensures Tail(msg + more) == Tail(msg) + more
  {
    hide Fold, Whole, Tail;
    SplitJoins(msg);
    assert msg + more == Whole(msg) + (Tail(msg) + more);
    SplitIsUnique(Whole(msg), Tail(msg) + more);
    FoldWhole(f, h, msg);
    FoldWhole(f, h, msg + more);
  }

  // ---------- padding ----------

  function Zeros(n: nat): (z: seq<bv8>)
    ensures |z| == n
  {
    seq(n, _ => 0)
  }

  /** The least number of zero bytes that brings n message bytes and the 0x80 byte to 56 modulo 64. */
  function ZeroCount(n: nat): nat {
    (55 - n) % 64
  }

  lemma ZeroCountIsLeast(n: nat, k: nat)
    ensures (n + 1 + ZeroCount(n)) % 64 == 56
    ensures (n + 1 + k) % 64 == 56 ==> ZeroCount(n) <= k
  {
  }

  function Padding(n: nat): (p: seq<bv8>)
    ensures |p| == ZeroCount(n) + 1
  {
    [0x80] + Zeros(ZeroCount(n))
  }

  lemma QuotientIs(n: nat, k: nat, r: nat)
    requires n == 64 * k + r && r < 64
    ensures n % 64 == r
  {
  }

  /** A message, its padding and eight more bytes are whole blocks. */
  lemma PaddedLength(n: nat)
    ensures (n + (ZeroCount(n) + 1) + 8) % 64 == 0
  {
    ZeroCountIsLeast(n, 0);
    hide ZeroCount;
    var x := n + 1 + ZeroCount(n);
    QuotientIs(x + 8, x / 64 + 1, 0);
  }

  /** The first padn bytes of either padding table are the padding. */
  lemma PaddingPrefix(n: nat, padn: nat)
    requires padn == if n % 64 < 56 then 56 - n % 64 else 120 - n % 64
    ensures padn <= 64 && ([0x80] + Zeros(63))[..padn] == Padding(n)
  {
    assert ZeroCount(n) + 1 == padn;
  }

  // ---------- the length in two 32-bit words ----------

  /** The two counter words hold n modulo 2^64. */
  predicate Counts(total0: nat, total1: nat, n: nat) {
    total0 < TWO32 && total1 < TWO32 && total1 * TWO32 + total0 == n % TWO64
  }

  lemma AddModulo(n: nat, k: nat)
    requires k < TWO64
    ensures (n + k) % TWO64 == if n % TWO64 + k < TWO64 then n % TWO64 + k else n % TWO64 + k - TWO64
  {
    var q := n / TWO64;
    assert n + k == q * TWO64 + (n % TWO64 + k);
    assert n + k == (q + 1) * TWO64 + (n % TWO64 + k - TWO64);
  }

  /** Adding ilen to the low word and carrying when it wraps adds ilen to the 64-bit count. */
  lemma CarryCounts(total0: nat, total1: nat, n: nat, ilen: nat)
    requires Counts(total0, total1, n) && ilen < TWO32
    ensures var low := (total0 + ilen) % TWO32;
      Counts(low, if low < ilen then (total1 + 1) % TWO32 else total1, n + ilen)
  {
    AddModulo(n, ilen);
    var sum := total0 + ilen;
    if sum < TWO32 {
      assert sum % TWO32 == sum;
    } else {
      assert sum % TWO32 == sum - TWO32;
      if total1 + 1 == TWO32 {
        assert (total1 + 1) % TWO32 == 0;
      }
    }
  }

  lemma CountModBlock(total0: nat, total1: nat, n: nat)
    requires Counts(total0, total1, n)
    ensures total0 % 64 == n % 64
  {
    assert n == n / TWO64 * TWO64 + total1 * TWO32 + total0;
    assert n == 64 * (n / TWO64 * 0x400_0000_0000_0000 + total1 * 0x400_0000) + total0;
  }

  /** total[0] >> 29 | total[1] << 3: the fields are disjoint, so the or is a sum. */
  function HighBits(total0: nat, total1: nat): nat {
    total0 / 0x2000_0000 + total1 * 8 % TWO32
  }

  function LowBits(total0: nat): nat {
    total0 * 8 % TWO32
  }

  /** The two shifted words are the bit count modulo 2^64. */
  lemma BitCount(total0: nat, total1: nat, n: nat)
    requires Counts(total0, total1, n)
    ensures HighBits(total0, total1) == 8 * n / TWO32 % TWO32
    ensures LowBits(total0) == 8 * n % TWO32
  {
    var q := n / TWO64;
    assert n == q * TWO64 + total1 * TWO32 + total0;
    var c, d := total0 / 0x2000_0000, total0 % 0x2000_0000;
    var r, s := total1 / 0x2000_0000, total1 % 0x2000_0000;
    assert 8 * total0 == c * TWO32 + 8 * d;
    assert 8 * total1 == r * TWO32 + 8 * s;
    TwoDigits(8 * n, 8 * q + r, 8 * s + c, 8 * d);
    TwoDigits(8 * total0, 0, c, 8 * d);
    TwoDigits(8 * total1, 0, r, 8 * s);
  }

  lemma TwoDigits(n: nat, a: nat, b: nat, c: nat)
    requires n == a * TWO64 + b * TWO32 + c && b < TWO32 && c < TWO32
    ensures n % TWO32 == c && n / TWO32 % TWO32 == b
  {
    assert n / TWO32 == a * TWO32 + b;
  }

  /** A 32-bit count as four bytes, most significant first. */
  function Bytes32BE(n: nat): (b: seq<bv8>)
    ensures |b| == 4
  {
    [ByteOf(n / 0x100_0000 % 256), ByteOf(n / 0x1_0000 % 256), ByteOf(n / 0x100 % 256), ByteOf(n % 256)]
  }

  function Bytes32LE(n: nat): (b: seq<bv8>)
    ensures |b| == 4
  {
    [ByteOf(n % 256), ByteOf(n / 0x100 % 256), ByteOf(n / 0x1_0000 % 256), ByteOf(n / 0x100_0000 % 256)]
  }

  /** The number four bytes denote, most significant first. */
  function Number32(b: seq<bv8>): int
    requires |b| == 4
  {
    ((Value(b[0]) * 256 + Value(b[1])) * 256 + Value(b[2])) * 256 + Value(b[3])
  }

  lemma Number32OfBytes(n: nat)
    requires n < TWO32
    ensures Number32(Bytes32BE(n)) == n
  {
    hide Value, ByteOf, Number32;
    var q := n / 256;
    var r := q / 256;
    var s := r / 256;
    Quotients(n, q, r, s);
    Digits(s % 256, r % 256, q % 256, n % 256, Bytes32BE(n));
  }

  lemma Quotients(n: nat, q: nat, r: nat, s: nat)
    requires n < TWO32 && q == n / 256 && r == q / 256 && s == r / 256
    ensures n / 0x1_0000 == r && n / 0x100_0000 == s && s % 256 == s
    ensures ((s % 256 * 256 + r % 256) * 256 + q % 256) * 256 + n % 256 == n
  {
  }

  lemma Digits(a: int, b: int, c: int, d: int, bytes: seq<bv8>)
    requires 0 <= a < 256 && 0 <= b < 256 && 0 <= c < 256 && 0 <= d < 256
    requires bytes == [ByteOf(a), ByteOf(b), ByteOf(c), ByteOf(d)]
    ensures Number32(bytes) == ((a * 256 + b) * 256 + c) * 256 + d
  {
    hide Value, ByteOf;
    ByteOfValue(a);
    ByteOfValue(b);
    ByteOfValue(c);
    ByteOfValue(d);
    assert Value(bytes[0]) == a && Value(bytes[1]) == b && Value(bytes[2]) == c && Value(bytes[3]) == d;
  }

  lemma Bytes32LEInjective(m: nat, n: nat)
    requires m < TWO32 && n < TWO32 && Bytes32LE(m) == Bytes32LE(n)
    ensures m == n
  {
    hide Number32, ByteOf;
    assert Bytes32BE(m) == Bytes32BE(n);
    Number32OfBytes(m);
    Number32OfBytes(n);
  }

  /** memcpy into a 64-byte buffer. */
  method CopyInto(buffer: array<bv8>, at: nat, bytes: seq<bv8>)
    requires buffer.Length == 64 && at + |bytes| <= 64
    modifies buffer
    ensures buffer[..at] == old(buffer[..at]) && buffer[at..at + |bytes|] == bytes
  {
    for i := 0 to |bytes|
      invariant buffer[..at] == old(buffer[..at])
      invariant buffer[at..at + i] == bytes[..i]
    {
      buffer[at + i] := bytes[i];
    }
  }

  /** The pieces of a message put back together. */
  function Joined(parts: seq<seq<bv8>>): seq<bv8> {
    if |parts| == 0 then [] else Joined(parts[..|parts| - 1]) + parts[|parts| - 1]
  }
}
