/**
  The Base64 codec of external_libs/mbedtls/library/base64.c: decoding undoes encoding, also
  through inserted line ends, and the second decoding pass stays within the first one's length.
 */
module Base64 {
  import opened Wrappers

  type Octet = x: int | 0 <= x < 256

  const SIZE_MAX: nat := 0xFFFF_FFFF_FFFF_FFFF
  const TWO32: nat := 0x1_0000_0000

  const SPACE: Octet := 32
  const LF: Octet := 10
  const CR: Octet := 13
  const PAD: Octet := 61

  datatype Error = BufferTooSmall | InvalidCharacter

  // ---------- the tables ----------

  /** base64_enc_map: A-Z, a-z, 0-9, +, / */
  function EncMap(v: int): Octet
    requires 0 <= v < 64
  {
    if v < 26 then 65 + v
    else if v < 52 then 97 + v - 26
    else if v < 62 then 48 + v - 52
    else if v == 62 then 43
    else 47
  }

  /** base64_dec_map: 64 for the padding character, 127 for characters that are not allowed. */
  function DecMap(c: Octet): int
    requires c < 128
  {
    if 65 <= c <= 90 then c - 65
    else if 97 <= c <= 122 then c - 97 + 26
    else if 48 <= c <= 57 then c - 48 + 52
    else if c == 43 then 62
    else if c == 47 then 63
    else if c == PAD then 64
    else 127
  }

  predicate Allowed(c: Octet) {
    c < 128 && DecMap(c) != 127
  }

  predicate Digit(c: Octet) {
    c < 128 && DecMap(c) < 64
  }

  lemma MapsInvert(v: int, c: Octet)
    ensures 0 <= v < 64 ==> Digit(EncMap(v)) && DecMap(EncMap(v)) == v
    ensures Digit(c) ==> 0 <= DecMap(c) < 64 && EncMap(DecMap(c)) == c
  {
  }

  // ---------- what the texts mean ----------

  /** The 24 bits of three octets. */
  function Bits(a: Octet, b: Octet, c: Octet): nat {
    a * 65536 + b * 256 + c
  }

  /** Their k-th six bits. */
  function Six(v: nat, k: nat): (d: int)
    requires k < 4
    ensures 0 <= d < 64
  {
    match k
    case 0 => v / 262144 % 64
    case 1 => v / 4096 % 64
    case 2 => v / 64 % 64
    case _ => v % 64
  }

  /** The k-th of the three octets of 24 bits. */
  function OctetOf(v: nat, k: nat): Octet
    requires k < 3
  {
    match k
    case 0 => v / 65536 % 256
    case 1 => v / 256 % 256
    case _ => v % 256
  }

  /** Section 5.2 of RFC 1521: three octets become four digits; one or two at the end are padded. */
  function Encoded(data: seq<Octet>): seq<Octet>
    decreases |data|
  {
    if |data| == 0 then []
    else if |data| == 1 then
      var v := Bits(data[0], 0, 0);
      [EncMap(Six(v, 0)), EncMap(Six(v, 1)), PAD, PAD]
    else if |data| == 2 then
      var v := Bits(data[0], data[1], 0);
      [EncMap(Six(v, 0)), EncMap(Six(v, 1)), EncMap(Six(v, 2)), PAD]
    else
      var v := Bits(data[0], data[1], data[2]);
      [EncMap(Six(v, 0)), EncMap(Six(v, 1)), EncMap(Six(v, 2)), EncMap(Six(v, 3))] + Encoded(data[3..])
  }

  /** The value of a digit; padding counts as 0. */
  function DigitValue(c: Octet): (d: int)
    requires Allowed(c)
    ensures 0 <= d < 64
  {
    DecMap(c) % 64
  }

  function Pads(s: seq<Octet>): nat {
    if |s| == 0 then 0 else Pads(s[..|s| - 1]) + if s[|s| - 1] == PAD then 1 else 0
  }

  function GroupBits(a: Octet, b: Octet, c: Octet, d: Octet): (v: nat)
    requires Allowed(a) && Allowed(b) && Allowed(c) && Allowed(d)
    ensures v < 16777216
  {
    DigitValue(a) * 262144 + DigitValue(b) * 4096 + DigitValue(c) * 64 + DigitValue(d)
  }

  /** The first k octets of a group's 24 bits. */
  function Octets(v: nat, k: int): (s: seq<Octet>) {
    (if k > 0 then [OctetOf(v, 0)] else []) + (if k > 1 then [OctetOf(v, 1)] else [])
      + (if k > 2 then [OctetOf(v, 2)] else [])
  }

  /** The octets of a text without white space; `left` of each group's three octets are not padding. */
  function Decoded(s: seq<Octet>, left: int): seq<Octet>
    requires forall i :: 0 <= i < |s| ==> Allowed(s[i])
    decreases |s|
  {
    if |s| < 4 then []
    else
      var k := left - Pads(s[..4]);
      Octets(GroupBits(s[0], s[1], s[2], s[3]), k) + Decoded(s[4..], k)
  }

  // ---------- decoding undoes encoding ----------

  /** Division by its quotient and remainder. */
  lemma Divided(x: int, n: int, q: int, r: int)
    requires 0 <= r < n && x == n * q + r
    ensures x / n == q && x % n == r
  {
    var d := x / n - q;
    Product(n, x / n - q, x / n, q);
    assert n * d == r - x % n;
    if d >= 1 {
      AtLeast(n, d);
    } else if d <= -1 {
      AtLeast(n, -d);
      Product(n, -d, 0, d);
    }
  }

  lemma Product(n: int, d: int, a: int, b: int)
    requires d == a - b
    ensures n * d == n * a - n * b
  {
  }

  lemma AtLeast(n: int, d: int)
    requires n > 0 && d >= 1
    ensures n * d >= n
  {
    Product(n, d - 1, d, 1);
    assert n * (d - 1) >= 0;
  }

  lemma FirstSix(a: Octet, b: Octet, c: Octet)
    ensures Six(Bits(a, b, c), 0) == a / 4
  {
    Divided(Bits(a, b, c), 262144, a / 4, a % 4 * 65536 + b * 256 + c);
  }

  lemma SecondSix(a: Octet, b: Octet, c: Octet)
    ensures Six(Bits(a, b, c), 1) == a % 4 * 16 + b / 16
  {
    Divided(Bits(a, b, c), 4096, a * 16 + b / 16, b % 16 * 256 + c);
    Divided(a * 16 + b / 16, 64, a / 4, a % 4 * 16 + b / 16);
  }

  lemma ThirdSix(a: Octet, b: Octet, c: Octet)
    ensures Six(Bits(a, b, c), 2) == b % 16 * 4 + c / 64
  {
    Divided(Bits(a, b, c), 64, a * 1024 + b * 4 + c / 64, c % 64);
    Divided(a * 1024 + b * 4 + c / 64, 64, a * 16 + b / 16, b % 16 * 4 + c / 64);
  }

  lemma FourthSix(a: Octet, b: Octet, c: Octet)
    ensures Six(Bits(a, b, c), 3) == c % 64
  {
    Divided(Bits(a, b, c), 64, a * 1024 + b * 4 + c / 64, c % 64);
  }

  lemma OctetsOfBits(a: Octet, b: Octet, c: Octet)
    ensures var v := Bits(a, b, c); OctetOf(v, 0) == a && OctetOf(v, 1) == b && OctetOf(v, 2) == c
  {
    Divided(Bits(a, b, c), 65536, a, b * 256 + c);
    Divided(Bits(a, b, c), 256, a * 256 + b, c);
    Divided(a * 256 + b, 256, a, b);
  }

  /** Splitting into sixes and into octets are inverse. */
  lemma SixesOfBits(a: Octet, b: Octet, c: Octet)
    ensures var v := Bits(a, b, c);
      && Six(v, 0) * 262144 + Six(v, 1) * 4096 + Six(v, 2) * 64 + Six(v, 3) == v
      && OctetOf(v, 0) == a && OctetOf(v, 1) == b && OctetOf(v, 2) == c
  {
    hide Six, OctetOf;
    FirstSix(a, b, c);
    SecondSix(a, b, c);
    ThirdSix(a, b, c);
    FourthSix(a, b, c);
    OctetsOfBits(a, b, c);
  }

  lemma ShortGroups(a: Octet, b: Octet)
    ensures Six(Bits(a, 0, 0), 2) == 0 && Six(Bits(a, 0, 0), 3) == 0 && Six(Bits(a, b, 0), 3) == 0
  {
    hide Six, Bits;
    ThirdSix(a, 0, 0);
    FourthSix(a, 0, 0);
    FourthSix(a, b, 0);
  }

  lemma EncodedGroup(a: Octet, b: Octet, c: Octet)
    ensures var v := Bits(a, b, c);
      && Digit(EncMap(Six(v, 0))) && Digit(EncMap(Six(v, 1))) && Digit(EncMap(Six(v, 2))) && Digit(EncMap(Six(v, 3)))
      && GroupBits(EncMap(Six(v, 0)), EncMap(Six(v, 1)), EncMap(Six(v, 2)), EncMap(Six(v, 3))) == v
  {
    hide Six, EncMap, DecMap, Bits, OctetOf;
    var v := Bits(a, b, c);
    SixesOfBits(a, b, c);
    MapsInvert(Six(v, 0), 0);
    MapsInvert(Six(v, 1), 0);
    MapsInvert(Six(v, 2), 0);
    MapsInvert(Six(v, 3), 0);
  }

  lemma PadsOfFour(a: Octet, b: Octet, c: Octet, d: Octet)
    ensures Pads([a, b, c, d]) ==
      (if a == PAD then 1 else 0) + (if b == PAD then 1 else 0) + (if c == PAD then 1 else 0)
        + (if d == PAD then 1 else 0)
  {
    var s := [a, b, c, d];
    assert Pads([a]) == if a == PAD then 1 else 0 by { assert [a][..0] == []; }
    assert Pads([a, b]) == Pads([a]) + if b == PAD then 1 else 0 by { assert [a, b][..1] == [a]; }
    assert Pads([a, b, c]) == Pads([a, b]) + if c == PAD then 1 else 0 by { assert [a, b, c][..2] == [a, b]; }
    assert s[..3] == [a, b, c];
  }

  lemma DigitsAreNoPads(c: Octet)
    ensures Digit(c) ==> c != PAD && Allowed(c)
    ensures Allowed(PAD) && DigitValue(PAD) == 0 && DigitValue(EncMap(0)) == 0
  {
  }

  /** One encoded group decodes to the octets it was made of. */
  lemma GroupDecodes(a: Octet, b: Octet, c: Octet)
    ensures var v := Bits(a, b, c);
      var g := [EncMap(Six(v, 0)), EncMap(Six(v, 1)), EncMap(Six(v, 2)), EncMap(Six(v, 3))];
      && (forall i :: 0 <= i < 4 ==> Allowed(g[i])) && Pads(g) == 0
      && Octets(GroupBits(g[0], g[1], g[2], g[3]), 3) == [a, b, c]
      && (c == 0 ==> Octets(GroupBits(g[0], g[1], g[2], PAD), 2) == [a, b])
      && (b == c == 0 ==> Octets(GroupBits(g[0], g[1], PAD, PAD), 1) == [a])
  {
    hide Six, EncMap, DecMap, Bits, OctetOf, Digit, Allowed, DigitValue;
    var v := Bits(a, b, c);
    EncodedGroup(a, b, c);
    SixesOfBits(a, b, c);
    ShortGroups(a, b);
    DigitsAreNoPads(EncMap(Six(v, 0)));
    DigitsAreNoPads(EncMap(Six(v, 1)));
    DigitsAreNoPads(EncMap(Six(v, 2)));
    DigitsAreNoPads(EncMap(Six(v, 3)));
    PadsOfFour(EncMap(Six(v, 0)), EncMap(Six(v, 1)), EncMap(Six(v, 2)), EncMap(Six(v, 3)));
  }

  lemma EncodedLong(data: seq<Octet>)
    requires |data| >= 3
    ensures var v := Bits(data[0], data[1], data[2]);
      Encoded(data) == [EncMap(Six(v, 0)), EncMap(Six(v, 1)), EncMap(Six(v, 2)), EncMap(Six(v, 3))] + Encoded(data[3..])
  {
  }

  lemma DecodedLong(g: seq<Octet>, s: seq<Octet>)
    requires |g| == 4 && Pads(g) == 0 && (forall i :: 0 <= i < |g| ==> Allowed(g[i]))
      && (forall i :: 0 <= i < |s| ==> Allowed(s[i]))
    ensures Decoded(g + s, 3) == Octets(GroupBits(g[0], g[1], g[2], g[3]), 3) + Decoded(s, 3)
  {
    assert (g + s)[..4] == g && (g + s)[4..] == s;
  }

  /** Four characters for every three octets begun. */
  function EncodedSize(len: nat): nat {
    (len + 2) / 3 * 4
  }

  /** Decoding the encoded text gives the data back; the text is allowed characters, then at most two pads. */
  lemma {:induction false} DecodedEncoded(data: seq<Octet>)
    ensures forall i :: 0 <= i < |Encoded(data)| ==> Allowed(Encoded(data)[i])
    ensures Decoded(Encoded(data), 3) == data
    ensures |Encoded(data)| == EncodedSize(|data|)
    decreases |data|
  {
    hide Six, EncMap, Bits, GroupBits, Octets, Allowed;
    if |data| == 0 {
    } else if |data| == 1 {
      LastOne(data[0]);
      assert data == [data[0]];
    } else if |data| == 2 {
      LastTwo(data[0], data[1]);
      assert data == [data[0], data[1]];
    } else {
      DecodedEncoded(data[3..]);
      DecodedEncodedLong(data);
    }
  }

  lemma DecodedEncodedLong(data: seq<Octet>)
    requires |data| >= 3 && (forall i :: 0 <= i < |Encoded(data[3..])| ==> Allowed(Encoded(data[3..])[i]))
    requires Decoded(Encoded(data[3..]), 3) == data[3..]
    ensures |Encoded(data)| == 4 + |Encoded(data[3..])|
    ensures forall i :: 0 <= i < |Encoded(data)| ==> Allowed(Encoded(data)[i])
    ensures Decoded(Encoded(data), 3) == data
  {
    hide Six, EncMap, Bits, GroupBits, Octets, Allowed, Pads, Encoded, Decoded;
    GroupDecodes(data[0], data[1], data[2]);
    EncodedLong(data);
    var g := Encoded(data)[..4];
    assert Encoded(data) == g + Encoded(data[3..]);
    DecodedLong(g, Encoded(data[3..]));
    assert data == [data[0], data[1], data[2]] + data[3..];
  }

  lemma DecodedFour(g: seq<Octet>)
    requires |g| == 4 && forall i :: 0 <= i < |g| ==> Allowed(g[i])
    ensures Decoded(g, 3) == Octets(GroupBits(g[0], g[1], g[2], g[3]), 3 - Pads(g))
  {
    hide Allowed, Octets, GroupBits, Pads, Decoded;
    DecodedFirst(g);
    assert g[..4] == g && g[4..] == [];
  }

  lemma DecodedFirst(g: seq<Octet>)
    requires |g| == 4 && forall i :: 0 <= i < |g| ==> Allowed(g[i])
    ensures var k := 3 - Pads(g[..4]);
      Decoded(g, 3) == Octets(GroupBits(g[0], g[1], g[2], g[3]), k)
  {
    hide Allowed, Octets, GroupBits, Pads;
    var k := 3 - Pads(g[..4]);
    assert Decoded(g[4..], k) == [];
  }

  lemma LastOne(a: Octet)
    ensures var s := Encoded([a]); |s| == 4 && (forall i :: 0 <= i < 4 ==> Allowed(s[i])) && Decoded(s, 3) == [a]
  {
    hide Six, EncMap, DecMap, Bits, OctetOf, Digit, Allowed, DigitValue, GroupBits, Octets, Pads;
    var v, s := Bits(a, 0, 0), Encoded([a]);
    GroupDecodes(a, 0, 0);
    EncodedGroup(a, 0, 0);
    DigitsAreNoPads(EncMap(Six(v, 0)));
    DigitsAreNoPads(EncMap(Six(v, 1)));
    PadsOfFour(s[0], s[1], PAD, PAD);
    assert s == [s[0], s[1], PAD, PAD];
    DecodedFour(s);
  }

  lemma LastTwo(a: Octet, b: Octet)
    ensures var s := Encoded([a, b]); |s| == 4 && (forall i :: 0 <= i < 4 ==> Allowed(s[i])) && Decoded(s, 3) == [a, b]
  {
    hide Six, EncMap, DecMap, Bits, OctetOf, Digit, Allowed, DigitValue, GroupBits, Octets, Pads;
    var v, s := Bits(a, b, 0), Encoded([a, b]);
    GroupDecodes(a, b, 0);
    EncodedGroup(a, b, 0);
    DigitsAreNoPads(EncMap(Six(v, 0)));
    DigitsAreNoPads(EncMap(Six(v, 1)));
    DigitsAreNoPads(EncMap(Six(v, 2)));
    PadsOfFour(s[0], s[1], s[2], PAD);
    assert s == [s[0], s[1], s[2], PAD];
    DecodedFour(s);
  }

  // ---------- encoding ----------

  /** The four digits of a group, as the shifts compute them. */
  lemma ShiftsAreSixes(C1: Octet, C2: Octet, C3: Octet)
    ensures var v := Bits(C1, C2, C3);
      && C1 / 4 % 64 == Six(v, 0) && (C1 % 4 * 16 + C2 / 16) % 64 == Six(v, 1)
      && (C2 % 16 * 4 + C3 / 64) % 64 == Six(v, 2) && C3 % 64 == Six(v, 3)
  {
    hide Six;
    FirstSix(C1, C2, C3);
    SecondSix(C1, C2, C3);
    ThirdSix(C1, C2, C3);
    FourthSix(C1, C2, C3);
  }

  /** Four octets behind the p already written. */
  method Put4(dst: array<Octet>, p: nat, a: Octet, b: Octet, c: Octet, d: Octet)
    requires p + 4 <= dst.Length
    modifies dst
    ensures dst[..p + 4] == old(dst[..p]) + [a, b, c, d]
    ensures forall k :: p + 4 <= k < dst.Length ==> dst[k] == old(dst[k])
  {
    dst[p], dst[p + 1], dst[p + 2], dst[p + 3] := a, b, c, d;
  }

  /** The groups of three octets in the first n. */
  method EncodeGroups(dst: array<Octet>, src: seq<Octet>, n: nat) returns (p: nat)
    requires n <= |src| && n % 3 == 0 && n / 3 * 4 <= dst.Length
    modifies dst
    ensures p == n / 3 * 4 && Encoded(src) == dst[..p] + Encoded(src[n..])
    ensures forall k :: p <= k < dst.Length ==> dst[k] == old(dst[k])
  {
    hide Encoded, Bits, Six, EncMap;
    var i := 0;
    p := 0;
    ghost var groups, done: nat := n / 3, 0;
    EncodedEnds(src);
    while i < n
      invariant i == 3 * done && p == 4 * done && done <= groups && n == 3 * groups
      invariant Encoded(src) == dst[..p] + Encoded(src[i..])
      invariant forall k :: p <= k < dst.Length ==> dst[k] == old(dst[k])
      modifies dst
    {
      var C1, C2, C3 := src[i], src[i + 1], src[i + 2];
      ShiftsAreSixes(C1, C2, C3);
      GroupEncodes(src, i, dst[..p]);
      Put4(dst, p, EncMap(C1 / 4 % 64), EncMap((C1 % 4 * 16 + C2 / 16) % 64), EncMap((C2 % 16 * 4 + C3 / 64) % 64),
        EncMap(C3 % 64));
      i := i + 3;
      p := p + 4;
      done := done + 1;
    }
  }

  /** One or two octets at the end, padded. */
  method EncodeEnd(dst: array<Octet>, p: nat, src: seq<Octet>, i: nat)
    requires p + 4 <= dst.Length && i < |src| <= i + 2
    modifies dst
    ensures dst[..p + 4] == old(dst[..p]) + Encoded(src[i..])
    ensures forall k :: p + 4 <= k < dst.Length ==> dst[k] == old(dst[k])
  {
    hide Encoded, Bits, Six, EncMap;
    var C1 := src[i];
    var C2 := if i + 1 < |src| then src[i + 1] else 0;
    ShiftsAreSixes(C1, C2, 0);
    EndEncodes(src[i..]);
    Put4(dst, p, EncMap(C1 / 4 % 64), EncMap((C1 % 4 * 16 + C2 / 16) % 64),
         if i + 1 < |src| then EncMap(C2 % 16 * 4 % 64) else PAD, PAD);
  }

  /**
    The encoded text and a terminator, when they fit; otherwise the room they need is reported and
    nothing is written.
   */
  method Encode(dst: array?<Octet>, dlen: nat, src: seq<Octet>) returns (ret: Option<Error>, olen: nat)
    requires |src| <= SIZE_MAX && (dst != null ==> dlen <= dst.Length)
    modifies dst
    ensures var n := EncodedSize(|src|);
      if src == [] then ret == None && olen == 0
      else if n > SIZE_MAX - 1 then ret == Some(BufferTooSmall) && olen == SIZE_MAX
      else if dst == null || dlen < n + 1 then ret == Some(BufferTooSmall) && olen == n + 1
      else ret == None && olen == n && dst[..n] == Encoded(src) && dst[n] == 0 && dst[n + 1..] == old(dst[n + 1..])
    ensures dst != null && (src == [] || ret.Some?) ==> dst[..] == old(dst[..])
  {
    hide Encoded, EncodedSize, Bits, Six, EncMap;
    if |src| == 0 {
      return None, 0;
    }
    var n := |src| / 3 + if |src| % 3 != 0 then 1 else 0;
    GroupCount(|src|, n);
    if n > (SIZE_MAX - 1) / 4 {
      return Some(BufferTooSmall), SIZE_MAX;
    }
    n := n * 4;
    if dlen < n + 1 || dst == null {
      return Some(BufferTooSmall), n + 1;
    }
    n := |src| / 3 * 3;
    var i := n;
    var p := EncodeGroups(dst, src, n);
    if i < |src| {
      EncodeEnd(dst, p, src, i);
      p := p + 4;
    } else {
      assert src[n..] == [];
      EncodedEnds(src);
    }
    assert p == EncodedSize(|src|) && dst[..p] == Encoded(src);
    assert dst[p + 1..] == old(dst[p + 1..]);
    PutEnd(dst, p);
    return None, p;
  }

  method PutEnd(dst: array<Octet>, p: nat)
    requires p < dst.Length
    modifies dst
    ensures dst[..p] == old(dst[..p]) && dst[p] == 0 && dst[p + 1..] == old(dst[p + 1..])
  {
    dst[p] := 0;
  }

  lemma GroupCount(len: nat, n: nat)
    requires n == len / 3 + if len % 3 != 0 then 1 else 0
    ensures n * 4 == EncodedSize(len)
    ensures n > (SIZE_MAX - 1) / 4 <==> n * 4 > SIZE_MAX - 1
    ensures len % 3 == 0 ==> len / 3 * 3 == len && len / 3 * 4 == n * 4
    ensures len % 3 != 0 ==> len / 3 * 3 < len <= len / 3 * 3 + 2 && len / 3 * 4 + 4 == n * 4
    ensures len / 3 * 3 % 3 == 0 && len / 3 * 3 / 3 == len / 3
  {
  }

  lemma EncodedEnds(src: seq<Octet>)
    ensures Encoded(src) == [] + Encoded(src[0..])
    ensures Encoded([]) == []
  {
    assert src[0..] == src;
  }

  lemma GroupEncodes(src: seq<Octet>, i: nat, done: seq<Octet>)
    requires i + 3 <= |src| && Encoded(src) == done + Encoded(src[i..])
    ensures var v := Bits(src[i], src[i + 1], src[i + 2]);
      Encoded(src) == done + [EncMap(Six(v, 0)), EncMap(Six(v, 1)), EncMap(Six(v, 2)), EncMap(Six(v, 3))]
        + Encoded(src[i + 3..])
  {
    hide Encoded, Bits, Six, EncMap;
    EncodedLong(src[i..]);
    assert src[i..][3..] == src[i + 3..];
  }

  lemma EndEncodes(rest: seq<Octet>)
    requires |rest| == 1 || |rest| == 2
    ensures |rest| == 1 ==> var v := Bits(rest[0], 0, 0);
      Encoded(rest) == [EncMap(Six(v, 0)), EncMap(Six(v, 1)), PAD, PAD]
    ensures |rest| == 2 ==> var v := Bits(rest[0], rest[1], 0);
      Encoded(rest) == [EncMap(Six(v, 0)), EncMap(Six(v, 1)), EncMap(Six(v, 2)), PAD]
  {
  }

  // ---------- which texts are decoded ----------

  predicate White(c: Octet) {
    c == SPACE || c == CR || c == LF
  }

  /** The text without its white space. */
  function Significant(s: seq<Octet>): seq<Octet> {
    if |s| == 0 then [] else if White(s[0]) then Significant(s[1..]) else [s[0]] + Significant(s[1..])
  }

  /** Spaces stand only before a line end or the end of the text, and a carriage return only before a line feed. */
  predicate LinesOk(s: seq<Octet>) {
    |s| == 0 ||
    (&& (s[0] == CR ==> |s| > 1 && s[1] == LF)
     && (s[0] == SPACE && |s| > 1 ==> White(s[1]))
     && LinesOk(s[1..]))
  }

  /** Digits, then padding, at most two with the j already seen. */
  predicate PadForm(s: seq<Octet>, j: nat) {
    |s| == 0 || (if s[0] == PAD then j < 2 && PadForm(s[1..], j + 1) else j == 0 && Digit(s[0]) && PadForm(s[1..], 0))
  }

  predicate Accepted(s: seq<Octet>) {
    LinesOk(s) && PadForm(Significant(s), 0)
  }

  function Spaces(s: seq<Octet>): (x: nat)
    ensures x <= |s| && (x < |s| ==> s[x] != SPACE) && forall i :: 0 <= i < x ==> s[i] == SPACE
  {
    if |s| > 0 && s[0] == SPACE then 1 + Spaces(s[1..]) else 0
  }

  datatype Step = Finish | LineEnd | Wrong | Counted(j: nat)

  /** What the first pass makes of the character behind x spaces, with j pads seen. */
  function Judge(t: seq<Octet>, x: nat, j: nat): Step {
    if t == [] then Finish
    else if |t| >= 2 && t[0] == CR && t[1] == LF then LineEnd
    else if t[0] == LF then LineEnd
    else if x != 0 then Wrong
    else
      var j' := if t[0] == PAD then j + 1 else j;
      if (t[0] == PAD && j' > 2) || !Allowed(t[0]) || (Digit(t[0]) && j' != 0) then Wrong else Counted(j')
  }

  /** The first pass: the significant characters and the padding counted, or None at the first wrong character. */
  function FirstPass(s: seq<Octet>, n: nat, j: nat): Option<(nat, nat)>
    decreases |s|
  {
    var t := s[Spaces(s)..];
    match Judge(t, Spaces(s), j)
    case Finish => Some((n, j))
    case LineEnd => FirstPass(t[1..], n, j)
    case Wrong => None
    case Counted(j') => FirstPass(t[1..], n + 1, j')
  }

  lemma {:induction false} AfterSpaces(s: seq<Octet>)
    ensures Significant(s) == Significant(s[Spaces(s)..])
    ensures LinesOk(s) <==> LinesOk(s[Spaces(s)..]) && (Spaces(s) == 0 || Spaces(s) == |s| || White(s[Spaces(s)]))
  {
    var x := Spaces(s);
    if x == 0 {
      assert s[0..] == s;
    } else {
      AfterSpaces(s[1..]);
      assert s[1..][x - 1..] == s[x..];
    }
  }

  lemma AfterOne(t: seq<Octet>)
    requires t != [] && t[0] != SPACE
    ensures Significant(t) == if White(t[0]) then Significant(t[1..]) else [t[0]] + Significant(t[1..])
    ensures LinesOk(t) <==> LinesOk(t[1..]) && (t[0] == CR ==> |t| > 1 && t[1] == LF)
  {
  }

  lemma {:induction false} PadsFront(c: Octet, s: seq<Octet>)
    ensures Pads([c] + s) == (if c == PAD then 1 else 0) + Pads(s)
  {
    if s == [] {
      assert [c] + s == [c] && [c][..0] == [];
    } else {
      PadsFront(c, s[..|s| - 1]);
      assert ([c] + s)[..|s|] == [c] + s[..|s| - 1];
    }
  }

  lemma OtherCharacters(c: Octet)
    requires !White(c)
    ensures Allowed(c) <==> c == PAD || Digit(c)
    ensures Digit(c) ==> c != PAD
    ensures !Allowed(CR) && !Allowed(SPACE) && !Allowed(LF)
  {
  }

  lemma JudgedFinish(t: seq<Octet>, x: nat, j: nat)
    ensures Judge(t, x, j) == Finish <==> t == []
  {
  }

  lemma Judged(t: seq<Octet>, x: nat, j: nat)
    requires t != [] && t[0] != SPACE
    ensures White(t[0]) ==> Judge(t, x, j) == if t[0] == CR ==> |t| > 1 && t[1] == LF then LineEnd else Wrong
    ensures !White(t[0]) && x != 0 ==> Judge(t, x, j) == Wrong
    ensures t[0] == PAD && x == 0 ==> Judge(t, x, j) == if j < 2 then Counted(j + 1) else Wrong
    ensures !White(t[0]) && t[0] != PAD && x == 0 ==>
      Judge(t, x, j) == if Digit(t[0]) && j == 0 then Counted(0) else Wrong
  {
    OtherCharacters(if White(t[0]) then PAD else t[0]);
  }

  lemma PadFormStep(c: Octet, s: seq<Octet>, j: nat)
    ensures PadForm([c] + s, j) <==>
      if c == PAD then j < 2 && PadForm(s, j + 1) else j == 0 && Digit(c) && PadForm(s, 0)
  {
    assert ([c] + s)[1..] == s;
  }

  /** A well-formed text's characters and padding, counted on from n and j. */
  function Verdict(s: seq<Octet>, n: nat, j: nat): Option<(nat, nat)> {
    if LinesOk(s) && PadForm(Significant(s), j) then Some((n + |Significant(s)|, j + Pads(Significant(s)))) else None
  }

  lemma VerdictAfterSpaces(s: seq<Octet>, n: nat, j: nat)
    ensures var x := Spaces(s);
      Verdict(s, n, j) == if x == 0 || x == |s| || White(s[x]) then Verdict(s[x..], n, j) else None
  {
    hide LinesOk, Significant, Pads, PadForm, Spaces;
    AfterSpaces(s);
    SpacesEnd(s);
  }

  lemma VerdictStep(t: seq<Octet>, n: nat, j: nat)
    requires t != [] && t[0] != SPACE && j <= 2
    ensures White(t[0]) ==>
      Verdict(t, n, j) == if t[0] == CR ==> |t| > 1 && t[1] == LF then Verdict(t[1..], n, j) else None
    ensures t[0] == PAD ==> Verdict(t, n, j) == if j < 2 then Verdict(t[1..], n + 1, j + 1) else None
    ensures !White(t[0]) && t[0] != PAD ==>
      Verdict(t, n, j) == if Digit(t[0]) && j == 0 then Verdict(t[1..], n + 1, 0) else None
  {
    hide LinesOk, Digit, Significant, Pads, PadForm;
    AfterOne(t);
    PadsFront(t[0], Significant(t[1..]));
    PadFormStep(t[0], Significant(t[1..]), j);
  }

  lemma VerdictEmpty(n: nat, j: nat)
    ensures Verdict([], n, j) == Some((n, j))
  {
  }

  /** The first pass accepts exactly the well-formed texts, and counts their characters and their padding. */
  lemma {:induction false} FirstPassIff(s: seq<Octet>, n: nat, j: nat)
    requires j <= 2
    ensures FirstPass(s, n, j) == Verdict(s, n, j)
    decreases |s|
  {
    hide Verdict, Judge, Digit, Spaces;
    VerdictAfterSpaces(s, n, j);
    SpacesEnd(s);
    var x := Spaces(s);
    var t := s[x..];
    JudgedFinish(t, x, j);
    if t == [] {
      VerdictEmpty(n, j);
    } else {
      VerdictStep(t, n, j);
      Judged(t, x, j);
      if White(t[0]) {
        FirstPassIff(t[1..], n, j);
      } else if t[0] == PAD {
        FirstPassIff(t[1..], n + 1, if j < 2 then j + 1 else 0);
      } else {
        FirstPassIff(t[1..], n + 1, 0);
      }
    }
  }

  lemma NothingLeft()
    ensures Significant([]) == [] && LinesOk([]) && Pads([]) == 0 && forall j :: PadForm([], j)
  {
  }

  lemma SpacesEnd(s: seq<Octet>)
    ensures Spaces(s) <= |s| && (Spaces(s) < |s| ==> s[Spaces(s)] != SPACE && s[Spaces(s)..][0] == s[Spaces(s)])
  {
  }

  // ---------- decoding ----------

  lemma {:induction false} PadFormAllowed(s: seq<Octet>, j: nat)
    requires PadForm(s, j) && j <= 2
    ensures forall i :: 0 <= i < |s| ==> Allowed(s[i])
    ensures j + Pads(s) <= 2
    ensures j > 0 ==> Pads(s) == |s|
  {
    hide Allowed, Digit, Pads;
    if |s| > 0 {
      OtherCharacters(if White(s[0]) then PAD else s[0]);
      PadsFront(s[0], s[1..]);
      assert [s[0]] + s[1..] == s;
      DigitsAreNoPads(s[0]);
      PadFormAllowed(s[1..], if s[0] == PAD then j + 1 else 0);
    } else {
      NothingLeft();
    }
  }

  /** The length that the first pass reports. */
  function Reported(s: seq<Octet>): int {
    (|s| * 6 + 7) / 8 - Pads(s)
  }

  lemma {:induction false} PadsConcat(a: seq<Octet>, b: seq<Octet>)
    ensures Pads(a + b) == Pads(a) + Pads(b)
  {
    if b == [] {
      assert a + b == a;
    } else {
      assert (a + b)[..|a + b| - 1] == a + b[..|b| - 1];
      PadsConcat(a, b[..|b| - 1]);
    }
  }

  lemma OctetsLength(v: nat, k: int)
    ensures |Octets(v, k)| == if k <= 0 then 0 else if k >= 3 then 3 else k
  {
  }

  /** The characters after padding are padding. */
  lemma {:induction false} PadFormTail(s: seq<Octet>, j: nat, m: nat)
    requires PadForm(s, j) && m <= |s| && j <= 2
    ensures j + Pads(s[..m]) <= 2 && PadForm(s[m..], j + Pads(s[..m])) && Pads(s) == Pads(s[..m]) + Pads(s[m..])
  {
    hide Digit, Pads;
    PadsConcat(s[..m], s[m..]);
    assert s == s[..m] + s[m..];
    if m > 0 {
      DigitsAreNoPads(s[0]);
      PadFormTail(s[1..], if s[0] == PAD then j + 1 else 0, m - 1);
      PadsFront(s[0], s[1..][..m - 1]);
      assert s[..m] == [s[0]] + s[1..][..m - 1];
      assert s[1..][m - 1..] == s[m..];
    } else {
      assert s[..0] == [] && s[0..] == s;
      NothingLeft();
    }
  }

  /** The second pass writes at most the reported length, and exactly that for whole groups of four. */
  lemma {:induction false} WithinReported(s: seq<Octet>, j: nat)
    requires PadForm(s, j) && j <= 2 && forall i :: 0 <= i < |s| ==> Allowed(s[i])
    ensures |Decoded(s, 3 - j)| <= Reported(s)
    ensures |s| % 4 == 0 ==> |Decoded(s, 3 - j)| == Reported(s)
    decreases |s|
  {
    hide Allowed, PadForm, Pads, Octets, GroupBits;
    PadFormAllowed(s, j);
    if |s| < 4 {
      PadsBound(s);
    } else {
      PadFormTail(s, j, 4);
      PadsBound(s[..4]);
      var p := Pads(s[..4]);
      if j == 0 {
        WithinReported(s[4..], p);
        OctetsLength(GroupBits(s[0], s[1], s[2], s[3]), 3 - p);
      }
    }
  }

  lemma {:induction false} PadsBound(s: seq<Octet>)
    ensures Pads(s) <= |s|
  {
    if |s| > 0 {
      PadsBound(s[..|s| - 1]);
    }
  }

  /** 64 to the power n, for a group's n digits. */
  function Weight(n: nat): nat
    requires n <= 4
  {
    match n
    case 0 => 1
    case 1 => 64
    case 2 => 4096
    case 3 => 262144
    case _ => 16777216
  }

  /** Shifting six more bits into the 32-bit accumulator. */
  function ShiftIn(x: nat, v: int): (r: nat)
    requires x < TWO32 && 0 <= v < 64
    ensures r < TWO32
  {
    LowBitsClear(x);
    x * 64 % TWO32 + v
  }

  lemma LowBitsClear(x: nat)
    ensures x * 64 % TWO32 == x % 67108864 * 64
  {
    Divided(x * 64, TWO32, x / 67108864, x % 67108864 * 64);
  }

  /** The low bits after the shift, whatever was shifted out at the top. */
  lemma ShiftInLow(x: nat, v: int, n: nat)
    requires x < TWO32 && 0 <= v < 64 && n < 4
    ensures ShiftIn(x, v) % Weight(n + 1) == x % Weight(n) * 64 + v
  {
    LowBitsClear(x);
    var y := x % 67108864;
    match n
    case 0 => Divided(y * 64 + v, 64, y, v);
    case 1 =>
      Divided(y * 64 + v, 4096, y / 64, y % 64 * 64 + v);
      SameLow(x, 67108864, 64);
    case 2 =>
      Divided(y * 64 + v, 262144, y / 4096, y % 4096 * 64 + v);
      SameLow(x, 67108864, 4096);
    case _ =>
      Divided(y * 64 + v, 16777216, y / 262144, y % 262144 * 64 + v);
      SameLow(x, 67108864, 262144);
  }

  lemma SameLow(x: nat, m: nat, n: nat)
    requires (m == 67108864 && (n == 64 || n == 4096 || n == 262144)) || (m == 16777216 && (n == 256 || n == 65536))
    ensures x % m % n == x % n
  {
    if n == 64 {
      Divided(x, 64, x / m * 1048576 + x % m / 64, x % m % 64);
    } else if n == 4096 {
      Divided(x, 4096, x / m * 16384 + x % m / 4096, x % m % 4096);
    } else if n == 262144 {
      Divided(x, 262144, x / m * 256 + x % m / 262144, x % m % 262144);
    } else if n == 256 {
      Divided(x, 256, x / m * 65536 + x % m / 256, x % m % 256);
    } else {
      Divided(x, 65536, x / m * 256 + x % m / 65536, x % m % 65536);
    }
  }

  /** The three octets cut from the accumulator are those of its low 24 bits. */
  lemma OctetsOfAccumulator(x: nat)
    ensures var v := x % 16777216;
      x / 65536 % 256 == OctetOf(v, 0) && x / 256 % 256 == OctetOf(v, 1) && x % 256 == OctetOf(v, 2)
  {
    var q, v := x / 16777216, x % 16777216;
    Divided(x, 65536, q * 256 + v / 65536, v % 65536);
    Divided(q * 256 + v / 65536, 256, q, v / 65536);
    Divided(x, 256, q * 65536 + v / 256, v % 256);
    Divided(q * 65536 + v / 256, 256, q * 256 + v / 256 / 256, v / 256 % 256);
    SameLow(x, 16777216, 256);
  }

  function Val(s: seq<Octet>): (v: nat)
    requires forall i :: 0 <= i < |s| ==> Allowed(s[i])
  {
    if |s| == 0 then 0 else Val(s[..|s| - 1]) * 64 + DigitValue(s[|s| - 1])
  }

  lemma ValOfFour(g: seq<Octet>)
    requires |g| == 4 && forall i :: 0 <= i < |g| ==> Allowed(g[i])
    ensures Val(g) == GroupBits(g[0], g[1], g[2], g[3])
  {
    hide Allowed, DigitValue;
    assert g[..4] == g && g[..4][..3] == g[..3] && g[..3][..2] == g[..2] && g[..2][..1] == g[..1] && g[..1][..0] == [];
    assert Val(g[..1]) == DigitValue(g[0]);
    assert Val(g[..2]) == Val(g[..1]) * 64 + DigitValue(g[1]);
    assert Val(g[..3]) == Val(g[..2]) * 64 + DigitValue(g[2]);
  }

  /** A whole group leaves the accumulator and the text. */
  lemma GroupLeaves(g: seq<Octet>, rest: seq<Octet>, left: int)
    requires |g| == 4 && 1 <= left <= 3 && PadForm(g + rest, 3 - left)
    ensures (forall i :: 0 <= i < |g| ==> Allowed(g[i])) && (forall i :: 0 <= i < |rest| ==> Allowed(rest[i]))
    ensures forall i :: 0 <= i < |g + rest| ==> Allowed((g + rest)[i])
    ensures var k := left - Pads(g);
      1 <= k <= 3 && PadForm(rest, 3 - k)
        && Decoded(g + rest, left) == Octets(GroupBits(g[0], g[1], g[2], g[3]), k) + Decoded(rest, k)
  {
    hide Allowed, PadForm, Pads, Octets, GroupBits;
    PadFormAllowed(g + rest, 3 - left);
    PadFormTail(g + rest, 3 - left, 4);
    assert (g + rest)[..4] == g && (g + rest)[4..] == rest;
    assert forall i :: 0 <= i < |g| ==> g[i] == (g + rest)[i];
    assert forall i :: 0 <= i < |rest| ==> rest[i] == (g + rest)[i + 4];
  }

  method FirstPassLoop(src: seq<Octet>) returns (ok: bool, n: nat, j: nat)
    ensures FirstPass(src, 0, 0) == if ok then Some((n, j)) else None
  {
    hide Judge, Spaces, FirstPass;
    var i := 0;
    n, j := 0, 0;
    assert src[0..] == src;
    while i < |src|
      invariant 0 <= i <= |src|
      invariant FirstPass(src, 0, 0) == FirstPass(src[i..], n, j)
      decreases |src| - i
    {
      ghost var start := i;
      var x: nat;
      i, x := SkipSpaces(src, i);
      assert src[start..][x..] == src[i..] && (i < |src| ==> src[i..][1..] == src[i + 1..]);
      var step := Examine(src, i, x, j);
      JudgedFinish(src[i..], x, j);
      FirstPassStep(src[start..], n, j);
      if step == Finish {
        return true, n, j;
      } else if step == Wrong {
        return false, n, j;
      } else if step != LineEnd {
        j := step.j;
        n := n + 1;
      }
      i := i + 1;
    }
    assert src[i..] == [];
    EmptyPasses(n, j);
    return true, n, j;
  }

  lemma FirstPassStep(s: seq<Octet>, n: nat, j: nat)
    ensures var t := s[Spaces(s)..];
      FirstPass(s, n, j) ==
        match Judge(t, Spaces(s), j)
        case Finish => Some((n, j))
        case LineEnd => FirstPass(t[1..], n, j)
        case Wrong => None
        case Counted(j') => FirstPass(t[1..], n + 1, j')
  {
    hide Judge, Spaces;
  }

  lemma EmptyPasses(n: nat, j: nat)
    ensures FirstPass([], n, j) == Some((n, j))
  {
  }

  /** The tests on the character behind the spaces, in their order. */
  method Examine(src: seq<Octet>, i: nat, x: nat, j0: nat) returns (step: Step)
    requires i <= |src|
    ensures step == Judge(src[i..], x, j0)
  {
    var j := j0;
    // trailing spaces do no harm
    if i == |src| {
      return Finish;
    }
    if |src| - i >= 2 && src[i] == CR && src[i + 1] == LF {
      return LineEnd;
    }
    if src[i] == LF {
      return LineEnd;
    }
    // spaces may stand only before a line end
    if x != 0 {
      return Wrong;
    }
    if src[i] == PAD {
      j := j + 1;
      if j > 2 {
        return Wrong;
      }
    }
    if src[i] > 127 || DecMap(src[i]) == 127 {
      return Wrong;
    }
    if DecMap(src[i]) < 64 && j != 0 {
      return Wrong;
    }
    return Counted(j);
  }

  method SkipSpaces(src: seq<Octet>, start: nat) returns (i: nat, x: nat)
    requires start <= |src|
    ensures start <= i <= |src| && x == i - start == Spaces(src[start..]) && (i < |src| ==> src[i] != SPACE)
  {
    i, x := start, 0;
    while i < |src| && src[i] == SPACE
      invariant start <= i <= |src| && x == i - start && Spaces(src[start..]) == x + Spaces(src[i..])
    {
      assert src[i..][1..] == src[i + 1..];
      i := i + 1;
      x := x + 1;
    }
  }

  /** The octets of a group that are not padding. */
  method PutOctets(dst: array<Octet>, p0: nat, x: nat, j: int) returns (p: nat)
    requires 1 <= j <= 3 && p0 + j <= dst.Length
    modifies dst
    ensures p == p0 + j && dst[..p] == old(dst[..p0]) + Octets(x % 16777216, j)
    ensures forall k :: p <= k < dst.Length ==> dst[k] == old(dst[k])
  {
    OctetsOfAccumulator(x);
    hide OctetOf;
    p := p0;
    if j > 0 {
      dst[p] := x / 65536 % 256;
      p := p + 1;
    }
    if j > 1 {
      dst[p] := x / 256 % 256;
      p := p + 1;
    }
    if j > 2 {
      dst[p] := x % 256;
      p := p + 1;
    }
  }

  predicate AllAllowed(s: seq<Octet>) {
    forall i :: 0 <= i < |s| ==> Allowed(s[i])
  }

  /**
    What the loop over the text knows: the group so far, the text still to read, and the octets each
    group has left.
   */
  ghost predicate Reading(group: seq<Octet>, rest: seq<Octet>, left: int, n: nat, j: int, x: nat) {
    && |group| == n < 4 && 1 <= left <= 3 && x < TWO32
    && PadForm(group + Significant(rest), 3 - left)
    && j == left - Pads(group)
    && (forall i :: 0 <= i < |group| ==> Allowed(group[i]))
    && x % Weight(n) == Val(group)
  }

  lemma WhiteRead(group: seq<Octet>, rest: seq<Octet>, left: int, n: nat, j: int, x: nat)
    requires Reading(group, rest, left, n, j, x) && rest != [] && White(rest[0])
    ensures Reading(group, rest[1..], left, n, j, x) && Significant(rest) == Significant(rest[1..])
  {
  }

  /** A significant character joins the group. */
  lemma CharacterJoins(group: seq<Octet>, rest: seq<Octet>, left: int, n: nat, j: int, x: nat)
    requires Reading(group, rest, left, n, j, x) && rest != [] && !White(rest[0])
    ensures var c := rest[0];
      && c < 128 && Allowed(c)
      && group + Significant(rest) == group + [c] + Significant(rest[1..])
      && PadForm(group + [c] + Significant(rest[1..]), 3 - left)
      && (if DecMap(c) == 64 then j - 1 else j) == left - Pads(group + [c])
  {
    hide PadForm, Allowed, Pads, Val, Weight, DigitValue, Significant, DecMap;
    var c := rest[0];
    var g := group + [c];
    SignificantHead(rest);
    assert group + Significant(rest) == g + Significant(rest[1..]);
    AllowedBound(c);
    PadFormAllowed(group + Significant(rest), 3 - left);
    assert (g + Significant(rest[1..]))[n] == c;
    PadsConcat(group, [c]);
    PadsOfOne(c);
  }

  lemma SignificantHead(rest: seq<Octet>)
    requires rest != [] && !White(rest[0])
    ensures Significant(rest) == [rest[0]] + Significant(rest[1..])
  {
  }

  lemma AllowedBound(c: Octet)
    ensures Allowed(c) ==> c < 128
  {
  }

  /** Its six bits go into the accumulator. */
  lemma CharacterShifts(group: seq<Octet>, rest: seq<Octet>, left: int, n: nat, j: int, x: nat, c: Octet)
    requires Reading(group, rest, left, n, j, x) && Allowed(c)
    ensures AllAllowed(group + [c]) && x < TWO32 && n < 4
      && ShiftIn(x, DigitValue(c)) % Weight(n + 1) == Val(group + [c])
  {
    hide PadForm, Allowed, Pads, ShiftIn, Weight, DigitValue, Val, Significant;
    ShiftInLow(x, DigitValue(c), n);
    ValMore(group, c);
  }

  lemma PadsOfOne(c: Octet)
    requires Allowed(c)
    ensures Pads([c]) == if DecMap(c) == 64 then 1 else 0
  {
    assert [c][..0] == [];
  }

  lemma ValMore(group: seq<Octet>, c: Octet)
    requires Allowed(c) && forall i :: 0 <= i < |group| ==> Allowed(group[i])
    ensures forall i :: 0 <= i < |group + [c]| ==> Allowed((group + [c])[i])
    ensures Val(group + [c]) == Val(group) * 64 + DigitValue(c)
  {
    assert (group + [c])[..|group|] == group;
  }

  /** The octets written and those of the text still to be decoded are all the octets. */
  ghost predicate Waiting(done: seq<Octet>, text: seq<Octet>, left: int, all: seq<Octet>) {
    AllAllowed(text) && AllAllowed(all) && Decoded(all, 3) == done + Decoded(text, left)
  }

  lemma ReadingStarts(src: seq<Octet>)
    requires Accepted(src)
    ensures src[0..] == src && Reading([], src, 3, 0, 3, 0)
    ensures Waiting([], [] + Significant(src), 3, Significant(src))
  {
    hide Allowed;
    PadFormAllowed(Significant(src), 0);
    assert [] + Significant(src) == Significant(src);
  }

  lemma StillReading(group: seq<Octet>, rest: seq<Octet>, left: int, n: nat, j: int, x: nat)
    requires |group| == n < 4 && 1 <= left <= 3 && x < TWO32 && PadForm(group + Significant(rest), 3 - left)
    requires j == left - Pads(group) && AllAllowed(group) && x % Weight(n) == Val(group)
    ensures Reading(group, rest, left, n, j, x)
  {
  }

  /** A whole group is written. */
  lemma GroupWritten(done: seq<Octet>, group: seq<Octet>, rest: seq<Octet>, left: int, all: seq<Octet>, j: int, x: nat)
    requires |group| == 4 && 1 <= left <= 3 && x < TWO32 && PadForm(group + Significant(rest), 3 - left)
    requires j == left - Pads(group) && AllAllowed(group) && x % Weight(4) == Val(group)
    requires Waiting(done, group + Significant(rest), left, all)
    ensures 1 <= j <= 3 && |done| + j <= |Decoded(all, 3)|
    ensures Reading([], rest, j, 0, j, x)
    ensures Waiting(done + Octets(x % 16777216, j), [] + Significant(rest), j, all)
  {
    hide Allowed, PadForm, Decoded, Octets, GroupBits;
    GroupLeaves(group, Significant(rest), left);
    ValOfFour(group);
    OctetsLength(x % 16777216, j);
    assert [] + Significant(rest) == Significant(rest);
    assert done + (Octets(x % 16777216, j) + Decoded(Significant(rest), j))
      == done + Octets(x % 16777216, j) + Decoded(Significant(rest), j);
  }

  /** Fewer than four characters at the end give no octets. */
  lemma LastWaiting(done: seq<Octet>, group: seq<Octet>, left: int, all: seq<Octet>)
    requires |group| < 4 && Waiting(done, group + Significant([]), left, all)
    ensures done == Decoded(all, 3)
  {
    assert group + Significant([]) == group;
  }

  method SecondPass(dst: array<Octet>, src: seq<Octet>) returns (p: nat)
    requires Accepted(src) && AllAllowed(Significant(src))
    requires |Decoded(Significant(src), 3)| <= dst.Length
    modifies dst
    ensures p == |Decoded(Significant(src), 3)| && dst[..p] == Decoded(Significant(src), 3)
    ensures forall k :: p <= k < dst.Length ==> dst[k] == old(dst[k])
  {
    hide PadForm, Allowed, Pads, ShiftIn, Weight, DigitValue, Val, Reading, Significant, Decoded, GroupBits, DecMap,
      Octets;
    ghost var group: seq<Octet> := [];
    ghost var left := 3;
    var j, n: nat, x: nat := 3, 0, 0;
    var i := 0;
    p := 0;
    ReadingStarts(src);
    while i < |src|
      invariant 0 <= i <= |src| && Reading(group, src[i..], left, n, j, x) && |group| == n < 4 && 1 <= left <= 3
        && x < TWO32
      invariant p <= dst.Length && Waiting(dst[..p], group + Significant(src[i..]), left, Significant(src))
      invariant forall k :: p <= k < dst.Length ==> dst[k] == old(dst[k])
      modifies dst
    {
      ghost var rest := src[i..];
      assert rest[0] == src[i] && rest[1..] == src[i + 1..];
      if src[i] == CR || src[i] == LF || src[i] == SPACE {
        WhiteRead(group, rest, left, n, j, x);
        i := i + 1;
        continue;
      }
      CharacterJoins(group, rest, left, n, j, x);
      CharacterShifts(group, rest, left, n, j, x, src[i]);
      j := if DecMap(src[i]) == 64 then j - 1 else j;
      x := ShiftIn(x, DigitValue(src[i]));
      group := group + [src[i]];
      n := n + 1;
      i := i + 1;
      if n == 4 {
        n := 0;
        ghost var done := dst[..p];
        GroupWritten(done, group, src[i..], left, Significant(src), j, x);
        p := PutOctets(dst, p, x, j);
        left := j;
        group := [];
      } else {
        StillReading(group, src[i..], left, n, j, x);
      }
    }
    assert src[i..] == [];
    LastWaiting(dst[..p], group, left, Significant(src));
  }

  lemma AcceptedText(src: seq<Octet>)
    ensures Accepted(src) <==> FirstPass(src, 0, 0).Some?
    ensures Accepted(src) ==> FirstPass(src, 0, 0).value == (|Significant(src)|, Pads(Significant(src)))
    ensures Accepted(src) ==>
      AllAllowed(Significant(src)) && |Decoded(Significant(src), 3)| <= Reported(Significant(src))
  {
    hide LinesOk, Allowed, Significant, Pads, PadForm, FirstPass;
    FirstPassIff(src, 0, 0);
    if Accepted(src) {
      PadFormAllowed(Significant(src), 0);
      WithinReported(Significant(src), 0);
    }
  }

  /**
    A text that is not well-formed is refused; otherwise its octets are written when the reported
    length fits. The second pass never goes beyond that length.
   */
  method Decode(dst: array?<Octet>, dlen: nat, olen0: nat, src: seq<Octet>) returns (ret: Option<Error>, olen: nat)
    requires dst != null ==> dlen <= dst.Length
    modifies dst
    ensures !Accepted(src) ==> ret == Some(InvalidCharacter) && olen == olen0
    ensures Accepted(src) && Significant(src) == [] ==> ret == None && olen == 0
    ensures Accepted(src) && Significant(src) != [] ==>
      AllAllowed(Significant(src)) &&
      if dst == null || dlen < Reported(Significant(src)) then
        ret == Some(BufferTooSmall) && olen == Reported(Significant(src))
      else ret == None && olen <= dlen && dst[..olen] == Decoded(Significant(src), 3) && dst[olen..] == old(dst[olen..])
    ensures dst != null && (ret.Some? || Significant(src) == []) ==> dst[..] == old(dst[..])
  {
    hide Accepted, Significant, Allowed, Decoded, FirstPass, Pads;
    AcceptedText(src);
    var ok, n, j := FirstPassLoop(src);
    if !ok {
      return Some(InvalidCharacter), olen0;
    }
    if n == 0 {
      return None, 0;
    }
    n := (n * 6 + 7) / 8;
    n := n - j;
    if dst == null || dlen < n {
      return Some(BufferTooSmall), n;
    }
    olen := SecondPass(dst, src);
    return None, olen;
  }

  // ---------- the round trip ----------

  /** Nothing but line ends, each a line feed or a carriage return and a line feed. */
  predicate LineEnds(s: seq<Octet>) {
    |s| == 0 || (s[0] == LF && LineEnds(s[1..])) || (|s| > 1 && s[0] == CR && s[1] == LF && LineEnds(s[2..]))
  }

  type LineBreak = s: seq<Octet> | LineEnds(s)

  /** text from its i-th character on with breaks(k) before the k-th character and one more behind the last. */
  function WithBreaks(text: seq<Octet>, breaks: nat -> LineBreak, i: nat): seq<Octet>
    requires i <= |text|
    decreases |text| - i
  {
    breaks(i) + if i == |text| then [] else [text[i]] + WithBreaks(text, breaks, i + 1)
  }

  lemma {:induction false} BreakSkipped(b: seq<Octet>, rest: seq<Octet>)
    requires LineEnds(b)
    ensures Significant(b + rest) == Significant(rest) && (LinesOk(b + rest) <==> LinesOk(rest))
  {
    if b == [] {
      assert b + rest == rest;
    } else if b[0] == LF {
      BreakSkipped(b[1..], rest);
      assert (b + rest)[1..] == b[1..] + rest;
    } else {
      BreakSkipped(b[2..], rest);
      assert (b + rest)[1..][1..] == b[2..] + rest;
      AfterOne(b + rest);
      AfterOne((b + rest)[1..]);
    }
  }

  lemma {:induction false} BreaksInsignificant(text: seq<Octet>, breaks: nat -> LineBreak, i: nat)
    requires i <= |text| && forall k :: 0 <= k < |text| ==> !White(text[k])
    ensures Significant(WithBreaks(text, breaks, i)) == text[i..] && LinesOk(WithBreaks(text, breaks, i))
    decreases |text| - i
  {
    if i == |text| {
      BreakSkipped(breaks(i), []);
    } else {
      var rest := WithBreaks(text, breaks, i + 1);
      BreaksInsignificant(text, breaks, i + 1);
      BreakSkipped(breaks(i), [text[i]] + rest);
      AfterOne([text[i]] + rest);
      assert ([text[i]] + rest)[1..] == rest;
      assert text[i..] == [text[i]] + text[i + 1..];
    }
  }

  lemma AllowedIsNotWhite(c: Octet)
    ensures Allowed(c) ==> !White(c)
  {
  }

  /** The encoded text is digits, then at most two pads. */
  lemma {:induction false} EncodedForm(data: seq<Octet>)
    ensures PadForm(Encoded(data), 0)
    decreases |data|
  {
    hide Six, EncMap, Bits, DecMap, Digit;
    if |data| == 1 {
      EncodedGroup(data[0], 0, 0);
      FourForm(Encoded(data), []);
    } else if |data| == 2 {
      EncodedGroup(data[0], data[1], 0);
      FourForm(Encoded(data), []);
    } else if |data| >= 3 {
      EncodedGroup(data[0], data[1], data[2]);
      EncodedForm(data[3..]);
      EncodedLong(data);
      var g := Encoded(data)[..4];
      assert Encoded(data) == g + Encoded(data[3..]);
      FourForm(g, Encoded(data[3..]));
    }
  }

  lemma NoMorePads()
    ensures PadForm([], 1) && PadForm([], 2)
  {
  }

  lemma FourForm(g: seq<Octet>, rest: seq<Octet>)
    requires |g| == 4 && Digit(g[0]) && Digit(g[1]) && PadForm(rest, 0)
    requires (Digit(g[2]) && Digit(g[3])) || (rest == [] && g[3] == PAD && (Digit(g[2]) || g[2] == PAD))
    ensures PadForm(g + rest, 0) && g + [] == g
  {
    hide Digit, PadForm;
    DigitsAreNoPads(g[0]);
    DigitsAreNoPads(g[1]);
    DigitsAreNoPads(g[2]);
    DigitsAreNoPads(g[3]);
    NoMorePads();
    PadFormStep(g[3], rest, if g[2] == PAD then 1 else 0);
    PadFormStep(g[2], [g[3]] + rest, 0);
    PadFormStep(g[1], [g[2]] + ([g[3]] + rest), 0);
    PadFormStep(g[0], [g[1]] + ([g[2]] + ([g[3]] + rest)), 0);
    assert g + rest == [g[0]] + ([g[1]] + ([g[2]] + ([g[3]] + rest)));
  }

  /**
    Decoding what was encoded gives the data back, also when line ends were put in anywhere; the
    reported length is then exactly the length of the data.
   */
  lemma RoundTrip(data: seq<Octet>, breaks: nat -> LineBreak)
    ensures var text := WithBreaks(Encoded(data), breaks, 0);
      && Accepted(text) && AllAllowed(Significant(text))
      && Decoded(Significant(text), 3) == data && Reported(Significant(text)) == |data|
  {
    hide Allowed, Encoded, Decoded, PadForm, LinesOk, Significant, White, LineEnds, WithBreaks, Pads, Reported;
    DecodedEncoded(data);
    EncodedForm(data);
    forall i | 0 <= i < |Encoded(data)| ensures !White(Encoded(data)[i]) {
      AllowedIsNotWhite(Encoded(data)[i]);
    }
    BreaksInsignificant(Encoded(data), breaks, 0);
    assert Encoded(data)[0..] == Encoded(data);
    WithinReported(Encoded(data), 0);
  }
}
