/** MD5 as sections 3.1 to 3.5 of RFC 1321 define it. */
module Rfc1321 {
  import opened Words
  import opened BlockHash

  datatype Quad = Quad(a: bv32, b: bv32, c: bv32, d: bv32)

  function F(x: bv32, y: bv32, z: bv32): bv32 { (x & y) | (!x & z) }

  function G(x: bv32, y: bv32, z: bv32): bv32 { (x & z) | (y & !z) }

  function H(x: bv32, y: bv32, z: bv32): bv32 { x ^ y ^ z }

  function I(x: bv32, y: bv32, z: bv32): bv32 { y ^ (x | !z) }

  /** The auxiliary functions of section 3.4, by round. */
  function Auxiliary(round: nat, x: bv32, y: bv32, z: bv32): bv32 {
    if round == 0 then F(x, y, z)
    else if round == 1 then G(x, y, z)
    else if round == 2 then H(x, y, z)
    else I(x, y, z)
  }

  function RotateLeft32(x: bv32, n: nat): bv32
    requires n < 32
  {
    (x << n) | (x >> (32 - n))
  }

  /** Which message word step i of a round reads. */
  function WordIndex(round: nat, i: nat): (k: nat)
    ensures k < 16
  {
    if round == 0 then i % 16
    else if round == 1 then (5 * i + 1) % 16
    else if round == 2 then (3 * i + 5) % 16
    else 7 * i % 16
  }

  function ShiftCount(round: nat, i: nat): (s: nat)
    ensures s < 32
  {
    var j := i % 4;
    if round == 0 then (if j == 0 then 7 else if j == 1 then 12 else if j == 2 then 17 else 22)
    else if round == 1 then (if j == 0 then 5 else if j == 1 then 9 else if j == 2 then 14 else 20)
    else if round == 2 then (if j == 0 then 4 else if j == 1 then 11 else if j == 2 then 16 else 23)
    else (if j == 0 then 6 else if j == 1 then 10 else if j == 2 then 15 else 21)
  }

  /** The sine table T of section 3.4, sixteen entries a round. */
  function SineRow(round: nat): (t: seq<bv32>)
    ensures |t| == 16
  {
    if round == 0 then
      [0xD76AA478, 0xE8C7B756, 0x242070DB, 0xC1BDCEEE, 0xF57C0FAF, 0x4787C62A, 0xA8304613, 0xFD469501,
       0x698098D8, 0x8B44F7AF, 0xFFFF5BB1, 0x895CD7BE, 0x6B901122, 0xFD987193, 0xA679438E, 0x49B40821]
    else if round == 1 then
      [0xF61E2562, 0xC040B340, 0x265E5A51, 0xE9B6C7AA, 0xD62F105D, 0x02441453, 0xD8A1E681, 0xE7D3FBC8,
       0x21E1CDE6, 0xC33707D6, 0xF4D50D87, 0x455A14ED, 0xA9E3E905, 0xFCEFA3F8, 0x676F02D9, 0x8D2A4C8A]
    else if round == 2 then
      [0xFFFA3942, 0x8771F681, 0x6D9D6122, 0xFDE5380C, 0xA4BEEA44, 0x4BDECFA9, 0xF6BB4B60, 0xBEBFBC70,
       0x289B7EC6, 0xEAA127FA, 0xD4EF3085, 0x04881D05, 0xD9D4D039, 0xE6DB99E5, 0x1FA27CF8, 0xC4AC5665]
    else
      [0xF4292244, 0x432AFF97, 0xAB9423A7, 0xFC93A039, 0x655B59C3, 0x8F0CCC92, 0xFFEFF47D, 0x85845DD1,
       0x6FA87E4F, 0xFE2CE6E0, 0xA3014314, 0x4E0811A1, 0xF7537E82, 0xBD3AF235, 0x2AD7D2BB, 0xEB86D391]
  }

  function MessageWord(m: Block, k: nat): bv32
    requires k < 16
  {
    WordLE(m[4 * k], m[4 * k + 1], m[4 * k + 2], m[4 * k + 3])
  }

  /** a = b + ((a + f(b,c,d) + X[k] + T[i]) <<< s), with the registers renamed for the next step. */
  function Operation(v: Quad, round: nat, x: bv32, s: nat, t: bv32): Quad
    requires s < 32
  {
    var sum := Plus(v.a, Plus(Plus(Auxiliary(round, v.b, v.c, v.d), x), t));
    Quad(v.d, Plus(RotateLeft32(sum, s), v.b), v.b, v.c)
  }

  /** The first i steps of a round. */
  function Steps(v: Quad, m: Block, round: nat, i: nat): Quad
    requires i <= 16
  {
    if i == 0 then v
    else Operation(Steps(v, m, round, i - 1), round, MessageWord(m, WordIndex(round, i - 1)),
                   ShiftCount(round, i - 1), SineRow(round)[i - 1])
  }

  function AddQuad(u: Quad, v: Quad): Quad {
    Quad(Plus(u.a, v.a), Plus(u.b, v.b), Plus(u.c, v.c), Plus(u.d, v.d))
  }

  function FourRounds(v: Quad, m: Block): Quad {
    Steps(Steps(Steps(Steps(v, m, 0, 16), m, 1, 16), m, 2, 16), m, 3, 16)
  }

  function Compress(v: Quad, m: Block): Quad {
    AddQuad(v, FourRounds(v, m))
  }

  function InitialRegisters(): Quad {
    Quad(0x67452301, 0xEFCDAB89, 0x98BADCFE, 0x10325476)
  }

  function Digest(v: Quad): (b: seq<bv8>)
    ensures |b| == 16
  {
    BytesLE(v.a) + BytesLE(v.b) + BytesLE(v.c) + BytesLE(v.d)
  }

  /** Sections 3.1 and 3.2, with `count` as the byte count written into the length field. */
  function PadWith(msg: seq<bv8>, count: nat): seq<bv8> {
    var bits := 8 * count;
    msg + Padding(|msg|) + (Bytes32LE(bits % TWO32) + Bytes32LE(bits / TWO32 % TWO32))
  }

  /** The last eight bytes hold the bit count modulo 2^64, least significant byte first. */
  lemma LengthField(msg: seq<bv8>, count: nat)
    ensures var p := PadWith(msg, count);
      var n := |p|;
      && n >= 8
      && Number32([p[n - 5], p[n - 6], p[n - 7], p[n - 8]]) == 8 * count % 0x1_0000_0000
      && Number32([p[n - 1], p[n - 2], p[n - 3], p[n - 4]]) == 8 * count / 0x1_0000_0000 % 0x1_0000_0000
  {
    hide Padding, Bytes32LE, Number32;
    var low, high := 8 * count % TWO32, 8 * count / TWO32 % TWO32;
    LittleEndian(low);
    LittleEndian(high);
    var p := PadWith(msg, count);
    assert p[|p| - 8..] == Bytes32LE(low) + Bytes32LE(high);
    assert forall k :: 0 <= k < 8 ==> p[|p| - 8 + k] == (Bytes32LE(low) + Bytes32LE(high))[k];
    var a, b := Bytes32LE(low), Bytes32LE(high);
    assert [p[|p| - 5], p[|p| - 6], p[|p| - 7], p[|p| - 8]] == [a[3], a[2], a[1], a[0]];
    assert [p[|p| - 1], p[|p| - 2], p[|p| - 3], p[|p| - 4]] == [b[3], b[2], b[1], b[0]];
  }

  lemma LittleEndian(n: nat)
    requires n < TWO32
    ensures |Bytes32LE(n)| == 4
    ensures var b := Bytes32LE(n); Number32([b[3], b[2], b[1], b[0]]) == n
  {
    hide Number32;
    Number32OfBytes(n);
    var b := Bytes32LE(n);
    assert [b[3], b[2], b[1], b[0]] == Bytes32BE(n);
  }

  function DigestWith(msg: seq<bv8>, count: nat): (digest: seq<bv8>)
    ensures |digest| == 16
  {
    Digest(Fold(Compress, InitialRegisters(), PadWith(msg, count)))
  }

  /** The RFC's digest: the length field holds the low 64 bits of the message's bit length. */
  function Md5(msg: seq<bv8>): (digest: seq<bv8>)
    ensures |digest| == 16
  {
    DigestWith(msg, |msg|)
  }
}
