/** SHA-256 as FIPS 180-4 defines it: sections 4.1.2, 5.1.1, 5.2.1, 5.3.3 and 6.2, and HMAC of RFC 2104. */
module Fips180 {
  import opened Bytes
  import opened Words
  import opened BlockHash

  // ---------- section 4.1.2 ----------

  function Ch(x: bv32, y: bv32, z: bv32): bv32 {
    (x & y) ^ (!x & z)
  }

  function Maj(x: bv32, y: bv32, z: bv32): bv32 {
    (x & y) ^ (x & z) ^ (y & z)
  }

  function BigSigma0(x: bv32): bv32 { x.RotateRight(2) ^ x.RotateRight(13) ^ x.RotateRight(22) }

  function BigSigma1(x: bv32): bv32 { x.RotateRight(6) ^ x.RotateRight(11) ^ x.RotateRight(25) }

  function SmallSigma0(x: bv32): bv32 { x.RotateRight(7) ^ x.RotateRight(18) ^ (x >> 3) }

  function SmallSigma1(x: bv32): bv32 { x.RotateRight(17) ^ x.RotateRight(19) ^ (x >> 10) }

  // ---------- section 4.2.2 ----------

  /** The constants, eight in a row. */
  function KRow(r: nat): (k: seq<bv32>)
    ensures |k| == 8
  {
    if r == 0 then
      [0x428A2F98, 0x71374491, 0xB5C0FBCF, 0xE9B5DBA5, 0x3956C25B, 0x59F111F1, 0x923F82A4, 0xAB1C5ED5]
    else if r == 1 then
      [0xD807AA98, 0x12835B01, 0x243185BE, 0x550C7DC3, 0x72BE5D74, 0x80DEB1FE, 0x9BDC06A7, 0xC19BF174]
    else if r == 2 then
      [0xE49B69C1, 0xEFBE4786, 0x0FC19DC6, 0x240CA1CC, 0x2DE92C6F, 0x4A7484AA, 0x5CB0A9DC, 0x76F988DA]
    else if r == 3 then
      [0x983E5152, 0xA831C66D, 0xB00327C8, 0xBF597FC7, 0xC6E00BF3, 0xD5A79147, 0x06CA6351, 0x14292967]
    else if r == 4 then
      [0x27B70A85, 0x2E1B2138, 0x4D2C6DFC, 0x53380D13, 0x650A7354, 0x766A0ABB, 0x81C2C92E, 0x92722C85]
    else if r == 5 then
      [0xA2BFE8A1, 0xA81A664B, 0xC24B8B70, 0xC76C51A3, 0xD192E819, 0xD6990624, 0xF40E3585, 0x106AA070]
    else if r == 6 then
      [0x19A4C116, 0x1E376C08, 0x2748774C, 0x34B0BCB5, 0x391C0CB3, 0x4ED8AA4A, 0x5B9CCA4F, 0x682E6FF3]
    else
      [0x748F82EE, 0x78A5636F, 0x84C87814, 0x8CC70208, 0x90BEFFFA, 0xA4506CEB, 0xBEF9A3F7, 0xC67178F2]
  }

  function K(t: nat): bv32
    requires t < 64
  {
    KRow(t / 8)[t % 8]
  }

  // ---------- section 6.2 ----------

  datatype Work = Work(a: bv32, b: bv32, c: bv32, d: bv32, e: bv32, f: bv32, g: bv32, h: bv32)

  function Schedule(m: Block, t: nat): bv32
    requires t < 64
  {
    if t < 16 then WordBE(m[4 * t], m[4 * t + 1], m[4 * t + 2], m[4 * t + 3])
    else Plus(Plus(SmallSigma1(Schedule(m, t - 2)), Schedule(m, t - 7)),
              Plus(SmallSigma0(Schedule(m, t - 15)), Schedule(m, t - 16)))
  }

  function Round(v: Work, w: bv32, k: bv32): Work {
    var t1 := Plus(Plus(Plus(Plus(v.h, BigSigma1(v.e)), Ch(v.e, v.f, v.g)), k), w);
    var t2 := Plus(BigSigma0(v.a), Maj(v.a, v.b, v.c));
    Work(Plus(t1, t2), v.a, v.b, v.c, Plus(v.d, t1), v.e, v.f, v.g)
  }

  function Rounds(v: Work, m: Block, t: nat): Work
    requires t <= 64
  {
    if t == 0 then v else Round(Rounds(v, m, t - 1), Schedule(m, t - 1), K(t - 1))
  }

  function AddWork(u: Work, v: Work): Work {
    Work(Plus(u.a, v.a), Plus(u.b, v.b), Plus(u.c, v.c), Plus(u.d, v.d),
         Plus(u.e, v.e), Plus(u.f, v.f), Plus(u.g, v.g), Plus(u.h, v.h))
  }

  function Compress(u: Work, m: Block): Work {
    AddWork(u, Rounds(u, m, 64))
  }

  /** Section 5.3.3. */
  function InitialHash(): Work {
    Work(0x6A09E667, 0xBB67AE85, 0x3C6EF372, 0xA54FF53A, 0x510E527F, 0x9B05688C, 0x1F83D9AB, 0x5BE0CD19)
  }

  function Digest(v: Work): (b: seq<bv8>)
    ensures |b| == 32
  {
    BytesBE(v.a) + BytesBE(v.b) + BytesBE(v.c) + BytesBE(v.d) + BytesBE(v.e) + BytesBE(v.f) + BytesBE(v.g)
      + BytesBE(v.h)
  }

  /** Section 5.1.1: a one bit, zeros up to 448 mod 512 bits, the bit length as 64 bits, most significant byte first. */
  function Pad(msg: seq<bv8>): seq<bv8> {
    var bits := 8 * |msg|;
    msg + Padding(|msg|) + (Bytes32BE(bits / TWO32 % TWO32) + Bytes32BE(bits % TWO32))
  }

  /** The number eight bytes denote, most significant first. */
  function Number64(b: seq<bv8>): int
    requires |b| == 8
  {
    Number32(b[..4]) * TWO32 + Number32(b[4..])
  }

  /** The final eight bytes of the padded message hold its bit length exactly when it fits 64 bits. */
  lemma LengthField(msg: seq<bv8>)
    ensures |Pad(msg)| >= 8
    ensures Number64(Pad(msg)[|Pad(msg)| - 8..]) == 8 * |msg| <==> |msg| < 0x2000_0000_0000_0000
  {
    hide Padding, Bytes32BE, Number32;
    var bits := 8 * |msg|;
    var high, low := bits / TWO32 % TWO32, bits % TWO32;
    Number32OfBytes(high);
    Number32OfBytes(low);
    var field := Bytes32BE(high) + Bytes32BE(low);
    assert Pad(msg)[|Pad(msg)| - 8..] == field;
    assert field[..4] == Bytes32BE(high) && field[4..] == Bytes32BE(low);
  }

  /** Section 6.2; the bit length is exact for the messages the standard allows, below 2^64 bits. */
  function Sha256(msg: seq<bv8>): (digest: seq<bv8>)
    ensures |digest| == 32
  {
    Digest(Fold(Compress, InitialHash(), Pad(msg)))
  }

  // ---------- RFC 2104 ----------

  function XorWith(key: seq<bv8>, pad: bv8): (k: seq<bv8>)
    requires |key| <= 64
    ensures |k| == 64
  {
    var full := key + Zeros(64 - |key|);
    seq(64, i requires 0 <= i < 64 => XorByte(full[i], pad))
  }

  /** Section 2 of RFC 2104: a key longer than a block is hashed first. */
  function BlockKey(key: seq<bv8>): (k: seq<bv8>)
    ensures |k| <= 64
  {
    if |key| <= 64 then key else Sha256(key)
  }

  /** H(K xor opad, H(K xor ipad, text)). */
  function Hmac(key: seq<bv8>, text: seq<bv8>): (mac: seq<bv8>)
    ensures |mac| == 32
  {
    var k := BlockKey(key);
    Sha256(XorWith(k, 0x5c) + Sha256(XorWith(k, 0x36) + text))
  }

  /** The block of the key xored with a pad byte, byte by byte; behind the key the pad byte stands alone. */
  predicate PaddedBy(block: seq<bv8>, key: seq<bv8>, pad: bv8) {
    |block| == 64 && forall i :: 0 <= i < 64 ==> block[i] == if i < |key| then key[i] ^ pad else pad
  }

  /**
    Two hashes: first of the key's block under 0x36 and the text, then of its block under 0x5c and the
    first digest. A longer key is replaced by its digest.
   */
  lemma HmacBlocks(key: seq<bv8>, text: seq<bv8>) returns (inner: seq<bv8>, outer: seq<bv8>)
    ensures var k := if |key| > 64 then Sha256(key) else key;
      PaddedBy(inner, k, 0x36) && PaddedBy(outer, k, 0x5c)
    ensures Hmac(key, text) == Sha256(outer + Sha256(inner + text))
  {
    hide Sha256;
    var k := BlockKey(key);
    inner, outer := XorWith(k, 0x36), XorWith(k, 0x5c);
    XoredBlock(k, 0x36);
    XoredBlock(k, 0x5c);
  }

  lemma XoredBlock(k: seq<bv8>, pad: bv8)
    requires |k| <= 64
    ensures PaddedBy(XorWith(k, pad), k, pad)
  {
    assert (0 as bv8) ^ pad == pad;
  }

  /** A caller with a longer key may hash it first. */
  lemma HashedKey(key: seq<bv8>, text: seq<bv8>)
    requires |key| > 64
    ensures Hmac(Sha256(key), text) == Hmac(key, text)
  {
    hide Sha256;
    DigestLength(key);
  }

  lemma DigestLength(msg: seq<bv8>)
    ensures |Sha256(msg)| == 32
  {
  }
}
