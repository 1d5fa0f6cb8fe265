/** 32-bit words: modular addition, exclusive or, and their four bytes in either order. */
module Words {

  /** Addition of 32-bit words, modulo 2^32. */
  function Plus(x: bv32, y: bv32): bv32 {
    x + y
  }

  function XorWord(v: bv32, w: bv32): bv32 {
    v ^ w
  }

  lemma XorWordTwice(v: bv32, w: bv32)
    ensures XorWord(XorWord(v, w), w) == v
  {
  }

  lemma XorWordCommutes(v: bv32, w: bv32)
    ensures XorWord(v, w) == XorWord(w, v)
  {
  }

  lemma XorWordAssociates(u: bv32, v: bv32, w: bv32)
    ensures XorWord(XorWord(u, v), w) == XorWord(u, XorWord(v, w))
  {
  }

  function WordBE(b0: bv8, b1: bv8, b2: bv8, b3: bv8): bv32 {
    (b0 as bv32 << 24) | (b1 as bv32 << 16) | (b2 as bv32 << 8) | (b3 as bv32)
  }

  function BytesBE(w: bv32): (b: seq<bv8>)
    ensures |b| == 4
  {
    [((w >> 24) & 0xFF) as bv8, ((w >> 16) & 0xFF) as bv8, ((w >> 8) & 0xFF) as bv8, (w & 0xFF) as bv8]
  }

  lemma WordOfBytesBE(w: bv32)
    ensures var b := BytesBE(w); WordBE(b[0], b[1], b[2], b[3]) == w
  {
  }

  lemma BytesOfWordBE(b0: bv8, b1: bv8, b2: bv8, b3: bv8)
    ensures BytesBE(WordBE(b0, b1, b2, b3)) == [b0, b1, b2, b3]
  {
  }

  function WordLE(b0: bv8, b1: bv8, b2: bv8, b3: bv8): bv32 {
    (b0 as bv32) | (b1 as bv32 << 8) | (b2 as bv32 << 16) | (b3 as bv32 << 24)
  }

  function BytesLE(w: bv32): (b: seq<bv8>)
    ensures |b| == 4
  {
    [(w & 0xFF) as bv8, ((w >> 8) & 0xFF) as bv8, ((w >> 16) & 0xFF) as bv8, ((w >> 24) & 0xFF) as bv8]
  }
}
