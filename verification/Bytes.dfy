/** Bytes as bit-vectors, and as the integers that index tables. */
module Bytes {

  /** A byte as a table index. */
  function Value(b: bv8): (v: int)
    ensures 0 <= v < 256
  {
    b as int
  }

  lemma NextValue(b: bv8)
    ensures Value(b) < 255 ==> Value(b + 1) == Value(b) + 1
    ensures Value(0) == 0
  {
  }

  /** The byte with a value, counted up to it. */
  function ByteOf(v: int): (b: bv8)
    requires 0 <= v < 256
    ensures Value(b) == v
  {
    if v == 0 then
      NextValue(0);
      0
    else
      NextValue(ByteOf(v - 1));
      ByteOf(v - 1) + 1
  }

  lemma ByteOfValue(v: int)
    requires 0 <= v < 256
    ensures Value(ByteOf(v)) == v
  {
  }

  lemma ByteRange(b: bv8)
    ensures b != 0 ==> 1 <= Value(b) <= 255
  {
  }

  lemma ValueInjective(a: bv8, b: bv8)
    requires Value(a) == Value(b)
    ensures a == b
  {
  }

  function XorByte(a: bv8, b: bv8): bv8 {
    a ^ b
  }
}
