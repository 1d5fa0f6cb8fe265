/**
  DER lengths, tags and octet strings: external_libs/mbedtls/library/asn1write.c writes them
  backwards from the end of a buffer, external_libs/mbedtls/library/asn1parse.c reads them forwards.
 */
module Asn1 {
  import opened Wrappers

  type Octet = x: int | 0 <= x < 256

  const OCTET_STRING: Octet := 0x04
  const SEQUENCE_TAG: Octet := 0x30
  const MAX_LEN: nat := 0xFFFF_FFFF
  const INT_MAX: nat := 0x7FFF_FFFF

  const OUT_OF_DATA: int := -0x60
  const UNEXPECTED_TAG: int := -0x62
  const INVALID_LENGTH: int := -0x64
  const LENGTH_MISMATCH: int := -0x66
  const BUF_TOO_SMALL: int := -0x6C

  /** A size as the int that the writers return it as. */
  function AsInt(size: nat): int {
    var low := size % 0x1_0000_0000;
    if low <= INT_MAX then low else low - 0x1_0000_0000
  }

  lemma AsIntSmall(size: nat)
    ensures size <= INT_MAX ==> AsInt(size) == size
  {
  }

  // ---------- lengths ----------

  /** The octets of n, most significant first and without leading zeros. */
  function BigEndian(n: nat): seq<Octet> {
    if n == 0 then [] else BigEndian(n / 256) + [n % 256]
  }

  /** Section 8.1.3 of X.690, in the fewest octets as section 10.1 asks. */
  function LenOctets(len: nat): (s: seq<Octet>)
    requires len <= MAX_LEN
  {
    if len < 0x80 then [len]
    else
      BigEndianLength(len);
      [0x80 + |BigEndian(len)|] + BigEndian(len)
  }

  lemma BigEndianStep(n: nat)
    ensures BigEndian(n) == if n == 0 then [] else BigEndian(n / 256) + [n % 256]
  {
  }

  lemma Quotients(n: nat)
    ensures n / 256 / 256 == n / 65536 && n / 65536 / 256 == n / 16777216
    ensures n / 16777216 / 256 == n / 0x1_0000_0000
  {
  }

  lemma BigEndianLength(n: nat)
    ensures n <= MAX_LEN ==> |BigEndian(n)| <= 4
    ensures 0 < n <= 0xFF ==> BigEndian(n) == [n]
    ensures 0xFF < n <= 0xFFFF ==> BigEndian(n) == [n / 256, n % 256]
    ensures 0xFFFF < n <= 0xFFFFFF ==> BigEndian(n) == [n / 65536, n / 256 % 256, n % 256]
    ensures 0xFFFFFF < n <= MAX_LEN ==> BigEndian(n) == [n / 16777216, n / 65536 % 256, n / 256 % 256, n % 256]
  {
    hide BigEndian;
    Quotients(n);
    BigEndianStep(n);
    BigEndianStep(n / 256);
    BigEndianStep(n / 65536);
    BigEndianStep(n / 16777216);
    BigEndianStep(0);
  }

  /** The number that octets spell. */
  function Number(s: seq<Octet>): nat {
    if |s| == 0 then 0 else Number(s[..|s| - 1]) * 256 + s[|s| - 1]
  }

  lemma {:induction false} NumberOfBigEndian(n: nat)
    ensures Number(BigEndian(n)) == n
  {
    if n > 0 {
      NumberOfBigEndian(n / 256);
      assert BigEndian(n)[..|BigEndian(n)| - 1] == BigEndian(n / 256);
    }
  }

  /** Leading zeros aside, octets are determined by their number. */
  lemma {:induction false} ShortestIsBigEndian(s: seq<Octet>)
    ensures |BigEndian(Number(s))| <= |s|
    ensures s != [] && s[0] != 0 ==> BigEndian(Number(s)) == s
    decreases |s|
  {
    if |s| > 0 {
      var init, last := s[..|s| - 1], s[|s| - 1];
      ShortestIsBigEndian(init);
      assert Number(s) / 256 == Number(init) && Number(s) % 256 == last;
      if s[0] != 0 && init != [] {
        assert init[0] == s[0];
      }
    }
  }

  // ---------- reading ----------

  /** What get_len makes of the octets from its cursor to the end: the octets it takes and the length it finds. */
  datatype LenRead = LenRead(ret: int, used: nat, len: nat)

  function ReadLen(d: seq<Octet>, len0: nat): (r: LenRead)
    ensures r.used <= |d| && (r.ret == 0 ==> r.used + r.len <= |d|)
  {
    if |d| < 1 then LenRead(OUT_OF_DATA, 0, len0)
    else if d[0] < 0x80 then Fitting(d, 1, d[0])
    else if 1 <= d[0] % 0x80 <= 4 then
      var n := d[0] % 0x80;
      if |d| < n + 1 then LenRead(OUT_OF_DATA, 0, len0) else Fitting(d, n + 1, Number(d[1..n + 1]))
    else LenRead(INVALID_LENGTH, 0, len0)
  }

  /** The length read must not go beyond the data; the cursor has moved all the same. */
  function Fitting(d: seq<Octet>, used: nat, len: nat): (r: LenRead)
    requires used <= |d|
    ensures r.used <= |d| && (r.ret == 0 ==> r.used + r.len <= |d|)
  {
    LenRead(if len > |d| - used then OUT_OF_DATA else 0, used, len)
  }

  /** Reading undoes writing. */
  lemma LenRoundTrip(len: nat, rest: seq<Octet>, len0: nat)
    requires len <= MAX_LEN
    ensures ReadLen(LenOctets(len) + rest, len0)
      == LenRead(if len <= |rest| then 0 else OUT_OF_DATA, |LenOctets(len)|, len)
  {
    hide LenOctets, BigEndian, Number, ReadLen, Fitting;
    if len < 0x80 {
      ShortForm(len, rest, len0);
    } else {
      LongLenOctets(len);
      NumberOfBigEndian(len);
      var s := BigEndian(len);
      BehindFirst(LenOctets(len)[0], s, rest);
      LongForm(LenOctets(len) + rest, |s|, len0);
      FittingIs(LenOctets(len) + rest, |s| + 1, len);
    }
  }

  lemma ShortForm(len: nat, rest: seq<Octet>, len0: nat)
    requires len < 0x80
    ensures ReadLen(LenOctets(len) + rest, len0) == LenRead(if len <= |rest| then 0 else OUT_OF_DATA, 1, len)
    ensures |LenOctets(len)| == 1
  {
    hide BigEndian, Number;
  }

  lemma LongLenOctets(len: nat)
    requires 0x80 <= len <= MAX_LEN
    ensures 1 <= |BigEndian(len)| <= 4
    ensures |LenOctets(len)| == 1 + |BigEndian(len)| && LenOctets(len)[0] == 0x80 + |BigEndian(len)|
    ensures LenOctets(len) == [LenOctets(len)[0]] + BigEndian(len)
  {
    hide BigEndian;
    BigEndianLength(len);
  }

  lemma BehindFirst<T>(first: T, s: seq<T>, rest: seq<T>)
    ensures var d := [first] + s + rest;
      |d| == 1 + |s| + |rest| && d[0] == first && d[1..|s| + 1] == s
  {
    var front := [first] + s;
    assert front[1..] == s;
    assert (front + rest)[..|front|] == front;
    assert (front + rest)[1..|front|] == front[1..];
  }

  lemma FittingIs(d: seq<Octet>, used: nat, len: nat)
    requires used <= |d|
    ensures Fitting(d, used, len) == LenRead(if len <= |d| - used then 0 else OUT_OF_DATA, used, len)
  {
  }

  /** A first octet of 0x80 + n says that the next n spell the length. */
  lemma LongForm(d: seq<Octet>, n: nat, len0: nat)
    requires 1 <= n <= 4 && |d| >= n + 1 && d[0] == 0x80 + n
    ensures ReadLen(d, len0) == Fitting(d, n + 1, Number(d[1..n + 1]))
  {
    hide Number, Fitting;
    var first: int := d[0];
    assert first % 0x80 == n by {
      assert first == 0x80 * 1 + n;
    }
  }

  /** No other octets that are read as the length are fewer than those written. */
  lemma LenIsMinimal(d: seq<Octet>, len0: nat)
    requires ReadLen(d, len0).ret == 0
    ensures ReadLen(d, len0).len <= MAX_LEN && |LenOctets(ReadLen(d, len0).len)| <= ReadLen(d, len0).used
  {
    var r := ReadLen(d, len0);
    if d[0] >= 0x80 {
      var n := d[0] % 0x80;
      ShortestIsBigEndian(d[1..n + 1]);
      NumberBound(d[1..n + 1]);
    }
  }

  lemma {:induction false} NumberBound(s: seq<Octet>)
    requires |s| <= 4
    ensures Number(s) <
      match |s|
      case 0 => 1
      case 1 => 0x100
      case 2 => 0x1_0000
      case 3 => 0x100_0000
      case _ => 0x1_0000_0000
    decreases |s|
  {
    if |s| > 0 {
      NumberBound(s[..|s| - 1]);
    }
  }

  lemma NumberOfFew(s: seq<Octet>)
    ensures |s| == 1 ==> Number(s) == s[0]
    ensures |s| == 2 ==> Number(s) == (s[0] as int) * 256 + s[1]
    ensures |s| == 3 ==> Number(s) == (s[0] as int) * 65536 + (s[1] as int) * 256 + s[2]
    ensures |s| == 4 ==> Number(s) == (s[0] as int) * 16777216 + (s[1] as int) * 65536 + (s[2] as int) * 256 + s[3]
    decreases |s|
  {
    if 1 <= |s| <= 4 {
      NumberOfFew(s[..|s| - 1]);
    }
  }

  /** mbedtls_asn1_get_len: the cursor p moves over the length octets. */
  method GetLen(data: seq<Octet>, p: nat, end: nat, len0: nat) returns (ret: int, q: nat, len: nat)
    requires p <= end <= |data|
    ensures p <= q <= end && LenRead(ret, q - p, len) == ReadLen(data[p..end], len0)
  {
    ghost var d := data[p..end];
    q, len := p, len0;
    if end - p < 1 {
      return OUT_OF_DATA, q, len;
    }
    if data[p] < 0x80 {
      len := data[p];
      q := p + 1;
    } else {
      ghost var octets := if |d| > d[0] % 0x80 then d[1..d[0] % 0x80 + 1] else [];
      NumberOfFew(octets);
      assert forall k :: 0 <= k < |octets| ==> octets[k] == data[p + 1 + k];
      match data[p] % 0x80
      case 1 =>
        if end - p < 2 {
          return OUT_OF_DATA, q, len;
        }
        len := data[p + 1];
        q := p + 2;
      case 2 =>
        if end - p < 3 {
          return OUT_OF_DATA, q, len;
        }
        len := (data[p + 1] as int) * 256 + data[p + 2];
        q := p + 3;
      case 3 =>
        if end - p < 4 {
          return OUT_OF_DATA, q, len;
        }
        len := (data[p + 1] as int) * 65536 + (data[p + 2] as int) * 256 + data[p + 3];
        q := p + 4;
      case 4 =>
        if end - p < 5 {
          return OUT_OF_DATA, q, len;
        }
        len := (data[p + 1] as int) * 16777216 + (data[p + 2] as int) * 65536 + (data[p + 3] as int) * 256
          + data[p + 4];
        q := p + 5;
      case _ =>
        return INVALID_LENGTH, q, len;
    }
    if len > end - q {
      return OUT_OF_DATA, q, len;
    }
    return 0, q, len;
  }

  function ReadTag(d: seq<Octet>, len0: nat, tag: Octet): (r: LenRead)
    ensures r.used <= |d| && (r.ret == 0 ==> r.used + r.len <= |d| && r.used > 0)
  {
    if |d| < 1 then LenRead(OUT_OF_DATA, 0, len0)
    else if d[0] != tag then LenRead(UNEXPECTED_TAG, 0, len0)
    else
      var r := ReadLen(d[1..], len0);
      LenRead(r.ret, 1 + r.used, r.len)
  }

  method GetTag(data: seq<Octet>, p: nat, end: nat, len0: nat, tag: Octet) returns (ret: int, q: nat, len: nat)
    requires p <= end <= |data|
    ensures p <= q <= end && LenRead(ret, q - p, len) == ReadTag(data[p..end], len0, tag)
  {
    if end - p < 1 {
      return OUT_OF_DATA, p, len0;
    }
    if data[p] != tag {
      return UNEXPECTED_TAG, p, len0;
    }
    assert data[p..end][1..] == data[p + 1..end];
    ret, q, len := GetLen(data, p + 1, end, len0);
  }

  // ---------- writing backwards ----------

  /** Between the two states of a buffer s was put in front of what is behind p, and nothing before it has changed. */
  predicate Put(before: seq<Octet>, now: seq<Octet>, q: nat, p: nat, s: seq<Octet>) {
    && |now| == |before| && q <= p <= |now| && p - q == |s|
    && now[q..] == s + before[p..] && now[..q] == before[..q]
  }

  lemma PutOn(before: seq<Octet>, middle: seq<Octet>, now: seq<Octet>, q: nat, m: nat, p: nat, s: seq<Octet>,
      t: seq<Octet>)
    requires Put(before, middle, m, p, s) && Put(middle, now, q, m, t)
    ensures Put(before, now, q, p, t + s)
  {
    assert middle[..m][..q] == middle[..q] && before[..m][..q] == before[..q];
  }

  /** The octets of s one by one, the last one first, each in front of the one before. */
  method Push(buf: array<Octet>, p: nat, s: seq<Octet>) returns (q: nat)
    requires |s| <= p <= buf.Length
    modifies buf
    ensures q == p - |s| && Put(old(buf[..]), buf[..], q, p, s)
  {
    q := p;
    ghost var from := p - |s|;
    var i := |s|;
    while i > 0
      invariant 0 <= i <= |s| && q == from + i
      invariant forall k :: q <= k < p ==> buf[k] == s[k - from]
      invariant forall k :: 0 <= k < q || p <= k < buf.Length ==> buf[k] == old(buf[k])
    {
      i := i - 1;
      q := q - 1;
      buf[q] := s[i];
    }
  }

  lemma LenOctetsAre(n: nat)
    requires n <= MAX_LEN
    ensures LenOctets(n) ==
      if n < 0x80 then [n]
      else if n <= 0xFF then [0x81, n]
      else if n <= 0xFFFF then [0x82, n / 256 % 256, n % 256]
      else if n <= 0xFFFFFF then [0x83, n / 65536 % 256, n / 256 % 256, n % 256]
      else [0x84, n / 16777216 % 256, n / 65536 % 256, n / 256 % 256, n % 256]
  {
    hide BigEndian;
    BigEndianLength(n);
  }

  /** mbedtls_asn1_write_len: nothing is written when the octets do not fit. */
  method WriteLen(buf: array<Octet>, p: nat, start: nat, len: nat) returns (ret: int, q: nat)
    requires start <= p <= buf.Length
    modifies buf
    ensures len > MAX_LEN ==> ret == INVALID_LENGTH
    ensures len <= MAX_LEN && p - start < |LenOctets(len)| ==> ret == BUF_TOO_SMALL
    ensures ret < 0 ==> q == p && buf[..] == old(buf[..])
    ensures len <= MAX_LEN && p - start >= |LenOctets(len)| ==>
      ret == |LenOctets(len)| && start <= q == p - ret && Put(old(buf[..]), buf[..], q, p, LenOctets(len))
  {
    hide BigEndian, Put, LenOctets;
    if len <= MAX_LEN {
      LenOctetsAre(len);
    }
    q := p;
    if len < 0x80 {
      if p - start < 1 {
        return BUF_TOO_SMALL, q;
      }
      q := Push(buf, p, [len]);
      return 1, q;
    }
    if len <= 0xFF {
      if p - start < 2 {
        return BUF_TOO_SMALL, q;
      }
      q := Push(buf, p, [0x81, len]);
      return 2, q;
    }
    if len <= 0xFFFF {
      if p - start < 3 {
        return BUF_TOO_SMALL, q;
      }
      q := Push(buf, p, [0x82, len / 256 % 256, len % 256]);
      return 3, q;
    }
    if len <= 0xFFFFFF {
      if p - start < 4 {
        return BUF_TOO_SMALL, q;
      }
      q := Push(buf, p, [0x83, len / 65536 % 256, len / 256 % 256, len % 256]);
      return 4, q;
    }
    if len <= 0xFFFFFFFF {
      if p - start < 5 {
        return BUF_TOO_SMALL, q;
      }
      q := Push(buf, p, [0x84, len / 16777216 % 256, len / 65536 % 256, len / 256 % 256, len % 256]);
      return 5, q;
    }
    return INVALID_LENGTH, q;
  }

  method WriteTag(buf: array<Octet>, p: nat, start: nat, tag: Octet) returns (ret: int, q: nat)
    requires start <= p <= buf.Length
    modifies buf
    ensures ret == if p == start then BUF_TOO_SMALL else 1
    ensures ret < 0 ==> q == p && buf[..] == old(buf[..])
    ensures ret == 1 ==> start <= q == p - 1 && Put(old(buf[..]), buf[..], q, p, [tag])
  {
    if p - start < 1 {
      return BUF_TOO_SMALL, p;
    }
    q := Push(buf, p, [tag]);
    return 1, q;
  }

  method WriteRawBuffer(buf: array<Octet>, p: nat, start: nat, data: seq<Octet>) returns (ret: int, q: nat)
    requires start <= p <= buf.Length
    modifies buf
    ensures p - start < |data| ==> ret == BUF_TOO_SMALL && q == p && buf[..] == old(buf[..])
    ensures p - start >= |data| ==>
      ret == AsInt(|data|) && start <= q == p - |data| && Put(old(buf[..]), buf[..], q, p, data)
  {
    if p - start < |data| {
      return BUF_TOO_SMALL, p;
    }
    q := p - |data|;
    forall i | 0 <= i < |data| {
      buf[q + i] := data[i];
    }
    ret := AsInt(|data|);
  }

  /** One octet string with its tag and length. */
  function Tlv(item: seq<Octet>): seq<Octet>
    requires |item| <= MAX_LEN
  {
    [OCTET_STRING] + LenOctets(|item|) + item
  }

  lemma LenOctetsLength(len: nat)
    requires len <= MAX_LEN
    ensures 1 <= |LenOctets(len)| <= 5
  {
    BigEndianLength(len);
  }

  /** What is written for data of any size: the length octets are those of the size as an int. */
  function Written(data: seq<Octet>): seq<Octet>
    requires AsInt(|data|) >= 0
  {
    [OCTET_STRING] + LenOctets(AsInt(|data|)) + data
  }

  /** And what is returned for it. */
  function WrittenReturn(size: nat): int
    requires AsInt(size) >= 0
  {
    AsInt(AsInt(size) + |LenOctets(AsInt(size))| + 1)
  }

  lemma AsIntBounds(size: nat)
    ensures AsInt(size) <= INT_MAX && AsInt(size) <= size
  {
  }

  lemma ShortWritten(data: seq<Octet>)
    requires |data| <= INT_MAX - 6
    ensures AsInt(|data|) == |data| && Written(data) == Tlv(data) && WrittenReturn(|data|) == |Tlv(data)|
  {
    hide LenOctets, AsInt;
    AsIntSmall(|data|);
    LenOctetsLength(|data|);
    AsIntSmall(|data| + |LenOctets(|data|)| + 1);
  }

  /** The encoding is written and its length returned exactly when that length is an int. */
  lemma WritesEncodingIff(data: seq<Octet>)
    ensures AsInt(|data|) >= 0 && WrittenReturn(|data|) == |Written(data)| <==> |data| <= INT_MAX - 6
  {
    hide LenOctets, AsInt;
    AsIntBounds(|data|);
    if |data| <= INT_MAX - 6 {
      ShortWritten(data);
    } else if AsInt(|data|) >= 0 {
      var n := AsInt(|data|);
      AsIntBounds(n + |LenOctets(n)| + 1);
      if |data| <= INT_MAX {
        AsIntSmall(|data|);
        LenOctetsOfLong(|data|);
      }
    }
  }

  lemma LenOctetsOfLong(len: nat)
    requires 0xFFFFFF < len <= MAX_LEN
    ensures |LenOctets(len)| == 5
  {
    hide BigEndian;
    BigEndianLength(len);
  }

  /** mbedtls_asn1_write_octet_string: contents, then length, then tag, each in front of the one before. */
  method WriteOctetString(buf: array<Octet>, p: nat, start: nat, data: seq<Octet>) returns (ret: int, q: nat)
    requires start <= p <= buf.Length
    modifies buf
    ensures start <= q <= p
    ensures |data| > p - start ==> ret == BUF_TOO_SMALL && q == p && buf[..] == old(buf[..])
    ensures |data| <= p - start && AsInt(|data|) < 0 ==>
      ret == AsInt(|data|) && q == p - |data| && Put(old(buf[..]), buf[..], q, p, data)
    ensures |data| <= p - start && AsInt(|data|) >= 0 ==>
      if |Written(data)| > p - start then
        && ret == BUF_TOO_SMALL
        && var octets := LenOctets(AsInt(|data|));
           Put(old(buf[..]), buf[..], q, p, if |octets| + |data| > p - start then data else octets + data)
      else
        && ret == WrittenReturn(|data|) && q == p - |Written(data)|
        && Put(old(buf[..]), buf[..], q, p, Written(data))
  {
    hide LenOctets, Put, AsInt;
    ghost var b0 := buf[..];
    var len := 0;
    ret, q := WriteRawBuffer(buf, p, start, data);
    if |data| > p - start || ret < 0 {
      return;
    }
    AsIntBounds(|data|);
    len := len + ret;
    LenOctetsLength(len);
    ghost var octets := LenOctets(len);
    ghost var q1, b1 := q, buf[..];
    ret, q := WriteLen(buf, q, start, len);
    if ret < 0 {
      return;
    }
    len := len + ret;
    ghost var q2, b2 := q, buf[..];
    PutOn(b0, b1, b2, q2, q1, p, data, octets);
    ret, q := WriteTag(buf, q, start, OCTET_STRING);
    if ret < 0 {
      return;
    }
    len := len + ret;
    ret := AsInt(len);
    PutOn(b0, b2, buf[..], q, q2, p, octets + data, [OCTET_STRING]);
    assert [OCTET_STRING] + (octets + data) == Written(data);
  }

  // ---------- a SEQUENCE OF octet strings ----------

  predicate AllShort(items: seq<seq<Octet>>) {
    forall i :: 0 <= i < |items| ==> |items[i]| <= MAX_LEN
  }

  function Body(items: seq<seq<Octet>>): seq<Octet>
    requires AllShort(items)
    decreases |items|
  {
    if |items| == 0 then [] else Tlv(items[0]) + Body(items[1..])
  }

  function Der(items: seq<seq<Octet>>): seq<Octet>
    requires AllShort(items) && |Body(items)| <= MAX_LEN
  {
    [SEQUENCE_TAG] + LenOctets(|Body(items)|) + Body(items)
  }

  lemma BodyFrom(items: seq<seq<Octet>>, i: nat)
    requires AllShort(items) && i < |items|
    ensures AllShort(items[i..]) && AllShort(items[i + 1..]) && |items[i]| <= MAX_LEN
    ensures Body(items[i..]) == Tlv(items[i]) + Body(items[i + 1..])
  {
    hide Tlv;
    assert items[i..][1..] == items[i + 1..];
  }

  lemma {:induction false} BodyGrows(items: seq<seq<Octet>>, i: nat)
    requires AllShort(items) && i <= |items|
    ensures AllShort(items[i..]) && |Body(items[i..])| <= |Body(items)|
    decreases i
  {
    if i == 0 {
      assert items[0..] == items;
    } else {
      BodyGrows(items, i - 1);
      BodyFrom(items, i - 1);
    }
  }

  /** The octet strings from the last to the first, then the header in front; the length is what was written. */
  method WriteSequence(buf: array<Octet>, p: nat, start: nat, items: seq<seq<Octet>>) returns (ret: int, q: nat)
    requires start <= p <= buf.Length && AllShort(items) && |Body(items)| <= INT_MAX - 6
    modifies buf
    ensures start <= q <= p
    ensures if |Der(items)| <= p - start then ret == |Der(items)| && q == p - ret
      && Put(old(buf[..]), buf[..], q, p, Der(items))
            else ret == BUF_TOO_SMALL
  {
    hide Put, Tlv, LenOctets, Written, WrittenReturn, AsInt;
    ghost var b0 := buf[..];
    var i, len := |items|, 0;
    q := p;
    PutNothing(b0, p);
    while i > 0
      invariant 0 <= i <= |items| && AllShort(items[i..]) && len == |Body(items[i..])| && start <= q == p - len
      invariant Put(b0, buf[..], q, p, Body(items[i..]))
    {
      i := i - 1;
      BodyFrom(items, i);
      BodyGrows(items, i);
      BodyGrows(items, i + 1);
      ghost var q1, b1 := q, buf[..];
      TlvLength(items[i]);
      ShortWritten(items[i]);
      ret, q := WriteOctetString(buf, q, start, items[i]);
      if ret < 0 {
        return;
      }
      len := len + ret;
      PutOn(b0, b1, buf[..], q, q1, p, Body(items[i + 1..]), Tlv(items[i]));
    }
    assert items[0..] == items;
    LenOctetsLength(len);
    ghost var q1, b1 := q, buf[..];
    ret, q := WriteLen(buf, q, start, len);
    if ret < 0 {
      return;
    }
    ghost var q2, b2 := q, buf[..];
    PutOn(b0, b1, b2, q2, q1, p, Body(items), LenOctets(len));
    var header;
    header, q := WriteTag(buf, q, start, SEQUENCE_TAG);
    if header < 0 {
      return header, q;
    }
    PutOn(b0, b2, buf[..], q, q2, p, LenOctets(len) + Body(items), [SEQUENCE_TAG]);
    assert [SEQUENCE_TAG] + (LenOctets(len) + Body(items)) == Der(items);
    ret := len + ret + header;
  }

  lemma TlvLength(item: seq<Octet>)
    requires |item| <= MAX_LEN
    ensures |Tlv(item)| > |item|
  {
  }

  lemma PutNothing(before: seq<Octet>, p: nat)
    requires p <= |before|
    ensures Put(before, before, p, p, [])
  {
  }

  // ---------- mbedtls_asn1_get_sequence_of ----------

  /** The elements of d, all of them with the tag; or the first error. */
  function ReadItems(d: seq<Octet>, tag: Octet): Result<seq<seq<Octet>>, int>
    decreases |d|
  {
    if |d| == 0 then Success([])
    else
      var r := ReadTag(d, 0, tag);
      if r.ret != 0 then Failure(r.ret)
      else
        match ReadItems(d[r.used + r.len..], tag)
        case Failure(e) => Failure(e)
        case Success(rest) => Success([d[r.used..r.used + r.len]] + rest)
  }

  function ReadSequence(d: seq<Octet>, tag: Octet): Result<seq<seq<Octet>>, int> {
    var r := ReadTag(d, 0, SEQUENCE_TAG);
    if r.ret != 0 then Failure(r.ret)
    else if r.used + r.len != |d| then Failure(LENGTH_MISMATCH)
    else ReadItems(d[r.used..], tag)
  }

  lemma ItemRead(item: seq<Octet>, rest: seq<Octet>)
    requires |item| <= MAX_LEN
    ensures var d := Tlv(item) + rest;
      var r := ReadTag(d, 0, OCTET_STRING);
      && r.ret == 0 && r.used + r.len == |Tlv(item)|
      && d[r.used..r.used + r.len] == item && d[r.used + r.len..] == rest
  {
    hide LenOctets, ReadLen;
    var d := Tlv(item) + rest;
    LenRoundTrip(|item|, item + rest, 0);
    assert d[1..] == LenOctets(|item|) + (item + rest);
  }

  lemma BodyStep(items: seq<seq<Octet>>)
    requires AllShort(items)
    ensures Body(items) == if |items| == 0 then [] else Tlv(items[0]) + Body(items[1..])
    ensures ReadItems([], OCTET_STRING) == Success([])
  {
  }

  lemma {:induction false} BodyRead(items: seq<seq<Octet>>)
    requires AllShort(items)
    ensures ReadItems(Body(items), OCTET_STRING) == Success(items)
    decreases |items|
  {
    hide Tlv, ReadTag, Body, ReadItems;
    BodyStep(items);
    if |items| > 0 {
      BodyRead(items[1..]);
      ItemRead(items[0], Body(items[1..]));
      TlvLength(items[0]);
      FirstItem(Body(items), OCTET_STRING);
      assert items == [items[0]] + items[1..];
    }
  }

  /** Reading a written sequence gives the same contents in order and takes every octet. */
  lemma SequenceRoundTrip(items: seq<seq<Octet>>)
    requires AllShort(items) && |Body(items)| <= MAX_LEN
    ensures ReadSequence(Der(items), OCTET_STRING) == Success(items)
  {
    hide LenOctets, ReadLen, Body, ReadItems;
    var b := Body(items);
    LenRoundTrip(|b|, b, 0);
    BodyRead(items);
    assert Der(items)[1..] == LenOctets(|b|) + b;
    assert Der(items)[1 + |LenOctets(|b|)|..] == b;
  }

  /** One entry of the list: tag, length and place of an element. */
  class AsnSequence {
    var tag: int
    var len: nat
    var p: nat
    var next: AsnSequence?

    constructor ()
      ensures next == null
    {
      tag, len, p, next := 0, 0, 0, null;
    }
  }

  /** The nodes in order: each leads to the next one and none occurs twice. */
  predicate Chain(nodes: seq<AsnSequence>)
    reads nodes`next
  {
    && (forall i, j :: 0 <= i < j < |nodes| ==> nodes[i] != nodes[j])
    && forall i :: 0 <= i < |nodes| - 1 ==> nodes[i].next == nodes[i + 1]
  }

  /** The nodes hold the places of the items. */
  predicate Holds(nodes: seq<AsnSequence>, data: seq<Octet>, tag: Octet, items: seq<seq<Octet>>)
    reads nodes`tag, nodes`len, nodes`p
  {
    && |nodes| == |items|
    && forall i :: 0 <= i < |items| ==>
      nodes[i].tag == tag && nodes[i].p + nodes[i].len <= |data|
        && data[nodes[i].p..nodes[i].p + nodes[i].len] == items[i]
  }

  /** What is read after the items already done. */
  function Then(done: seq<seq<Octet>>, r: Result<seq<seq<Octet>>, int>): Result<seq<seq<Octet>>, int> {
    match r
    case Failure(e) => Failure(e)
    case Success(rest) => Success(done + rest)
  }

  lemma ItemsEnd(d: seq<Octet>, tag: Octet, done: seq<seq<Octet>>)
    ensures d == [] ==> Then(done, ReadItems(d, tag)) == Success(done)
  {
    assert done + [] == done;
  }

  lemma SequenceStarts(data: seq<Octet>, p: nat, end: nat, tag: Octet, q: nat)
    requires p <= q <= end <= |data|
    requires ReadTag(data[p..end], 0, SEQUENCE_TAG).used == q - p
    ensures var r := ReadTag(data[p..end], 0, SEQUENCE_TAG);
      ReadSequence(data[p..end], tag) ==
        if r.ret != 0 then Failure(r.ret)
        else if q + r.len != end then Failure(LENGTH_MISMATCH)
        else ReadItems(data[q..end], tag)
  {
    hide ReadTag, ReadItems;
    assert data[p..end][q - p..] == data[q..end];
  }

  lemma ItemStarts(data: seq<Octet>, q: nat, end: nat, len0: nat, tag: Octet, done: seq<seq<Octet>>)
    requires q < end <= |data|
    ensures var r := ReadTag(data[q..end], len0, tag);
      && (r.ret != 0 ==> Then(done, ReadItems(data[q..end], tag)) == Failure(r.ret))
      && (r.ret == 0 ==>
            var v := q + r.used;
            v + r.len <= end && Then(done, ReadItems(data[q..end], tag))
              == Then(done + [data[v..v + r.len]], ReadItems(data[v + r.len..end], tag)))
  {
    hide ReadTag, ReadItems;
    var d := data[q..end];
    var r := ReadTag(d, len0, tag);
    TagLen(d, len0, tag);
    if r.ret == 0 {
      var v := q + r.used;
      SliceOfSlice(data, q, end, r.used, r.used + r.len);
      SliceOfSlice(data, q, end, r.used + r.len, end - q);
      FirstItem(d, tag);
      var rest := ReadItems(data[v + r.len..end], tag);
      if rest.Success? {
        assert done + ([data[v..v + r.len]] + rest.value) == done + [data[v..v + r.len]] + rest.value;
      }
    } else {
      FirstItem(d, tag);
    }
  }

  lemma SliceOfSlice(data: seq<Octet>, q: nat, end: nat, m: nat, n: nat)
    requires q <= end <= |data| && m <= n <= end - q
    ensures data[q..end][m..n] == data[q + m..q + n]
    ensures n == end - q ==> data[q..end][m..] == data[q + m..end]
  {
    assert forall k :: 0 <= k < n - m ==> data[q..end][m..n][k] == data[q + m..q + n][k];
  }

  lemma FirstItem(d: seq<Octet>, tag: Octet)
    requires |d| > 0
    ensures var r := ReadTag(d, 0, tag);
      ReadItems(d, tag) == if r.ret != 0 then Failure(r.ret)
        else Then([d[r.used..r.used + r.len]], ReadItems(d[r.used + r.len..], tag))
  {
    hide ReadTag;
  }

  /** The length there was before does not matter. */
  lemma TagLen(d: seq<Octet>, len0: nat, tag: Octet)
    ensures var r, r0 := ReadTag(d, len0, tag), ReadTag(d, 0, tag);
      r.ret == r0.ret && (r.ret == 0 ==> r == r0 && r.used > 0 && r.used + r.len <= |d|)
  {
  }

  /** The next element goes into the last node. */
  method TakeItem(data: seq<Octet>, p: nat, end: nat, last: AsnSequence, tag: Octet, ghost held: seq<AsnSequence>,
      ghost done: seq<seq<Octet>>)
    returns (ret: int, q: nat, ghost item: seq<Octet>)
    requires p < end <= |data| && last !in held && Holds(held, data, tag, done)
    modifies last`tag, last`len, last`p
    ensures ret != 0 ==> Then(done, ReadItems(data[p..end], tag)) == Failure(ret)
    ensures ret == 0 ==>
      && p < q <= end && Holds(held + [last], data, tag, done + [item])
      && Then(done, ReadItems(data[p..end], tag)) == Then(done + [item], ReadItems(data[q..end], tag))
  {
    hide ReadItems, ReadTag, Holds, Then;
    ItemStarts(data, p, end, last.len, tag, done);
    TagLen(data[p..end], last.len, tag);
    ret, q := GetItem(data, p, end, last, tag);
    item := [];
    if ret != 0 {
      return;
    }
    item := data[last.p..q];
    HoldsMore(held, last, data, tag, done, q);
  }

  /** The elements between p and end into a list from cur on. */
  method GetItems(data: seq<Octet>, p: nat, end: nat, cur: AsnSequence, tag: Octet)
    returns (ret: int, q: nat, ghost nodes: seq<AsnSequence>)
    requires p <= end <= |data|
    modifies cur
    ensures ReadItems(data[p..end], tag).Failure? ==> ret == ReadItems(data[p..end], tag).error
    ensures ReadItems(data[p..end], tag).Success? ==>
      ret == 0 && q == end && Listed(nodes, cur, data, tag, ReadItems(data[p..end], tag).value)
    ensures ReadItems(data[p..end], tag) == Success([]) ==>
      cur.tag == old(cur.tag) && cur.len == old(cur.len) && cur.p == old(cur.p)
    ensures forall n :: n in nodes && n != cur ==> fresh(n)
  {
    hide ReadItems, ReadTag, Holds, Then, Chain;
    ret, q, nodes := 0, p, [cur];
    var last := cur;
    ghost var done: seq<seq<Octet>> := [];
    ghost var held: seq<AsnSequence> := [];
    HoldsNothing(data, tag);
    ChainOne(cur);
    ItemsNone(data[p..end], tag);
    while q < end
      invariant q <= end && (last == cur || fresh(last))
      invariant |held| == |done|
        && (if q < end then nodes == held + [last] && last !in held else nodes == if held == [] then [last] else held)
      invariant nodes[0] == cur && nodes[|nodes| - 1] == last
      invariant Chain(nodes)
      invariant Holds(held, data, tag, done)
      invariant forall n :: n in nodes && n != cur ==> fresh(n)
      invariant done == [] ==> cur.tag == old(cur.tag) && cur.len == old(cur.len) && cur.p == old(cur.p)
      invariant ReadItems(data[p..end], tag) == Then(done, ReadItems(data[q..end], tag))
    {
      ghost var item;
      ret, q, item := TakeItem(data, q, end, last, tag, held, done);
      if ret != 0 {
        return;
      }
      done := done + [item];
      held := held + [last];
      assert held == nodes;
      // more elements follow: the list grows by a node for them
      if q < end {
        var node := new AsnSequence();
        LinkNode(nodes, last, node);
        nodes := nodes + [node];
        last := node;
      }
    }
    assert nodes[..|done|] == held;
    // whatever the node led to before, the list ends here
    EndList(nodes, last);
    ItemsEnd(data[q..end], tag, done);
  }

  lemma ItemsNone(d: seq<Octet>, tag: Octet)
    ensures ReadItems(d, tag) == Then([], ReadItems(d, tag))
  {
    hide ReadItems;
    var r := ReadItems(d, tag);
    assert r.Success? ==> [] + r.value == r.value;
  }

  /** A list from cur on: a node for each item, or one node that holds none. */
  predicate Listed(nodes: seq<AsnSequence>, cur: AsnSequence, data: seq<Octet>, tag: Octet, items: seq<seq<Octet>>)
    reads nodes
  {
    && |nodes| == (if items == [] then 1 else |items|) && nodes[0] == cur && Chain(nodes)
      && nodes[|nodes| - 1].next == null
    && Holds(nodes[..|items|], data, tag, items)
  }

  /**
    Splits a sequence into a list from cur on, or reports the first error. An empty sequence leaves
    cur as it was, as the list's only node.
   */
  method GetSequenceOf(data: seq<Octet>, p: nat, end: nat, cur: AsnSequence, tag: Octet)
    returns (ret: int, q: nat, ghost nodes: seq<AsnSequence>)
    requires p <= end <= |data|
    modifies cur
    ensures ReadSequence(data[p..end], tag).Failure? ==> ret == ReadSequence(data[p..end], tag).error
    ensures ReadSequence(data[p..end], tag).Success? ==>
      var items := ReadSequence(data[p..end], tag).value;
      && ret == 0 && q == end && Listed(nodes, cur, data, tag, items)
      && (items == [] ==> cur.tag == old(cur.tag) && cur.len == old(cur.len) && cur.p == old(cur.p))
    ensures forall n :: n in nodes && n != cur ==> fresh(n)
  {
    hide ReadItems, ReadSequence, ReadTag, Listed;
    nodes := [cur];
    var len;
    ret, q, len := GetTag(data, p, end, 0, SEQUENCE_TAG);
    SequenceStarts(data, p, end, tag, q);
    if ret != 0 {
      return;
    }
    if q + len != end {
      return LENGTH_MISMATCH, q, nodes;
    }
    ret, q, nodes := GetItems(data, q, end, cur, tag);
  }

  /** One element goes into a node. */
  method GetItem(data: seq<Octet>, p: nat, end: nat, node: AsnSequence, tag: Octet) returns (ret: int, q: nat)
    requires p < end <= |data|
    modifies node`tag, node`len, node`p
    ensures var r := ReadTag(data[p..end], old(node.len), tag);
      && ret == r.ret && p <= q <= end
      && (ret == 0 ==> node.tag == tag && node.p == p + r.used && node.len == r.len && q == node.p + node.len)
  {
    node.tag := data[p];
    var len;
    ret, q, len := GetTag(data, p, end, node.len, tag);
    node.len := len;
    if ret != 0 {
      return;
    }
    node.p := q;
    q := q + len;
  }

  lemma HoldsNothing(data: seq<Octet>, tag: Octet)
    ensures Holds([], data, tag, [])
  {
  }

  lemma HoldsMore(nodes: seq<AsnSequence>, last: AsnSequence, data: seq<Octet>, tag: Octet, items: seq<seq<Octet>>,
      q: nat)
    requires Holds(nodes, data, tag, items) && last.tag == tag && last.p + last.len == q <= |data|
    ensures Holds(nodes + [last], data, tag, items + [data[last.p..q]])
  {
  }

  lemma ChainOne(node: AsnSequence)
    ensures Chain([node])
  {
  }

  method EndList(ghost nodes: seq<AsnSequence>, last: AsnSequence)
    requires |nodes| > 0 && nodes[|nodes| - 1] == last && Chain(nodes)
    modifies last`next
    ensures last.next == null && Chain(nodes)
  {
    last.next := null;
  }

  /** A new node behind the last one. */
  method LinkNode(ghost nodes: seq<AsnSequence>, last: AsnSequence, node: AsnSequence)
    requires |nodes| > 0 && nodes[|nodes| - 1] == last && node !in nodes && Chain(nodes)
    modifies last`next
    ensures last.next == node && Chain(nodes + [node])
  {
    last.next := node;
  }
}
