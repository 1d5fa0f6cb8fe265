/**
  What the Base64 alphabet, the DER tags and the error codes are, by their characters and numbers,
  with the worked examples of section 10 of RFC 4648.
 */
module CodecVectors {
  import opened Wrappers
  import Base64
  import Asn1

  // ---------- Base64 ----------

  const ALPHABET := "ABCDEFGHIJKLMNOPQRSTUVWXYZ" + "abcdefghijklmnopqrstuvwxyz" + "0123456789+/"

  lemma Capitals(v: int)
    requires 0 <= v < 26
    ensures |ALPHABET| == 64 && ALPHABET[v] as int == 65 + v
  {
    assert forall k :: 0 <= k < 26 ==> "ABCDEFGHIJKLMNOPQRSTUVWXYZ"[k] as int == 65 + k;
  }

  lemma Smalls(v: int)
    requires 26 <= v < 52
    ensures |ALPHABET| == 64 && ALPHABET[v] as int == 71 + v
  {
    assert forall k :: 0 <= k < 26 ==> "abcdefghijklmnopqrstuvwxyz"[k] as int == 97 + k;
  }

  lemma DigitsAndSigns(v: int)
    requires 52 <= v < 64
    ensures |ALPHABET| == 64
    ensures ALPHABET[v] as int == if v < 62 then v - 4 else if v == 62 then 43 else 47
  {
    assert forall k :: 0 <= k < 10 ==> "0123456789+/"[k] as int == 48 + k;
  }

  /** Six bits are the character at their place in the alphabet, and a character stands for its place. */
  lemma Alphabet(v: int)
    requires 0 <= v < 64
    ensures |ALPHABET| == 64
    ensures Base64.EncMap(v) == ALPHABET[v] as int
    ensures Base64.Digit(Base64.EncMap(v)) && Base64.DecMap(Base64.EncMap(v)) == v
  {
    if v < 26 {
      Capitals(v);
    } else if v < 52 {
      Smalls(v);
    } else {
      DigitsAndSigns(v);
    }
  }

  /** Groups of three octets are encoded one by one. */
  lemma GroupThenRest(g: seq<Base64.Octet>, rest: seq<Base64.Octet>)
    requires |g| == 3
    ensures Base64.Encoded(g + rest) == Base64.Encoded(g) + Base64.Encoded(rest)
  {
    hide Base64.Six, Base64.EncMap, Base64.Bits;
    assert (g + rest)[3..] == rest && g[3..] == [];
    Base64.EncodedLong(g + rest);
    Base64.EncodedLong(g);
  }

  /** The digits of 24 bits given by their four sixes. */
  lemma FourSixes(v: nat, p: nat, q: nat, r: nat, t: nat)
    requires p < 64 && q < 64 && r < 64 && t < 64 && v == ((p * 64 + q) * 64 + r) * 64 + t
    ensures Base64.Six(v, 0) == p && Base64.Six(v, 1) == q && Base64.Six(v, 2) == r && Base64.Six(v, 3) == t
  {
    assert v / 64 == (p * 64 + q) * 64 + r;
    assert v / 4096 == p * 64 + q;
    assert v / 262144 == p;
  }

  lemma LastOnes()
    ensures Base64.Encoded([102]) == [90, 103, 61, 61]
    ensures Base64.Encoded([98]) == [89, 103, 61, 61]
  {
    hide Base64.Six;
    FourSixes(Base64.Bits(102, 0, 0), 25, 32, 0, 0);
    FourSixes(Base64.Bits(98, 0, 0), 24, 32, 0, 0);
  }

  lemma LastTwos()
    ensures Base64.Encoded([102, 111]) == [90, 109, 56, 61]
    ensures Base64.Encoded([98, 97]) == [89, 109, 69, 61]
  {
    hide Base64.Six;
    FourSixes(Base64.Bits(102, 111, 0), 25, 38, 60, 0);
    FourSixes(Base64.Bits(98, 97, 0), 24, 38, 4, 0);
  }

  lemma WholeGroups()
    ensures Base64.Encoded([102, 111, 111]) == [90, 109, 57, 118]
    ensures Base64.Encoded([98, 97, 114]) == [89, 109, 70, 121]
  {
    hide Base64.Six;
    FourSixes(Base64.Bits(102, 111, 111), 25, 38, 61, 47);
    FourSixes(Base64.Bits(98, 97, 114), 24, 38, 5, 50);
    assert [102, 111, 111][3..] == [] && [98, 97, 114][3..] == [];
  }

  /** The characters f, fo, foo, foob, fooba and foobar are written in: the codes of Zg==, Zm8=, Zm9v and so on. */
  lemma Rfc4648Vectors()
    ensures Base64.Encoded([102]) == [90, 103, 61, 61]
    ensures Base64.Encoded([102, 111]) == [90, 109, 56, 61]
    ensures Base64.Encoded([102, 111, 111]) == [90, 109, 57, 118]
    ensures Base64.Encoded([102, 111, 111, 98]) == [90, 109, 57, 118, 89, 103, 61, 61]
    ensures Base64.Encoded([102, 111, 111, 98, 97]) == [90, 109, 57, 118, 89, 109, 69, 61]
    ensures Base64.Encoded([102, 111, 111, 98, 97, 114]) == [90, 109, 57, 118, 89, 109, 70, 121]
  {
    hide Base64.Encoded;
    LastOnes();
    LastTwos();
    WholeGroups();
    GroupThenRest([102, 111, 111], [98]);
    GroupThenRest([102, 111, 111], [98, 97]);
    GroupThenRest([102, 111, 111], [98, 97, 114]);
    assert [102, 111, 111] + [98] == [102, 111, 111, 98];
    assert [102, 111, 111] + [98, 97] == [102, 111, 111, 98, 97];
    assert [102, 111, 111] + [98, 97, 114] == [102, 111, 111, 98, 97, 114];
  }

  /** Digits of the alphabet, with no pad but the last two characters, and no digit behind a pad. */
  predicate PadsLast(s: seq<Base64.Octet>) {
    && (forall i :: 0 <= i < |s| ==> s[i] == 61 || Base64.Digit(s[i]))
    && (forall i :: 0 <= i < |s| - 2 ==> s[i] != 61)
    && (|s| > 1 && s[|s| - 2] == 61 ==> s[|s| - 1] == 61)
  }

  /** Behind j pads only pads may come, two in all. */
  lemma {:induction false} PadsBehind(s: seq<Base64.Octet>, j: nat)
    requires 0 < j <= 2
    ensures Base64.PadForm(s, j) <==> |s| <= 2 - j && forall i :: 0 <= i < |s| ==> s[i] == 61
  {
    if |s| > 0 && s[0] == 61 && j < 2 {
      PadsBehind(s[1..], j + 1);
    }
  }

  lemma {:induction false} PadFormMeans(s: seq<Base64.Octet>)
    ensures Base64.PadForm(s, 0) <==> PadsLast(s)
  {
    if |s| > 0 {
      var rest := s[1..];
      if s[0] == 61 {
        assert !Base64.Digit(61);
        PadsBehind(rest, 1);
        assert forall i :: 0 <= i < |rest| ==> rest[i] == s[i + 1];
        if PadsLast(s) {
          assert |s| <= 2;
          assert |s| == 2 ==> s[0] == s[|s| - 2] && rest[0] == 61;
        }
      } else {
        PadFormMeans(rest);
        PadsLastStep(s);
      }
    }
  }

  lemma PadsLastStep(s: seq<Base64.Octet>)
    requires |s| > 0 && s[0] != 61
    ensures PadsLast(s) <==> Base64.Digit(s[0]) && PadsLast(s[1..])
  {
    hide Base64.Digit;
    var rest := s[1..];
    assert forall i :: 0 <= i < |rest| ==> rest[i] == s[i + 1];
    if Base64.Digit(s[0]) && PadsLast(rest) {
      forall i | 0 <= i < |s|
        ensures s[i] == 61 || Base64.Digit(s[i])
        ensures i < |s| - 2 ==> s[i] != 61
      {
        if i > 0 {
          assert s[i] == rest[i - 1];
        }
      }
    }
  }

  /** A carriage return stands before a line feed, and a space before white space or the end. */
  predicate EndsLine(s: seq<Base64.Octet>, i: nat)
    requires i < |s|
  {
    && (s[i] == 13 ==> i + 1 < |s| && s[i + 1] == 10)
    && (s[i] == 32 && i + 1 < |s| ==> s[i + 1] == 32 || s[i + 1] == 13 || s[i + 1] == 10)
  }

  lemma {:induction false} LinesOkMeans(s: seq<Base64.Octet>)
    ensures Base64.LinesOk(s) <==> forall i: nat :: i < |s| ==> EndsLine(s, i)
  {
    if |s| > 0 {
      var rest := s[1..];
      LinesOkMeans(rest);
      assert forall i: nat :: i < |rest| ==> (EndsLine(rest, i) <==> EndsLine(s, i + 1));
      if forall i: nat :: i < |s| ==> EndsLine(s, i) {
        assert EndsLine(s, 0);
      }
      if Base64.LinesOk(s) {
        forall i: nat | i < |s|
          ensures EndsLine(s, i)
        {
          if i > 0 {
            assert EndsLine(rest, i - 1);
          }
        }
      }
    }
  }

  // ---------- DER ----------

  /** A sequence of one string of three bytes. */
  lemma SequenceOfOne()
    ensures Asn1.AllShort([[1, 2, 3]]) && |Asn1.Body([[1, 2, 3]])| == 5
    ensures Asn1.Der([[1, 2, 3]]) == [0x30, 5, 0x04, 3, 1, 2, 3]
  {
    assert [[1, 2, 3]][1..] == [];
    assert Asn1.Tlv([1, 2, 3]) == [0x04, 3, 1, 2, 3];
    assert Asn1.Body([[1, 2, 3]]) == [0x04, 3, 1, 2, 3];
  }

  /** Lengths in one, two and three octets. */
  lemma LengthVectors()
    ensures Asn1.LenOctets(127) == [0x7F]
    ensures Asn1.LenOctets(128) == [0x81, 128]
    ensures Asn1.LenOctets(500) == [0x82, 1, 244]
  {
    Asn1.BigEndianLength(128);
    Asn1.BigEndianLength(500);
  }

  /** Which error a text that is no sequence is refused with, by its number. */
  lemma SequenceRefused(d: seq<Asn1.Octet>, tag: Asn1.Octet)
    ensures d == [] ==> Asn1.ReadSequence(d, tag) == Failure(-96)
    ensures |d| > 0 && d[0] != 0x30 ==> Asn1.ReadSequence(d, tag) == Failure(-98)
    ensures d == [0x30] ==> Asn1.ReadSequence(d, tag) == Failure(-96)
    ensures |d| > 1 && d[0] == 0x30 && (d[1] == 0x80 || d[1] > 0x84) ==> Asn1.ReadSequence(d, tag) == Failure(-100)
    ensures |d| > 1 && d[0] == 0x30 && d[1] < 0x80 && |d| < 2 + d[1] ==> Asn1.ReadSequence(d, tag) == Failure(-96)
    ensures |d| > 1 && d[0] == 0x30 && d[1] < 0x80 && |d| > 2 + d[1] ==> Asn1.ReadSequence(d, tag) == Failure(-102)
  {
    hide Asn1.ReadItems, Asn1.Number;
    if |d| > 1 {
      assert d[1..][0] == d[1];
    }
  }

  /** And an item under another tag than the one asked for. */
  lemma ItemRefused(first: Asn1.Octet, tag: Asn1.Octet)
    requires first != tag
    ensures Asn1.ReadSequence([0x30, 3, first, 1, 7], tag) == Failure(-98)
  {
    var d := [0x30, 3, first, 1, 7];
    assert d[1..] == [3, first, 1, 7];
    assert d[2..] == [first, 1, 7];
    assert Asn1.ReadLen(d[1..], 0) == Asn1.LenRead(0, 1, 3);
  }
}
