/**
  LITE_replace_substr of src/utils/string_utils.c: the occurrences of a key in a string are
  replaced in place, through a buffer of 512 characters.
 */
module ReplaceSubstr {

  const TMP_SIZE: nat := 512

  // ---------- C strings in buffers ----------

  /** The characters before the first terminator. */
  function Str(a: seq<char>): (s: string)
    ensures |s| <= |a| && s == a[..|s|] && '\0' !in s && (|s| < |a| ==> a[|s|] == '\0')
  {
    if |a| == 0 || a[0] == '\0' then ""
    else
      var rest := Str(a[1..]);
      assert a[..1 + |rest|] == [a[0]] + rest;
      [a[0]] + rest
  }

  /** The buffer holds s, terminated. */
  predicate HoldsStr(a: seq<char>, s: string) {
    |s| < |a| && (forall i :: 0 <= i < |s| ==> a[i] == s[i] && s[i] != '\0') && a[|s|] == '\0'
  }

  lemma {:induction false} StrOf(a: seq<char>, s: string)
    ensures HoldsStr(a, s) ==> Str(a) == s
  {
    if HoldsStr(a, s) && s != "" {
      assert forall i :: 0 <= i < |s[1..]| ==> a[1..][i] == a[i + 1] && s[1..][i] == s[i + 1];
      StrOf(a[1..], s[1..]);
      assert s == [s[0]] + s[1..];
    }
  }

  lemma StrHolds(a: seq<char>)
    requires |Str(a)| < |a|
    ensures HoldsStr(a, Str(a))
  {
    var s := Str(a);
    assert forall i :: 0 <= i < |s| ==> a[i] == s[i] && s[i] in s;
  }

  /** strcpy to an offset: the string and its terminator. */
  method StrCpy(dst: array<char>, at: nat, src: string)
    requires at + |src| < dst.Length
    modifies dst
    ensures forall k :: 0 <= k < dst.Length ==>
      dst[k] == if at <= k < at + |src| then src[k - at] else if k == at + |src| then '\0' else old(dst[k])
  {
    forall i | 0 <= i < |src| {
      dst[at + i] := src[i];
    }
    dst[at + |src|] := '\0';
  }

  // ---------- replacing ----------

  /** From the left: an occurrence of the key is replaced and passed, any other character kept. */
  function Replaced(s: string, key: string, swap: string): string
    requires key != ""
    decreases |s|
  {
    if |s| < |key| then s
    else if s[..|key|] == key then swap + Replaced(s[|key|..], key, swap)
    else [s[0]] + Replaced(s[1..], key, swap)
  }

  lemma {:induction false} ReplacedLength(s: string, key: string, swap: string)
    requires key != "" && |swap| >= |key|
    ensures |Replaced(s, key, swap)| >= |s|
    decreases |s|
  {
    if |s| >= |key| {
      ReplacedLength(s[if s[..|key|] == key then |key| else 1..], key, swap);
    }
  }

  /** The text between the occurrences, from the left. */
  function Pieces(s: string, key: string): (p: seq<string>)
    requires key != ""
    ensures |p| > 0
    decreases |s|
  {
    if |s| < |key| then [s]
    else if s[..|key|] == key then [""] + Pieces(s[|key|..], key)
    else
      var rest := Pieces(s[1..], key);
      [[s[0]] + rest[0]] + rest[1..]
  }

  function Joined(pieces: seq<string>, with: string): string
    requires |pieces| > 0
  {
    if |pieces| == 1 then pieces[0] else pieces[0] + with + Joined(pieces[1..], with)
  }

  /** The key occurs in s at i. */
  predicate At(s: string, key: string, i: nat) {
    i + |key| <= |s| && s[i..i + |key|] == key
  }

  ghost predicate NoneBefore(s: string, key: string, n: nat) {
    forall i :: 0 <= i < n ==> !At(s, key, i)
  }

  /** Each piece but the last ends at the first occurrence of the key; in the last there is none. */
  ghost predicate Leftmost(pieces: seq<string>, key: string)
    requires |pieces| > 0
  {
    if |pieces| == 1 then NoneBefore(pieces[0], key, |pieces[0]|)
    else NoneBefore(pieces[0] + key, key, |pieces[0]|) && Leftmost(pieces[1..], key)
  }

  lemma ConsPiece(c: char, pieces: seq<string>, with: string)
    requires |pieces| > 0
    ensures Joined([[c] + pieces[0]] + pieces[1..], with) == [c] + Joined(pieces, with)
  {
    assert ([[c] + pieces[0]] + pieces[1..])[1..] == pieces[1..];
    if |pieces| > 1 {
      assert [c] + pieces[0] + with + Joined(pieces[1..], with) == [c] + (pieces[0] + with + Joined(pieces[1..], with));
    }
  }

  lemma JoinedHit(pieces: seq<string>, with: string)
    requires |pieces| > 0
    ensures Joined([""] + pieces, with) == with + Joined(pieces, with)
  {
    assert ([""] + pieces)[1..] == pieces;
    assert "" + with + Joined(pieces, with) == with + Joined(pieces, with);
  }

  lemma JoinedOne(s: string, with: string)
    ensures Joined([s], with) == s
  {
  }

  /** The pieces joined by the key are the string; joined by the replacement they are the result. */
  lemma {:induction false} PiecesJoin(s: string, key: string, swap: string)
    requires key != ""
    ensures Joined(Pieces(s, key), key) == s
    ensures Joined(Pieces(s, key), swap) == Replaced(s, key, swap)
    decreases |s|
  {
    hide Joined;
    JoinedOne(s, key);
    JoinedOne(s, swap);
    if |s| >= |key| {
      if s[..|key|] == key {
        PiecesJoin(s[|key|..], key, swap);
        JoinedHit(Pieces(s[|key|..], key), key);
        JoinedHit(Pieces(s[|key|..], key), swap);
      } else {
        PiecesJoin(s[1..], key, swap);
        ConsPiece(s[0], Pieces(s[1..], key), key);
        ConsPiece(s[0], Pieces(s[1..], key), swap);
      }
    }
  }

  /** The first piece, followed by the key or by nothing, starts the string. */
  lemma {:induction false} FirstPiece(s: string, key: string)
    requires key != ""
    ensures var p := Pieces(s, key); if |p| == 1 then p[0] == s else p[0] + key <= s
    decreases |s|
  {
    if |s| >= |key| {
      if s[..|key|] == key {
        assert "" + key == s[..|key|];
      } else {
        FirstPiece(s[1..], key);
        ConsPrefix(s[0], Pieces(s[1..], key)[0], key, s[1..]);
        assert s == [s[0]] + s[1..];
      }
    }
  }

  lemma ConsPrefix(c: char, piece: string, key: string, t: string)
    ensures piece + key <= t ==> [c] + piece + key <= [c] + t
  {
    assert [c] + piece + key == [c] + (piece + key);
  }

  /** The occurrences replaced are the leftmost ones that do not overlap. */
  lemma {:induction false} PiecesLeftmost(s: string, key: string)
    requires key != ""
    ensures Leftmost(Pieces(s, key), key)
    decreases |s|
  {
    hide NoneBefore;
    if |s| < |key| {
      NoneInShort(s, key);
    } else if s[..|key|] == key {
      PiecesLeftmost(s[|key|..], key);
      LeftmostHit(Pieces(s[|key|..], key), key);
    } else {
      PiecesLeftmost(s[1..], key);
      FirstPiece(s[1..], key);
      LeftmostMiss(s, key, Pieces(s[1..], key));
    }
  }

  lemma NoneInShort(s: string, key: string)
    requires |s| < |key|
    ensures NoneBefore(s, key, |s|)
  {
  }

  lemma LeftmostHit(rest: seq<string>, key: string)
    requires |rest| > 0 && Leftmost(rest, key)
    ensures Leftmost([""] + rest, key)
  {
    assert ([""] + rest)[1..] == rest;
  }

  predicate Begins(a: string, b: string) {
    a <= b
  }

  lemma LeftmostMiss(s: string, key: string, rest: seq<string>)
    requires key != "" && |s| >= |key| && s[..|key|] != key && |rest| > 0 && Leftmost(rest, key)
    requires Begins(if |rest| == 1 then rest[0] else rest[0] + key, s[1..])
    ensures Leftmost([[s[0]] + rest[0]] + rest[1..], key)
  {
    hide NoneBefore, Leftmost, Begins;
    if |rest| == 1 {
      LeftmostOne(rest[0], key);
      assert rest == [rest[0]] && rest[1..] == [];
      ConsNone(s, key, rest[0], |rest[0]|);
      LeftmostOne([s[0]] + rest[0], key);
      assert [[s[0]] + rest[0]] + rest[1..] == [[s[0]] + rest[0]];
    } else {
      LeftmostStep(rest, key);
      ConsNone(s, key, rest[0] + key, |rest[0]|);
      ConsAssociates(s[0], rest[0], key);
      LeftmostFront([s[0]] + rest[0], rest, key);
    }
  }

  lemma LeftmostOne(piece: string, key: string)
    ensures Leftmost([piece], key) <==> NoneBefore(piece, key, |piece|)
  {
    hide NoneBefore;
  }

  lemma LeftmostStep(pieces: seq<string>, key: string)
    requires |pieces| > 1
    ensures Leftmost(pieces, key) <==> NoneBefore(pieces[0] + key, key, |pieces[0]|) && Leftmost(pieces[1..], key)
  {
    hide NoneBefore;
  }

  lemma ConsAssociates(c: char, piece: string, key: string)
    ensures [c] + piece + key == [c] + (piece + key)
  {
  }

  lemma LeftmostFront(front: string, rest: seq<string>, key: string)
    requires |rest| > 1 && Leftmost(rest, key) && NoneBefore(front + key, key, |front|)
    ensures Leftmost([front] + rest[1..], key)
  {
    hide NoneBefore;
    assert ([front] + rest[1..])[1..] == rest[1..];
  }

  /** One more character in front: the key does not start there, nor later. */
  lemma ConsNone(s: string, key: string, first: string, n: nat)
    requires key != "" && |s| >= |key| && s[..|key|] != key && Begins(first, s[1..]) && NoneBefore(first, key, n)
    ensures NoneBefore([s[0]] + first, key, n + 1)
  {
    var t := [s[0]] + first;
    forall i | 0 <= i < n + 1 ensures !At(t, key, i) {
      if i == 0 {
        if |key| <= |t| {
          assert t <= s by { assert s == [s[0]] + s[1..]; }
          assert t[0..|key|] == s[..|key|];
        }
      } else {
        assert !At(first, key, i - 1);
        if i + |key| <= |t| {
          assert t[i..i + |key|] == first[i - 1..i - 1 + |key|];
        }
      }
    }
  }

  // ---------- LITE_replace_substr ----------

  /** The occurrence of the key at i, tested character by character. */
  method Matches(original: array<char>, i: nat, key: string) returns (flag: bool)
    requires i + |key| <= original.Length
    ensures flag <==> original[i..i + |key|] == key
  {
    for j := 0 to |key|
      invariant original[i..i + j] == key[..j]
    {
      if original[i + j] != key[j] {
        assert original[i..i + |key|][j] != key[j];
        return false;
      }
      assert original[i..i + j + 1] == original[i..i + j] + [original[i + j]];
      assert key[..j + 1] == key[..j] + [key[j]];
    }
    assert key[..|key|] == key;
    return true;
  }

  lemma Holding(a: seq<char>, s: string, i: nat)
    requires HoldsStr(a, s) && i <= |s|
    ensures HoldsStr(a[i..], s[i..])
  {
  }

  /** What stands before the occurrence, what is put in, and what stands behind it. */
  method Assemble(tmp: array<char>, original: array<char>, i: nat, lengthOfKey: nat, swap: string, ghost s: string)
    requires tmp != original && tmp.Length == TMP_SIZE && HoldsStr(original[..], s)
    requires i + lengthOfKey <= |s| < TMP_SIZE && |s| - lengthOfKey + |swap| < TMP_SIZE && '\0' !in swap
    modifies tmp
    ensures HoldsStr(tmp[..], s[..i] + swap + s[i + lengthOfKey..])
  {
    hide Str, HoldsStr;
    StrOf(original[..], s);
    StrCpy(tmp, 0, Str(original[..]));
    StrCpy(tmp, i, swap);
    Holding(original[..], s, i + lengthOfKey);
    StrOf(original[..][i + lengthOfKey..], s[i + lengthOfKey..]);
    assert original[i + lengthOfKey..] == original[..][i + lengthOfKey..] by { InRange(original[..], s); }
    StrCpy(tmp, i + |swap|, Str(original[i + lengthOfKey..]));
    Built(tmp[..], original[..], s, i, lengthOfKey, swap);
  }

  lemma InRange(a: seq<char>, s: string)
    requires HoldsStr(a, s)
    ensures |s| < |a|
  {
  }

  /** The string with its occurrence at i replaced, by way of the temporary buffer. */
  method ReplaceAt(original: array<char>, i: nat, lengthOfKey: nat, swap: string)
    requires var s := Str(original[..]);
      i + lengthOfKey <= |s| < original.Length && |s| < TMP_SIZE
      && |s| - lengthOfKey + |swap| < TMP_SIZE && |s| - lengthOfKey + |swap| < original.Length
    requires '\0' !in swap
    modifies original
    ensures var s := old(Str(original[..])); Str(original[..]) == s[..i] + swap + s[i + lengthOfKey..]
  {
    hide Str, HoldsStr;
    ghost var s := Str(original[..]);
    StrHolds(original[..]);
    var tmp := new char[TMP_SIZE];
    Assemble(tmp, original, i, lengthOfKey, swap, s);
    ghost var t := s[..i] + swap + s[i + lengthOfKey..];
    StrOf(tmp[..], t);
    StrCpy(original, 0, Str(tmp[..]));
    CopiedStr(original[..], tmp[..], t);
    StrOf(original[..], t);
  }

  lemma Built(a: seq<char>, original: seq<char>, s: string, i: nat, n: nat, swap: string)
    requires HoldsStr(original, s) && i + n <= |s| && '\0' !in swap && |s| - n + |swap| < |a|
    requires forall k :: 0 <= k < i ==> a[k] == s[k]
    requires forall k :: i <= k < i + |swap| ==> a[k] == swap[k - i]
    requires forall k :: i + |swap| <= k < |s| - n + |swap| ==> a[k] == s[i + n..][k - (i + |swap|)]
    requires a[|s| - n + |swap|] == '\0'
    ensures HoldsStr(a, s[..i] + swap + s[i + n..])
  {
    var t := s[..i] + swap + s[i + n..];
    forall k | 0 <= k < |t| ensures a[k] == t[k] && t[k] != '\0' {
      if i <= k < i + |swap| {
        assert t[k] == swap[k - i];
        assert swap[k - i] in swap;
      } else if k >= i + |swap| {
        assert t[k] == s[i + n..][k - (i + |swap|)] == s[k - |swap| + n];
      }
    }
  }

  lemma CopiedStr(a: seq<char>, b: seq<char>, t: string)
    requires HoldsStr(b, t) && |t| < |a| && (forall k :: 0 <= k < |t| ==> a[k] == t[k]) && a[|t|] == '\0'
    ensures HoldsStr(a, t)
  {
  }

  /**
    Every leftmost occurrence of the key that does not overlap the one before is replaced, and what
    was put in is never looked at again. The string before and after must fit the buffers.
   */
  method LiteReplaceSubstr(original: array<char>, key: string, swap: string)
    requires key != "" && '\0' !in key && '\0' !in swap
    requires var s := Str(original[..]);
      && |s| < original.Length && |s| < TMP_SIZE
      && |Replaced(s, key, swap)| < original.Length && |Replaced(s, key, swap)| < TMP_SIZE
    modifies original
    ensures Str(original[..]) == Replaced(old(Str(original[..])), key, swap)
  {
    hide Str, Replaced;
    ghost var s := Str(original[..]);
    ghost var goal, first := Replaced(s, key, swap), |s|;
    var i := 0;
    var length := |Str(original[..])|;
    assert s[..0] == "" && s[0..] == s;
    if |swap| >= |key| {
      ReplacedLength(s, key, swap);
    }
    while i <= length - |key|
      invariant s == Str(original[..]) && 0 <= i <= length == |s| < original.Length
      invariant goal == s[..i] + Replaced(s[i..], key, swap)
      invariant length <= if |swap| >= |key| then |goal| else first
      decreases length - i
    {
      var flag := Matches(original, i, key);
      StrFront(original[..], i, |key|);
      if flag {
        Rescanned(s, key, swap, i);
        ReplaceAt(original, i, |key|, swap);
        s := Str(original[..]);
        i := i + |swap| - 1;
        length := |Str(original[..])|;
      } else {
        Unscanned(s, key, swap, i);
      }
      i := i + 1;
    }
    Finished(s, key, swap, i);
  }

  lemma StrFront(a: seq<char>, i: nat, n: nat)
    requires i + n <= |Str(a)|
    ensures |Str(a)| <= |a| && Str(a)[i..i + n] == a[i..i + n]
  {
  }

  /** One step of the scan, at i. */
  lemma Unscanned(s: string, key: string, swap: string, i: nat)
    requires key != "" && i + |key| <= |s| && s[i..i + |key|] != key
    ensures s[..i] + Replaced(s[i..], key, swap) == s[..i + 1] + Replaced(s[i + 1..], key, swap)
  {
    hide Replaced;
    ReplacedStep(s[i..], key, swap);
    assert s[i..][..|key|] == s[i..i + |key|] && s[i..][1..] == s[i + 1..];
    assert s[..i + 1] == s[..i] + [s[i]];
  }

  lemma ReplacedStep(t: string, key: string, swap: string)
    requires key != "" && |t| >= |key|
    ensures Replaced(t, key, swap) == if t[..|key|] == key then swap + Replaced(t[|key|..], key, swap)
      else [t[0]] + Replaced(t[1..], key, swap)
  {
  }

  /** A replacement at i: the scan goes on behind what was put in, and the string does not outgrow the result. */
  lemma Rescanned(s: string, key: string, swap: string, i: nat)
    requires key != "" && i + |key| <= |s| && s[i..i + |key|] == key
    ensures var t := s[..i] + swap + s[i + |key|..];
      && s[..i] + Replaced(s[i..], key, swap) == t[..i + |swap|] + Replaced(t[i + |swap|..], key, swap)
      && (|swap| >= |key| ==> |t| <= |s[..i] + Replaced(s[i..], key, swap)|)
  {
    hide Replaced;
    ReplacedStep(s[i..], key, swap);
    var t := s[..i] + swap + s[i + |key|..];
    assert s[i..][..|key|] == key && s[i..][|key|..] == s[i + |key|..];
    assert t[..i + |swap|] == s[..i] + swap && t[i + |swap|..] == s[i + |key|..];
    if |swap| >= |key| {
      ReplacedLength(s[i + |key|..], key, swap);
    }
  }

  lemma Finished(s: string, key: string, swap: string, i: nat)
    requires key != "" && i <= |s| < i + |key|
    ensures s[..i] + Replaced(s[i..], key, swap) == s
  {
  }
}
