/**
  The simple regular expressions of external_libs/googletest/src/gtest-port.cc: which texts
  are valid, what a valid text means, and that the matcher decides exactly that.
 */
module SimpleRegex {
  import opened Wrappers

  // Sizes are 64 bits wide.
  const SIZE_MAX: nat := 0xFFFF_FFFF_FFFF_FFFF

  // ---------- characters ----------

  predicate NoNul(s: string) {
    forall i :: 0 <= i < |s| ==> s[i] != '\0'
  }

  /** Reading a C string: the terminator follows the last character. */
  function At(s: string, i: nat): char
    requires i <= |s|
  {
    if i < |s| then s[i] else '\0'
  }

  predicate IsInSet(ch: char, str: string) {
    ch != '\0' && ch in str
  }

  predicate IsAsciiDigit(ch: char) {
    '0' <= ch <= '9'
  }

  predicate IsAsciiPunct(ch: char) {
    IsInSet(ch, "^-!\"#$%&'()*+,./:;<=>?@[\\]_`{|}~")
  }

  predicate IsRepeat(ch: char) {
    IsInSet(ch, "?*+")
  }

  predicate IsAsciiWhiteSpace(ch: char) {
    IsInSet(ch, " \U{C}\n\r\t\U{B}")
  }

  predicate IsAsciiWordChar(ch: char) {
    'a' <= ch <= 'z' || 'A' <= ch <= 'Z' || '0' <= ch <= '9' || ch == '_'
  }

  predicate IsValidEscape(c: char) {
    IsAsciiPunct(c) || IsInSet(c, "dDfnrsStvwW")
  }

  predicate AtomMatchesChar(escaped: bool, pattern_char: char, ch: char) {
    if escaped then
      match pattern_char
      case 'd' => IsAsciiDigit(ch)
      case 'D' => !IsAsciiDigit(ch)
      case 'f' => ch == '\U{C}'
      case 'n' => ch == '\n'
      case 'r' => ch == '\r'
      case 's' => IsAsciiWhiteSpace(ch)
      case 'S' => !IsAsciiWhiteSpace(ch)
      case 't' => ch == '\t'
      case 'v' => ch == '\U{B}'
      case 'w' => IsAsciiWordChar(ch)
      case 'W' => !IsAsciiWordChar(ch)
      case _ => IsAsciiPunct(pattern_char) && pattern_char == ch
    else
      (pattern_char == '.' && ch != '\n') || pattern_char == ch
  }

  // ---------- the language ----------

  datatype Atom = Atom(escaped: bool, c: char)

  datatype Repeat = Once | Optional | Many | Some1

  datatype Item = Item(atom: Atom, repeat: Repeat)

  /** A regular expression: its items in order, anchored at the start, at the end, at both or at neither. */
  datatype Regex = Regex(fromStart: bool, items: seq<Item>, toEnd: bool)

  predicate AllMatch(a: Atom, s: string) {
    forall i :: 0 <= i < |s| ==> AtomMatchesChar(a.escaped, a.c, s[i])
  }

  predicate CountFits(repeat: Repeat, n: nat) {
    match repeat
    case Once => n == 1
    case Optional => n <= 1
    case Many => true
    case Some1 => n >= 1
  }

  predicate ItemAccepts(item: Item, s: string) {
    CountFits(item.repeat, |s|) && AllMatch(item.atom, s)
  }

  /** s is the concatenation of one string of each item's language. */
  ghost predicate Accepts(items: seq<Item>, s: string)
    decreases |items|
  {
    if |items| == 0 then s == ""
    else exists k :: 0 <= k <= |s| && ItemAccepts(items[0], s[..k]) && Accepts(items[1..], s[k..])
  }

  /** Some prefix of str, all of it when toEnd, is in the language. */
  ghost predicate AcceptsPrefix(items: seq<Item>, toEnd: bool, str: string) {
    exists j :: 0 <= j <= |str| && (toEnd ==> j == |str|) && Accepts(items, str[..j])
  }

  /** Some substring of str, placed as the anchors say, is in the language. */
  ghost predicate FoundIn(r: Regex, str: string) {
    exists i, j :: 0 <= i <= j <= |str| && (r.fromStart ==> i == 0) && (r.toEnd ==> j == |str|)
      && Accepts(r.items, str[i..j])
  }

  // ---------- the syntax ----------

  predicate ValidAtom(a: Atom) {
    if a.escaped then IsValidEscape(a.c) else !IsInSet(a.c, "^$?*+()[]{}|") && a.c != '\\'
  }

  function RepeatText(repeat: Repeat): string {
    match repeat
    case Once => ""
    case Optional => "?"
    case Many => "*"
    case Some1 => "+"
  }

  function RepeatOf(ch: char): Repeat
    requires IsRepeat(ch)
  {
    if ch == '?' then Optional else if ch == '*' then Many else Some1
  }

  function AtomText(a: Atom): string {
    if a.escaped then ['\\', a.c] else [a.c]
  }

  function ItemText(item: Item): string {
    AtomText(item.atom) + RepeatText(item.repeat)
  }

  function TailText(items: seq<Item>, toEnd: bool): string
    decreases |items|
  {
    if |items| == 0 then if toEnd then "$" else ""
    else ItemText(items[0]) + TailText(items[1..], toEnd)
  }

  function Text(r: Regex): string {
    (if r.fromStart then "^" else "") + TailText(r.items, r.toEnd)
  }

  predicate ValidItems(items: seq<Item>) {
    forall i :: 0 <= i < |items| ==> ValidAtom(items[i].atom)
  }

  function AtomLength(s: string): nat {
    if |s| > 0 && s[0] == '\\' then 2 else 1
  }

  /** s starts with an atom. */
  predicate HeadValid(s: string) {
    var n := AtomLength(s);
    n <= |s| && ValidAtom(Atom(n == 2, s[n - 1]))
  }

  function HeadItem(s: string): Item
    requires HeadValid(s)
  {
    var n := AtomLength(s);
    Item(Atom(n == 2, s[n - 1]), if n < |s| && IsRepeat(s[n]) then RepeatOf(s[n]) else Once)
  }

  function HeadLength(s: string): (n: nat)
    requires HeadValid(s)
    ensures 0 < n <= |s|
  {
    var n := AtomLength(s);
    if n < |s| && IsRepeat(s[n]) then n + 1 else n
  }

  datatype Tail = Tail(items: seq<Item>, toEnd: bool)

  function ParseTail(s: string): Option<Tail> {
    if s == "" then Some(Tail([], false))
    else if s == "$" then Some(Tail([], true))
    else if !HeadValid(s) then None
    else
      match ParseTail(s[HeadLength(s)..])
      case None => None
      case Some(tail) => Some(Tail([HeadItem(s)] + tail.items, tail.toEnd))
  }

  function Parse(s: string): Option<Regex> {
    var anchored := |s| > 0 && s[0] == '^';
    match ParseTail(if anchored then s[1..] else s)
    case None => None
    case Some(tail) => Some(Regex(anchored, tail.items, tail.toEnd))
  }

  lemma HeadText(s: string)
    requires HeadValid(s)
    ensures ValidAtom(HeadItem(s).atom) && s == ItemText(HeadItem(s)) + s[HeadLength(s)..]
  {
    hide ValidAtom;
    var n := AtomLength(s);
    if n < |s| && IsRepeat(s[n]) {
      assert RepeatText(RepeatOf(s[n])) == [s[n]];
    }
  }

  lemma TextHead(item: Item, rest: string)
    requires ValidAtom(item.atom) && (rest != "" ==> !IsRepeat(rest[0]))
    ensures var s := ItemText(item) + rest;
      HeadValid(s) && HeadItem(s) == item && HeadLength(s) == |ItemText(item)| && s[HeadLength(s)..] == rest
        && s != "$" && s[0] != '^' && !IsRepeat(s[0])
  {
    hide IsValidEscape;
    var s, n := ItemText(item) + rest, |AtomText(item.atom)|;
    assert s[0] == AtomText(item.atom)[0];
    assert n == AtomLength(s) && s[n - 1] == item.atom.c;
    if item.repeat == Once {
      assert n < |s| ==> s[n] == rest[0];
    } else {
      assert s[n] == RepeatText(item.repeat)[0];
      assert IsRepeat(s[n]) && RepeatOf(s[n]) == item.repeat;
    }
  }

  /** Parsing keeps the text. */
  lemma {:induction false} ParseTailText(s: string)
    ensures var p := ParseTail(s); p.Some? ==> ValidItems(p.value.items) && TailText(p.value.items, p.value.toEnd) == s
  {
    hide ValidAtom, HeadValid, HeadItem, HeadLength, ItemText;
    var p := ParseTail(s);
    if p.Some? && s != "" && s != "$" {
      ParseTailText(s[HeadLength(s)..]);
      HeadText(s);
      assert p.value.items[1..] == ParseTail(s[HeadLength(s)..]).value.items;
    }
  }

  lemma TextStart(items: seq<Item>, toEnd: bool)
    requires ValidItems(items)
    ensures var s := TailText(items, toEnd); s != "" ==> !IsRepeat(s[0]) && s[0] != '^'
  {
    if |items| > 0 {
      hide ValidAtom, IsRepeat;
      ItemTextStart(items[0]);
      assert TailText(items, toEnd)[0] == ItemText(items[0])[0];
    }
  }

  lemma ItemTextStart(item: Item)
    requires ValidAtom(item.atom)
    ensures ItemText(item) != "" && !IsRepeat(ItemText(item)[0]) && ItemText(item)[0] != '^'
  {
    TextHead(item, "");
    assert ItemText(item) + "" == ItemText(item);
  }

  /** Printing keeps the meaning. */
  lemma {:induction false} TailTextParses(items: seq<Item>, toEnd: bool)
    requires ValidItems(items)
    ensures ParseTail(TailText(items, toEnd)) == Some(Tail(items, toEnd))
    decreases |items|
  {
    hide ValidAtom, HeadValid, HeadItem, HeadLength, ItemText, IsRepeat;
    if |items| > 0 {
      TailTextParses(items[1..], toEnd);
      TextStart(items[1..], toEnd);
      TextHead(items[0], TailText(items[1..], toEnd));
      assert items == [items[0]] + items[1..];
    }
  }

  predicate ValidRegex(r: Regex) {
    ValidItems(r.items)
  }

  /** A text has at most one reading, and it has one exactly when it prints some valid regex. */
  lemma ParseIffText(s: string, r: Regex)
    ensures Parse(s) == Some(r) <==> ValidRegex(r) && Text(r) == s
  {
    hide ParseTail, TailText, ValidAtom, IsRepeat;
    ParseTailText(if |s| > 0 && s[0] == '^' then s[1..] else s);
    if ValidRegex(r) {
      TailTextParses(r.items, r.toEnd);
      TextStart(r.items, r.toEnd);
      if r.fromStart {
        assert Text(r)[1..] == TailText(r.items, r.toEnd);
      } else {
        assert Text(r) == TailText(r.items, r.toEnd);
      }
    }
  }

  // ---------- ValidateRegex ----------

  /** The loop's verdict on what is left of the text. */
  predicate CheckFrom(s: string, first: bool, prev_repeatable: bool) {
    if s == "" then true
    else if s[0] == '\\' then |s| > 1 && IsValidEscape(s[1]) && CheckFrom(s[2..], false, true)
    else
      && !(s[0] == '^' && !first) && !(s[0] == '$' && |s| > 1)
      && !IsInSet(s[0], "()[]{}|") && !(IsRepeat(s[0]) && !prev_repeatable)
      && CheckFrom(s[1..], false, !IsInSet(s[0], "^$?*+"))
  }

  /** A character that is neither special nor an escape is an atom. */
  lemma PlainAtom(ch: char)
    requires ch != '\\'
    ensures ValidAtom(Atom(false, ch)) <==> ch != '^' && ch != '$' && !IsRepeat(ch) && !IsInSet(ch, "()[]{}|")
    ensures IsInSet(ch, "^$?*+") <==> ch == '^' || ch == '$' || IsRepeat(ch)
    ensures ch == '$' || IsRepeat(ch) ==> !IsInSet(ch, "()[]{}|") && ch != '^' && (ch == '$' ==> !IsRepeat(ch))
  {
  }

  predicate Readable(s: string) {
    ParseTail(s).Some?
  }

  /** Past the first character the loop accepts exactly the readable texts, a repetition allowed after an atom. */
  lemma {:induction false} CheckIsParse(s: string, prev_repeatable: bool)
    ensures CheckFrom(s, false, prev_repeatable) <==>
      if prev_repeatable && s != "" && IsRepeat(s[0]) then Readable(s[1..]) else Readable(s)
    decreases |s|
  {
    hide ValidAtom, IsValidEscape, IsInSet, IsRepeat;
    if s != "" {
      if s[0] == '\\' {
        EscapeIsParse(s);
        if |s| > 1 {
          CheckIsParse(s[2..], true);
        }
      } else {
        PlainAtom(s[0]);
        PlainIsParse(s);
        CheckIsParse(s[1..], !IsInSet(s[0], "^$?*+"));
      }
    }
  }

  lemma EscapeIsParse(s: string)
    requires s != "" && s[0] == '\\'
    ensures !IsRepeat(s[0])
    ensures Readable(s) <==>
      |s| > 1 && IsValidEscape(s[1]) && if |s| > 2 && IsRepeat(s[2]) then Readable(s[3..]) else Readable(s[2..])
    ensures |s| > 2 ==> s[2..][1..] == s[3..]
  {
    hide IsValidEscape;
  }

  lemma PlainIsParse(s: string)
    requires s != "" && s[0] != '\\'
    ensures IsRepeat(s[0]) ==> !Readable(s)
    ensures s[0] == '^' ==> !Readable(s)
    ensures s[0] == '$' ==> (Readable(s) <==> |s| == 1)
    ensures IsInSet(s[0], "()[]{}|") ==> !Readable(s)
    ensures s[0] != '^' && s[0] != '$' && !IsRepeat(s[0]) && !IsInSet(s[0], "()[]{}|") ==>
      (Readable(s) <==> if |s| > 1 && IsRepeat(s[1]) then Readable(s[2..]) else Readable(s[1..]))
    ensures |s| > 1 ==> s[1..][1..] == s[2..]
    ensures Readable("")
  {
    PlainAtom(s[0]);
    hide ValidAtom, IsInSet;
  }

  /** The whole text is accepted exactly when it can be read as a regex. */
  lemma CheckIsParseWhole(s: string)
    ensures CheckFrom(s, true, false) <==> Parse(s).Some?
  {
    if s != "" && s[0] == '^' {
      CheckIsParse(s[1..], false);
    } else {
      CheckIsParse(s, false);
    }
  }

  /** True exactly for the texts of valid regexes. */
  method ValidateRegex(regex: string) returns (is_valid: bool)
    requires NoNul(regex)
    ensures is_valid <==> Parse(regex).Some?
    ensures is_valid <==> exists r :: ValidRegex(r) && Text(r) == regex
  {
    hide IsInSet, IsValidEscape, IsRepeat, Parse, ValidRegex, Text;
    CheckIsParseWhole(regex);
    forall r ensures Parse(regex) == Some(r) <==> ValidRegex(r) && Text(r) == regex {
      ParseIffText(regex, r);
    }
    is_valid := true;
    var prev_repeatable := false;
    var i := 0;
    assert regex[0..] == regex;
    while At(regex, i) != '\0'
      invariant 0 <= i <= |regex|
      invariant is_valid && CheckFrom(regex[i..], i == 0, prev_repeatable) <==> CheckFrom(regex, true, false)
      decreases |regex| - i
    {
      ghost var rest := regex[i..];
      assert rest[0] == regex[i];
      if At(regex, i) == '\\' {
        i := i + 1;
        if At(regex, i) == '\0' {
          return false;
        }
        assert rest[1] == regex[i] && rest[2..] == regex[i + 1..];
        if !IsValidEscape(At(regex, i)) {
          is_valid := false;
        }
        prev_repeatable := true;
      } else {
        var ch := At(regex, i);
        assert rest[1..] == regex[i + 1..];
        if ch == '^' && i > 0 {
          is_valid := false;
        } else if ch == '$' && At(regex, i + 1) != '\0' {
          is_valid := false;
        } else if IsInSet(ch, "()[]{}|") {
          is_valid := false;
        } else if IsRepeat(ch) && !prev_repeatable {
          is_valid := false;
        }
        prev_repeatable := !IsInSet(ch, "^$?*+");
      }
      i := i + 1;
    }
  }

  // ---------- the matcher ----------

  /** Where the first item can end and the rest go on. */
  lemma HeadSplits(items: seq<Item>, toEnd: bool, str: string)
    requires |items| > 0
    ensures AcceptsPrefix(items, toEnd, str) <==>
      exists k :: 0 <= k <= |str| && ItemAccepts(items[0], str[..k]) && AcceptsPrefix(items[1..], toEnd, str[k..])
  {
    hide ItemAccepts;
    if AcceptsPrefix(items, toEnd, str) {
      var j :| 0 <= j <= |str| && (toEnd ==> j == |str|) && Accepts(items, str[..j]);
      var k :| 0 <= k <= |str[..j]| && ItemAccepts(items[0], str[..j][..k]) && Accepts(items[1..], str[..j][k..]);
      assert str[..j][..k] == str[..k] && str[..j][k..] == str[k..][..j - k];
    }
    forall k | 0 <= k <= |str| && ItemAccepts(items[0], str[..k]) && AcceptsPrefix(items[1..], toEnd, str[k..])
      ensures AcceptsPrefix(items, toEnd, str)
    {
      var rest := str[k..];
      var m :| 0 <= m <= |rest| && (toEnd ==> m == |rest|) && Accepts(items[1..], rest[..m]);
      assert str[..k + m][..k] == str[..k] && str[..k + m][k..] == rest[..m];
      assert Accepts(items, str[..k + m]);
    }
  }

  /** The rest of a readable text after its first item. */
  lemma TailParsed(s: string)
    requires ParseTail(s).Some? && s != "" && s != "$"
    ensures HeadValid(s) && ParseTail(s[HeadLength(s)..]).Some?
    ensures var t := ParseTail(s).value;
      |t.items| > 0 && t.items[0] == HeadItem(s) && t.items[1..] == ParseTail(s[HeadLength(s)..]).value.items
    ensures ParseTail(s).value.toEnd == ParseTail(s[HeadLength(s)..]).value.toEnd
  {
    hide HeadValid, HeadItem, HeadLength;
    assert ([HeadItem(s)] + ParseTail(s[HeadLength(s)..]).value.items)[1..]
      == ParseTail(s[HeadLength(s)..]).value.items;
  }

  /** What a readable text matches at the head of str. */
  ghost predicate HeadMatches(regex: string, str: string)
    requires ParseTail(regex).Some?
  {
    AcceptsPrefix(ParseTail(regex).value.items, ParseTail(regex).value.toEnd, str)
  }

  /** Nothing and the end anchor. */
  lemma MatchesNoItem(regex: string, str: string)
    requires regex == "" || (regex[0] == '$' && ParseTail(regex).Some?)
    ensures regex == "" ==> HeadMatches(regex, str)
    ensures regex != "" ==> (HeadMatches(regex, str) <==> str == "")
  {
    if regex == "" {
      assert Accepts([], str[..0]);
    } else {
      PlainIsParse(regex);
      assert str[..|str|] == str;
    }
  }

  lemma MatchesItem(regex: string, str: string)
    requires ParseTail(regex).Some? && regex != "" && regex != "$"
    ensures HeadValid(regex) && ParseTail(regex[HeadLength(regex)..]).Some?
    ensures HeadMatches(regex, str) <==>
      exists k :: 0 <= k <= |str| && ItemAccepts(HeadItem(regex), str[..k])
        && HeadMatches(regex[HeadLength(regex)..], str[k..])
  {
    TailParsed(regex);
    hide HeadValid, HeadItem, HeadLength, ParseTail, ItemAccepts, AcceptsPrefix;
    HeadSplits(ParseTail(regex).value.items, ParseTail(regex).value.toEnd, str);
  }

  lemma TerminatorIsPlain()
    ensures !IsRepeat('\0')
  {
  }

  /** An atom without repetition takes exactly one character. */
  lemma MatchesOnce(regex: string, str: string)
    requires ParseTail(regex).Some? && regex != "" && regex != "$" && HeadValid(regex) && HeadItem(regex).repeat == Once
    ensures ParseTail(regex[HeadLength(regex)..]).Some?
    ensures var a := HeadItem(regex).atom;
      HeadMatches(regex, str) <==>
        str != "" && AtomMatchesChar(a.escaped, a.c, str[0]) && HeadMatches(regex[HeadLength(regex)..], str[1..])
  {
    hide HeadValid, HeadItem, HeadLength, ParseTail, AtomMatchesChar, HeadMatches;
    MatchesItem(regex, str);
    if str != "" {
      assert ItemAccepts(HeadItem(regex), str[..1]) <==>
        AtomMatchesChar(HeadItem(regex).atom.escaped, HeadItem(regex).atom.c, str[0]);
    }
  }

  /** A repeated atom and the regex after it match when some allowed number of characters goes to the atom. */
  method MatchRepetitionAndRegexAtHead(escaped: bool, c: char, repeat: char, regex: string, str: string)
    returns (b: bool)
    requires IsRepeat(repeat) && ParseTail(regex).Some? && NoNul(regex) && NoNul(str) && |str| < SIZE_MAX
    ensures b <==> exists k ::
      0 <= k <= |str| && ItemAccepts(Item(Atom(escaped, c), RepeatOf(repeat)), str[..k]) && HeadMatches(regex, str[k..])
    decreases |regex|, 1
  {
    hide AtomMatchesChar, HeadMatches, ParseTail;
    var min_count: nat := if repeat == '+' then 1 else 0;
    var max_count: nat := if repeat == '?' then 1 else SIZE_MAX - 1;
    ghost var item := Item(Atom(escaped, c), RepeatOf(repeat));
    var i: nat := 0;
    while i <= max_count
      invariant i <= |str| && i <= max_count + 1
      invariant AllMatch(item.atom, str[..i])
      invariant forall k :: 0 <= k < i && ItemAccepts(item, str[..k]) ==> !HeadMatches(regex, str[k..])
    {
      // so far i repetitions have matched
      assert ItemAccepts(item, str[..i]) <==> min_count <= i;
      if i >= min_count {
        var matched := MatchRegexAtHead(regex, str[i..]);
        if matched {
          return true;
        }
      }
      if At(str, i) == '\0' || !AtomMatchesChar(escaped, c, At(str, i)) {
        forall k | i < k <= |str| ensures !ItemAccepts(item, str[..k]) {
          assert str[..k][i] == str[i];
        }
        return false;
      }
      i := i + 1;
    }
    forall k | i <= k <= |str| ensures !ItemAccepts(item, str[..k]) {
    }
    return false;
  }

  /** True exactly when a prefix of str, all of it for a regex ending in an anchor, is in the language. */
  method MatchRegexAtHead(regex: string, str: string) returns (b: bool)
    requires ParseTail(regex).Some? && NoNul(regex) && NoNul(str) && |str| < SIZE_MAX
    ensures b <==> HeadMatches(regex, str)
    decreases |regex|, 0
  {
    hide ParseTail, HeadMatches, ItemAccepts, ValidAtom, IsRepeat, IsInSet, AtomMatchesChar;
    if At(regex, 0) == '\0' {
      MatchesNoItem(regex, str);
      return true;
    }
    if At(regex, 0) == '$' {
      MatchesNoItem(regex, str);
      return At(str, 0) == '\0';
    }
    MatchesItem(regex, str);
    TerminatorIsPlain();
    var escaped := At(regex, 0) == '\\';
    var rest := if escaped then regex[1..] else regex;
    if IsRepeat(At(rest, 1)) {
      assert rest[2..] == regex[HeadLength(regex)..];
      b := MatchRepetitionAndRegexAtHead(escaped, At(rest, 0), At(rest, 1), rest[2..], str);
    } else {
      MatchesOnce(regex, str);
      assert rest[1..] == regex[HeadLength(regex)..];
      if At(str, 0) != '\0' && AtomMatchesChar(escaped, At(rest, 0), At(str, 0)) {
        b := MatchRegexAtHead(rest[1..], str[1..]);
      } else {
        b := false;
      }
    }
  }

  /** A match that starts at i is a prefix match of what is left from i on. */
  lemma FoundIsPrefixMatch(r: Regex, str: string)
    ensures FoundIn(r, str) <==>
      exists i :: 0 <= i <= |str| && (r.fromStart ==> i == 0) && AcceptsPrefix(r.items, r.toEnd, str[i..])
  {
    hide Accepts;
    if FoundIn(r, str) {
      var i, j :| 0 <= i <= j <= |str| && (r.fromStart ==> i == 0) && (r.toEnd ==> j == |str|)
        && Accepts(r.items, str[i..j]);
      assert str[i..][..j - i] == str[i..j];
    }
    forall i | 0 <= i <= |str| && (r.fromStart ==> i == 0) && AcceptsPrefix(r.items, r.toEnd, str[i..])
      ensures FoundIn(r, str)
    {
      var m :| 0 <= m <= |str[i..]| && (r.toEnd ==> m == |str[i..]|) && Accepts(r.items, str[i..][..m]);
      assert str[i..][..m] == str[i..i + m];
    }
  }

  /**
    For every regex accepted by ValidateRegex: true exactly when some substring, placed as the
    anchors say, is in the language.
   */
  method MatchRegexAnywhere(regex: string, str: string) returns (b: bool)
    requires Parse(regex).Some? && NoNul(regex) && NoNul(str) && |str| < SIZE_MAX
    ensures b <==> FoundIn(Parse(regex).value, str)
  {
    hide ParseTail, AcceptsPrefix, FoundIn;
    FoundIsPrefixMatch(Parse(regex).value, str);
    if At(regex, 0) == '^' {
      b := MatchRegexAtHead(regex[1..], str);
      assert str[0..] == str;
      return;
    }
    var i := 0;
    while true
      invariant 0 <= i <= |str|
      invariant forall k :: 0 <= k < i ==> !HeadMatches(regex, str[k..])
      decreases |str| - i
    {
      b := MatchRegexAtHead(regex, str[i..]);
      if b {
        return true;
      }
      if At(str, i) == '\0' {
        break;
      }
      i := i + 1;
    }
    return false;
  }

  // ---------- the RE class ----------

  /** A text whose last character is a dollar without being an end anchor. */
  predicate EndsInEscapedDollar(r: Regex) {
    !r.toEnd && |r.items| > 0 && r.items[|r.items| - 1] == Item(Atom(true, '$'), Once)
  }

  /** The whole of str is in the language. */
  ghost predicate Whole(r: Regex, str: string) {
    Accepts(r.items, str)
  }

  /** What the text of items without an end anchor ends in. */
  lemma {:induction false} LastOfTail(items: seq<Item>, toEnd: bool)
    requires ValidItems(items)
    ensures var s := TailText(items, toEnd);
      (s != "" && s[|s| - 1] == '$') <==> toEnd || EndsInEscapedDollar(Regex(false, items, toEnd))
    decreases |items|
  {
    if |items| > 0 {
      hide ValidAtom, ItemText, TailText, EndsInEscapedDollar;
      LastOfTail(items[1..], toEnd);
      DollarInLast(items, toEnd);
      LastOfItem(items[0]);
      TailTextStep(items, toEnd);
      var s, rest := TailText(items, toEnd), TailText(items[1..], toEnd);
      if |items| > 1 {
        TailTextStep(items[1..], toEnd);
        LastOfItem(items[1]);
        assert rest != "" && s[|s| - 1] == rest[|rest| - 1];
      } else {
        assert items[1..] == [];
        NoTail(toEnd);
      }
    }
  }

  lemma DollarInLast(items: seq<Item>, toEnd: bool)
    requires |items| > 0
    ensures EndsInEscapedDollar(Regex(false, items, toEnd)) <==>
      if |items| > 1 then EndsInEscapedDollar(Regex(false, items[1..], toEnd))
      else !toEnd && items[0] == Item(Atom(true, '$'), Once)
  {
    if |items| > 1 {
      assert items[1..][|items[1..]| - 1] == items[|items| - 1];
    }
  }

  lemma TailTextStep(items: seq<Item>, toEnd: bool)
    requires |items| > 0
    ensures TailText(items, toEnd) == ItemText(items[0]) + TailText(items[1..], toEnd)
  {
    hide ItemText;
  }

  lemma NoTail(toEnd: bool)
    ensures TailText([], toEnd) == if toEnd then "$" else ""
  {
  }

  lemma LastOfItem(item: Item)
    requires ValidAtom(item.atom)
    ensures var t := ItemText(item); t != "" && (t[|t| - 1] == '$' <==> item == Item(Atom(true, '$'), Once))
  {
    var t := ItemText(item);
    assert item.repeat == Once ==> t == AtomText(item.atom);
  }

  /** A dollar after a text that ends in no dollar is its end anchor. */
  lemma {:induction false} DollarAnchors(items: seq<Item>)
    ensures TailText(items, false) + "$" == TailText(items, true)
    decreases |items|
  {
    if |items| > 0 {
      DollarAnchors(items[1..]);
    }
  }

  /** The pattern that Init builds for a full match. */
  function FullPattern(regex: string): string {
    (if regex != "" && regex[0] == '^' then "" else "^") + regex
    + if regex == "" || regex[|regex| - 1] != '$' then "$" else ""
  }

  /**
    The full pattern has the same items, anchored at the start, and at the end unless the text ends
    in an escaped dollar.
   */
  lemma FullPatternParses(regex: string, r: Regex)
    requires Parse(regex) == Some(r)
    ensures Parse(FullPattern(regex)) == Some(Regex(true, r.items, !EndsInEscapedDollar(r)))
  {
    hide ParseTail, TailText, EndsInEscapedDollar, ValidAtom;
    ParseIffText(regex, r);
    var tail := TailText(r.items, r.toEnd);
    LastOfTail(r.items, r.toEnd);
    TextStart(r.items, r.toEnd);
    assert regex == (if r.fromStart then "^" + tail else tail);
    SameEnd(r);
    DollarAnchors(r.items);
    var full := Regex(true, r.items, !EndsInEscapedDollar(r));
    if r.toEnd || EndsInEscapedDollar(r) {
      assert FullPattern(regex) == "^" + tail;
    } else {
      assert FullPattern(regex) == "^" + tail + "$" == "^" + (tail + "$");
    }
    ParseIffText(FullPattern(regex), full);
  }

  lemma SameEnd(r: Regex)
    ensures EndsInEscapedDollar(r) <==> EndsInEscapedDollar(Regex(false, r.items, r.toEnd))
    ensures r.toEnd ==> !EndsInEscapedDollar(r)
  {
  }

  class RE {
    var pattern: string
    var full_pattern: string
    var is_valid: bool

    ghost predicate Valid()
      reads this
    {
      && NoNul(pattern) && (is_valid <==> Parse(pattern).Some?)
      && (is_valid ==> full_pattern == FullPattern(pattern))
    }

    constructor Init(regex: string)
      requires NoNul(regex)
      ensures Valid() && pattern == regex
    {
      hide Parse, ParseTail, Text, ValidRegex, NoNul, IsInSet;
      pattern := regex;
      full_pattern := "";
      is_valid := false;
      new;
      is_valid := ValidateRegex(regex);
      if !is_valid {
        // an invalid pattern never gets a full one
        return;
      }
      var buffer := "";
      if At(regex, 0) != '^' {
        buffer := buffer + "^";
      }
      buffer := buffer + regex;
      if |regex| == 0 || regex[|regex| - 1] != '$' {
        buffer := buffer + "$";
      }
      full_pattern := buffer;
      assert full_pattern == FullPattern(pattern);
    }

    /** The whole of str matches, except that after an escaped dollar at the end of the regex anything may follow. */
    method FullMatch(str: string) returns (b: bool)
      requires Valid() && NoNul(str) && |str| < SIZE_MAX
      ensures is_valid ==> (b <==> FullMatches(Parse(pattern).value, str))
      ensures !is_valid ==> !b
    {
      hide Parse, FoundIn, EndsInEscapedDollar, FullMatches;
      if !is_valid {
        return false;
      }
      FullPatternParses(pattern, Parse(pattern).value);
      FullPatternHasNoNul(pattern);
      b := MatchRegexAnywhere(full_pattern, str);
      FullMatchMeans(Parse(pattern).value, str);
    }

    /** Some substring of str matches, placed as the regex's own anchors say. */
    method PartialMatch(str: string) returns (b: bool)
      requires Valid() && NoNul(str) && |str| < SIZE_MAX
      ensures b <==> is_valid && FoundIn(Parse(pattern).value, str)
    {
      if !is_valid {
        return false;
      }
      b := MatchRegexAnywhere(pattern, str);
    }
  }

  lemma FullPatternHasNoNul(regex: string)
    requires NoNul(regex)
    ensures NoNul(FullPattern(regex))
  {
  }

  /** What FullMatch decides. */
  ghost predicate FullMatches(r: Regex, str: string) {
    if EndsInEscapedDollar(r) then AcceptsPrefix(r.items, false, str) else Whole(r, str)
  }

  lemma FullMatchMeans(r: Regex, str: string)
    ensures FullMatches(r, str) <==> FoundIn(Regex(true, r.items, !EndsInEscapedDollar(r)), str)
  {
    hide Accepts, EndsInEscapedDollar;
    FoundIsPrefixMatch(Regex(true, r.items, !EndsInEscapedDollar(r)), str);
    assert str[0..] == str && str[..|str|] == str;
  }

  // ---------- when a full match is one ----------

  /** A character that the atom matches. */
  function Sample(a: Atom): char {
    if !a.escaped then if a.c == '.' then 'a' else a.c
    else
      match a.c
      case 'd' => '0'
      case 'D' => 'a'
      case 'f' => '\U{C}'
      case 'n' => '\n'
      case 'r' => '\r'
      case 's' => ' '
      case 'S' => 'a'
      case 't' => '\t'
      case 'v' => '\U{B}'
      case 'w' => 'a'
      case 'W' => ' '
      case _ => a.c
  }

  lemma SampleMatches(a: Atom)
    requires ValidAtom(a)
    ensures AtomMatchesChar(a.escaped, a.c, Sample(a))
  {
  }

  /** A string of the language: one character for each item that needs one. */
  function Shortest(items: seq<Item>): string
    decreases |items|
  {
    if |items| == 0 then ""
    else (if CountFits(items[0].repeat, 0) then "" else [Sample(items[0].atom)]) + Shortest(items[1..])
  }

  lemma {:induction false} ShortestAccepted(items: seq<Item>)
    requires ValidItems(items)
    ensures Accepts(items, Shortest(items))
    decreases |items|
  {
    hide AtomMatchesChar, ValidAtom, Sample;
    if |items| > 0 {
      ShortestAccepted(items[1..]);
      SampleMatches(items[0].atom);
      var s := Shortest(items);
      var k := if CountFits(items[0].repeat, 0) then 0 else 1;
      assert s[k..] == Shortest(items[1..]);
      assert ItemAccepts(items[0], s[..k]);
    }
  }

  /** A language whose last item is an escaped dollar has only strings that end in a dollar. */
  lemma {:induction false} EndsInDollar(items: seq<Item>, s: string)
    requires |items| > 0 && items[|items| - 1] == Item(Atom(true, '$'), Once) && Accepts(items, s)
    ensures s != "" && s[|s| - 1] == '$'
    decreases |items|
  {
    var k :| 0 <= k <= |s| && ItemAccepts(items[0], s[..k]) && Accepts(items[1..], s[k..]);
    if |items| == 1 {
      assert s[..k][0] == s[0];
    } else {
      EndsInDollar(items[1..], s[k..]);
    }
  }

  /** FullMatch decides the whole string for every string exactly when the regex does not end in an escaped dollar. */
  lemma FullMatchIsWholeIff(r: Regex)
    requires ValidRegex(r)
    ensures (forall str :: FullMatches(r, str) <==> Whole(r, str)) <==> !EndsInEscapedDollar(r)
  {
    if EndsInEscapedDollar(r) {
      var s := Shortest(r.items);
      ShortestAccepted(r.items);
      assert (s + "x")[..|s|] == s;
      if Whole(r, s + "x") {
        EndsInDollar(r.items, s + "x");
        assert false;
      }
      assert FullMatches(r, s + "x") && !Whole(r, s + "x");
    }
  }

  /** The regex of one escaped dollar fully matches a dollar and any text after it. */
  lemma FullMatchTooLong()
    ensures Parse("\\$") == Some(Regex(false, [Item(Atom(true, '$'), Once)], false))
    ensures FullMatches(Parse("\\$").value, "$x") && !Whole(Parse("\\$").value, "$x")
  {
    var r := Regex(false, [Item(Atom(true, '$'), Once)], false);
    assert Text(r) == "\\$" && ValidRegex(r);
    ParseIffText("\\$", r);
    assert Accepts([], "$"[1..]);
    assert ItemAccepts(r.items[0], "$"[..1]);
    assert Accepts(r.items, "$x"[..1]) by { assert "$x"[..1] == "$"; }
    if Whole(r, "$x") {
      EndsInDollar(r.items, "$x");
      assert false;
    }
  }

  // ---------- the atoms ----------

  lemma SmallLetters(ch: char)
    ensures 'a' <= ch <= 'z' <==> ch in "abcdefghijklmnopqrstuvwxyz"
  {
    var letters := "abcdefghijklmnopqrstuvwxyz";
    assert forall k :: 0 <= k < 26 ==> letters[k] as int == 97 + k;
    if 'a' <= ch <= 'z' {
      assert letters[ch as int - 97] == ch;
    }
  }

  lemma CapitalLetters(ch: char)
    ensures 'A' <= ch <= 'Z' <==> ch in "ABCDEFGHIJKLMNOPQRSTUVWXYZ"
  {
    var letters := "ABCDEFGHIJKLMNOPQRSTUVWXYZ";
    assert forall k :: 0 <= k < 26 ==> letters[k] as int == 65 + k;
    if 'A' <= ch <= 'Z' {
      assert letters[ch as int - 65] == ch;
    }
  }

  /** What the three classes stand for; their capitals stand for the rest. */
  lemma ClassLanguage(ch: char)
    ensures AtomMatchesChar(true, 'd', ch) <==> ch in "0123456789"
    ensures AtomMatchesChar(true, 's', ch) <==> ch in " \t\n\r\U{B}\U{C}"
    ensures AtomMatchesChar(true, 'w', ch) <==>
      ch == '_' || AtomMatchesChar(true, 'd', ch) || ch in "abcdefghijklmnopqrstuvwxyz"
        || ch in "ABCDEFGHIJKLMNOPQRSTUVWXYZ"
    ensures AtomMatchesChar(true, 'D', ch) <==> !AtomMatchesChar(true, 'd', ch)
    ensures AtomMatchesChar(true, 'S', ch) <==> !AtomMatchesChar(true, 's', ch)
    ensures AtomMatchesChar(true, 'W', ch) <==> !AtomMatchesChar(true, 'w', ch)
  {
    SmallLetters(ch);
    CapitalLetters(ch);
    Digits(ch);
  }

  lemma Digits(ch: char)
    ensures IsAsciiDigit(ch) <==> ch in "0123456789"
  {
    var digits := "0123456789";
    assert forall k :: 0 <= k < 10 ==> digits[k] as int == 48 + k;
    if IsAsciiDigit(ch) {
      assert digits[ch as int - 48] == ch;
    }
  }

  lemma PunctuationIsNoLetter(c: char)
    requires IsAsciiPunct(c)
    ensures !('a' <= c <= 'z') && !('A' <= c <= 'Z')
  {
    var punct := "^-!\"#$%&'()*+,./:;<=>?@[\\]_`{|}~";
    assert forall k :: 0 <= k < |punct| ==> !('a' <= punct[k] <= 'z') && !('A' <= punct[k] <= 'Z');
  }

  /** Punctuation is what is printable in ASCII and is no blank, digit or letter. */
  lemma PunctuationCodes(c: char)
    ensures IsAsciiPunct(c) <==>
      var code := c as int;
      33 <= code <= 47 || 58 <= code <= 64 || 91 <= code <= 96 || 123 <= code <= 126
  {
    hide IsAsciiPunct;
    PunctuationRange(c);
    var code := c as int;
    if 33 <= code <= 47 {
      PunctuationBeforeDigits(c);
    } else if 58 <= code <= 64 {
      PunctuationBeforeCapitals(c);
    } else if 91 <= code <= 96 {
      PunctuationBeforeLetters(c);
    } else if 123 <= code <= 126 {
      PunctuationBehindLetters(c);
    }
  }

  lemma PunctuationBeforeDigits(c: char)
    requires 33 <= c as int <= 47
    ensures IsAsciiPunct(c)
  {
    var punct := "^-!\"#$%&'()*+,./:;<=>?@[\\]_`{|}~";
    assert punct[2] as int == 33 && punct[3] as int == 34 && punct[4] as int == 35 && punct[5] as int == 36;
    assert punct[6] as int == 37 && punct[7] as int == 38 && punct[8] as int == 39 && punct[9] as int == 40;
    assert punct[10] as int == 41 && punct[11] as int == 42 && punct[12] as int == 43 && punct[13] as int == 44;
    assert punct[1] as int == 45 && punct[14] as int == 46 && punct[15] as int == 47;
  }

  lemma PunctuationBeforeCapitals(c: char)
    requires 58 <= c as int <= 64
    ensures IsAsciiPunct(c)
  {
    var punct := "^-!\"#$%&'()*+,./:;<=>?@[\\]_`{|}~";
    assert punct[16] as int == 58 && punct[17] as int == 59 && punct[18] as int == 60 && punct[19] as int == 61;
    assert punct[20] as int == 62 && punct[21] as int == 63 && punct[22] as int == 64;
  }

  lemma PunctuationBeforeLetters(c: char)
    requires 91 <= c as int <= 96
    ensures IsAsciiPunct(c)
  {
    var punct := "^-!\"#$%&'()*+,./:;<=>?@[\\]_`{|}~";
    assert punct[23] as int == 91 && punct[24] as int == 92 && punct[25] as int == 93 && punct[0] as int == 94;
    assert punct[26] as int == 95 && punct[27] as int == 96;
  }

  lemma PunctuationBehindLetters(c: char)
    requires 123 <= c as int <= 126
    ensures IsAsciiPunct(c)
  {
    var punct := "^-!\"#$%&'()*+,./:;<=>?@[\\]_`{|}~";
    assert punct[28] as int == 123 && punct[29] as int == 124 && punct[30] as int == 125 && punct[31] as int == 126;
  }

  lemma PunctuationRange(c: char)
    ensures IsAsciiPunct(c) ==>
      33 <= c as int <= 47 || 58 <= c as int <= 64 || 91 <= c as int <= 96 || 123 <= c as int <= 126
  {
    var punct := "^-!\"#$%&'()*+,./:;<=>?@[\\]_`{|}~";
    assert forall k :: 0 <= k < |punct| ==>
      33 <= punct[k] as int <= 47 || 58 <= punct[k] as int <= 64 || 91 <= punct[k] as int <= 96
        || 123 <= punct[k] as int <= 126;
  }

  /** Form feed, line feed, carriage return, tab and vertical tab, by their codes. */
  lemma ControlLanguage(ch: char)
    ensures AtomMatchesChar(true, 'f', ch) <==> ch as int == 12
    ensures AtomMatchesChar(true, 'n', ch) <==> ch as int == 10
    ensures AtomMatchesChar(true, 'r', ch) <==> ch as int == 13
    ensures AtomMatchesChar(true, 't', ch) <==> ch as int == 9
    ensures AtomMatchesChar(true, 'v', ch) <==> ch as int == 11
  {
  }

  /** What an atom followed by each of the repeat signs, or by none, accepts. */
  lemma RepeatLanguage(item: Item, s: string)
    ensures ItemText(item) == AtomText(item.atom) ==> (ItemAccepts(item, s) <==> |s| == 1 && AllMatch(item.atom, s))
    ensures ItemText(item) == AtomText(item.atom) + "?" ==>
      (ItemAccepts(item, s) <==> |s| <= 1 && AllMatch(item.atom, s))
    ensures ItemText(item) == AtomText(item.atom) + "*" ==> (ItemAccepts(item, s) <==> AllMatch(item.atom, s))
    ensures ItemText(item) == AtomText(item.atom) + "+" ==>
      (ItemAccepts(item, s) <==> |s| >= 1 && AllMatch(item.atom, s))
  {
    hide AtomText, AllMatch;
    var t, a := ItemText(item), AtomText(item.atom);
    assert t[|a|..] == RepeatText(item.repeat);
    assert (a + "?")[|a|..] == "?" && (a + "*")[|a|..] == "*" && (a + "+")[|a|..] == "+" && a[|a|..] == "";
  }

  /** Punctuation escaped, and every other character but the dot, stands for itself. */
  lemma LiteralLanguage(c: char, ch: char)
    ensures IsAsciiPunct(c) ==> (AtomMatchesChar(true, c, ch) <==> ch == c)
    ensures AtomMatchesChar(false, c, ch) <==> if c == '.' then ch != '\n' else ch == c
  {
    hide IsAsciiPunct, IsAsciiDigit, IsAsciiWordChar, IsAsciiWhiteSpace;
    if IsAsciiPunct(c) {
      PunctuationIsNoLetter(c);
    }
  }
}
