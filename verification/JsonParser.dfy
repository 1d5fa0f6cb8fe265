/**
  The JSON scanner of src/utils/json_parser.c: a cursor that finds one member after another
  by searching for quotes and colons and by counting the depth of a value's own marks.
 */
module JsonParser {
  import opened Wrappers

  datatype JsonType = JsString | JsObject | JsArray | JsNumber | JsBoolean | JsNull

  /** One member found: where its key and its value lie, what the value is, and where the cursor goes. */
  datatype Entry = Entry(key: nat, keyLen: nat, val: nat, valLen: nat, vtype: JsonType, next: nat)

  function ShiftedBy(p: Option<nat>, n: nat): Option<nat> {
    match p
    case None => None
    case Some(i) => Some(i + n)
  }

  /** strchr: the first place of ch. */
  function IndexOf(t: string, ch: char): (p: Option<nat>)
    ensures p.Some? ==> p.value < |t|
  {
    if t == "" then None else if t[0] == ch then Some(0) else ShiftedBy(IndexOf(t[1..], ch), 1)
  }

  lemma {:induction false} IndexOfIsFirst(t: string, ch: char, p: nat)
    ensures IndexOf(t, ch) == Some(p) <==> p < |t| && t[p] == ch && ch !in t[..p]
  {
    if t != "" && t[0] != ch && p > 0 {
      IndexOfIsFirst(t[1..], ch, p - 1);
      if p <= |t| {
        assert t[..p] == [t[0]] + t[1..][..p - 1];
      }
    }
  }

  predicate IsDigit(ch: char) {
    '0' <= ch <= '9'
  }

  /** What kind of value a character starts, if any. */
  function Starts(ch: char): Option<JsonType> {
    if ch == '"' then Some(JsString)
    else if ch == '{' then Some(JsObject)
    else if ch == '[' then Some(JsArray)
    else if ch == '-' || IsDigit(ch) then Some(JsNumber)
    else if ch == 't' || ch == 'T' || ch == 'f' || ch == 'F' then Some(JsBoolean)
    else if ch == 'n' || ch == 'N' then Some(JsNull)
    else None
  }

  /** The first character that starts a value. */
  function FindStart(t: string): (p: Option<nat>)
    ensures p.Some? ==> p.value < |t| && Starts(t[p.value]).Some?
  {
    if t == "" then None
    else if Starts(t[0]).Some? then Some(0)
    else ShiftedBy(FindStart(t[1..]), 1)
  }

  /** The first closing mark at the depth it started with. */
  function Scan(t: string, open: char, close: char, depth: nat): (p: Option<nat>)
    ensures p.Some? ==> p.value < |t| && t[p.value] == close
  {
    if t == "" then None
    else if t[0] == close then
      if depth == 0 then Some(0) else ShiftedBy(Scan(t[1..], open, close, depth - 1), 1)
    else ShiftedBy(Scan(t[1..], open, close, if t[0] == open then depth + 1 else depth), 1)
  }

  /** Digits and dots at the start of t. */
  function NumberRun(t: string): (n: nat)
    ensures n <= |t|
  {
    if t != "" && (IsDigit(t[0]) || t[0] == '.') then 1 + NumberRun(t[1..]) else 0
  }

  predicate StartsWith(t: string, word: string) {
    |word| <= |t| && t[..|word|] == word
  }

  function OpenMark(vtype: JsonType): char {
    match vtype
    case JsString => '"'
    case JsObject => '{'
    case JsArray => '['
    case _ => '0'
  }

  function CloseMark(vtype: JsonType): char {
    match vtype
    case JsString => '"'
    case JsObject => '}'
    case JsArray => ']'
    case _ => ' '
  }

  function LiteralLength(vtype: JsonType, t: string): (n: nat)
    ensures n <= |t|
  {
    if vtype == JsBoolean then
      if StartsWith(t, "true") || StartsWith(t, "TRUE") then 4
      else if StartsWith(t, "false") || StartsWith(t, "FALSE") then 5
      else 0
    else if StartsWith(t, "null") || StartsWith(t, "NULL") then 4
    else 0
  }

  /** The length of the value at the start of t; 0 when the text ends before the value does. */
  function ValueLength(vtype: JsonType, t: string): (n: nat)
    requires vtype == JsString || t != ""
    ensures n <= |t| && (vtype == JsString && n > 0 ==> n < |t|)
  {
    match vtype
    case JsBoolean => LiteralLength(JsBoolean, t)
    case JsNull => LiteralLength(JsNull, t)
    case JsNumber =>
      var n := 1 + NumberRun(t[1..]);
      if n == |t| then 0 else n
    case JsString =>
      (match Scan(t, '"', '"', 0) case None => 0 case Some(k) => k)
    case _ =>
      (match Scan(t[1..], OpenMark(vtype), CloseMark(vtype), 0) case None => 0 case Some(k) => k + 2)
  }

  /** The value that starts somewhere in t. */
  function NextValue(t: string): (e: Option<Entry>)
    ensures e.Some? ==> e.value.val + e.value.valLen <= |t|
    ensures e.Some? ==> e.value.next == e.value.val + e.value.valLen + if e.value.vtype == JsString then 1 else 0
    ensures e.Some? && e.value.vtype == JsString ==> e.value.val > 0
  {
    match FindStart(t)
    case None => None
    case Some(v) =>
      var vtype := Starts(t[v]).value;
      var val := if vtype == JsString then v + 1 else v;
      var valLen := ValueLength(vtype, t[val..]);
      Some(Entry(0, 0, val, valLen, vtype, val + valLen + if vtype == JsString then 1 else 0))
  }

  /** A key between quotes and the colon after it. */
  datatype Place = Place(key: nat, keyLen: nat, colon: nat)

  function FindKey(t: string): (k: Option<Place>)
    ensures k.Some? ==> 0 < k.value.key && k.value.key + k.value.keyLen <= k.value.colon < |t|
  {
    match IndexOf(t, '"')
    case None => None
    case Some(q) =>
      match IndexOf(t[q + 1..], '"')
      case None => None
      case Some(n) =>
        match IndexOf(t[q + 1 + n..], ':')
        case None => None
        case Some(c) => Some(Place(q + 1, n, q + 1 + n + c))
  }

  /** The member found from the start of t. */
  function NextMember(t: string): Option<Entry> {
    match FindKey(t)
    case None => None
    case Some(k) =>
      match NextValue(t[k.colon..])
      case None => None
      case Some(e) => Some(Entry(k.key, k.keyLen, k.colon + e.val, e.valLen, e.vtype, k.colon + e.next))
  }

  /**
    Whatever the text, the cursor advances over a key and a value inside the text, and stays in it
    unless the text ends in the very quote that opens the value.
   */
  lemma MemberInside(t: string)
    requires NextMember(t).Some?
    ensures var e := NextMember(t).value;
      && 0 < e.key && e.key + e.keyLen <= e.val <= e.next && e.val + e.valLen <= |t|
      && (e.next <= |t| || (e.next == |t| + 1 && e.vtype == JsString && e.val == |t|))
  {
    hide FindKey;
    var k := FindKey(t).value;
    ValueInside(t[k.colon..]);
  }

  lemma ValueInside(t: string)
    requires NextValue(t).Some?
    ensures var e := NextValue(t).value;
      && e.val <= e.next && e.val + e.valLen <= |t|
        && (e.next <= |t| || (e.next == |t| + 1 && e.vtype == JsString && e.val == |t|))
  {
    hide ValueLength, FindStart, Starts;
  }

  function GetObject(t: string, mark: char): (p: Option<nat>)
    ensures p.Some? ==> p.value < |t|
  {
    if t == "" then None
    else if t[0] == ' ' then ShiftedBy(GetObject(t[1..], mark), 1)
    else if t[0] == mark then Some(0)
    else None
  }

  /** The mark behind blanks and nothing else. */
  lemma {:induction false} GetObjectMeans(t: string, mark: char, p: nat)
    requires mark != ' '
    ensures GetObject(t, mark) == Some(p) <==> p < |t| && t[p] == mark && forall i :: 0 <= i < p ==> t[i] == ' '
  {
    if t != "" && t[0] == ' ' && p > 0 {
      GetObjectMeans(t[1..], mark, p - 1);
      assert forall i :: 0 < i < p && i < |t| ==> t[i] == t[1..][i - 1];
    }
  }

  /** The characters that start a value, and what it then is. */
  lemma StartsMeans(ch: char)
    ensures Starts(ch).Some? <==> ch in "\"{[-0123456789tTfFnN"
    ensures Starts(ch) == Some(JsNumber) <==> ch in "-0123456789"
    ensures Starts(ch) == Some(JsBoolean) <==> ch in "tTfF"
    ensures Starts(ch) == Some(JsNull) <==> ch in "nN"
  {
    assert forall k :: 0 <= k < 10 ==> "0123456789"[k] as int == 48 + k;
    assert ch in "\"{[-0123456789tTfFnN" <==> ch in "\"{[-" || ch in "0123456789" || ch in "tTfFnN";
    assert ch in "-0123456789" <==> ch == '-' || ch in "0123456789";
    if IsDigit(ch) {
      assert "0123456789"[ch as int - 48] == ch;
    }
  }

  /** A literal is one of six words. */
  lemma LiteralMeans(t: string, vtype: JsonType)
    requires vtype == JsBoolean || vtype == JsNull
    ensures LiteralLength(vtype, t) ==
      if vtype == JsNull then if "null" <= t || "NULL" <= t then 4 else 0
      else if "true" <= t || "TRUE" <= t then 4 else if "false" <= t || "FALSE" <= t then 5 else 0
  {
  }

  // ---------- the loops ----------

  /** An entry found in s[n..], as places in s. */
  function Moved(e: Option<Entry>, n: nat): Option<Entry> {
    match e
    case None => None
    case Some(e) => Some(Entry(e.key + n, e.keyLen, e.val + n, e.valLen, e.vtype, e.next + n))
  }

  method GetObjectAt(s: string, mark: char) returns (pos: Option<nat>)
    ensures pos == GetObject(s, mark)
  {
    var i := 0;
    assert s[0..] == s;
    while i < |s|
      invariant 0 <= i <= |s|
      invariant GetObject(s, mark) == ShiftedBy(GetObject(s[i..], mark), i)
    {
      if s[i] == ' ' {
        i := i + 1;
        continue;
      }
      return if s[i] == mark then Some(i) else None;
    }
    return None;
  }

  method FindStartFrom(s: string, start: nat) returns (p: nat)
    requires start <= |s|
    ensures start <= p <= |s|
    ensures FindStart(s[start..]) == if p < |s| then Some(p - start) else None
  {
    p := start;
    while p < |s|
      invariant start <= p <= |s|
      invariant FindStart(s[start..]) == ShiftedBy(FindStart(s[p..]), p - start)
    {
      if Starts(s[p]).Some? {
        return;
      }
      p := p + 1;
    }
  }

  lemma ScanStep(s: string, pos: nat, open: char, close: char, depth: nat)
    requires pos < |s|
    ensures Scan(s[pos..], open, close, depth) ==
      if s[pos] == close then if depth == 0 then Some(0) else ShiftedBy(Scan(s[pos + 1..], open, close, depth - 1), 1)
      else ShiftedBy(Scan(s[pos + 1..], open, close, if s[pos] == open then depth + 1 else depth), 1)
  {
    assert s[pos..][1..] == s[pos + 1..];
  }

  lemma NumberStep(s: string, pos: nat)
    requires pos < |s|
    ensures NumberRun(s[pos..]) == if IsDigit(s[pos]) || s[pos] == '.' then 1 + NumberRun(s[pos + 1..]) else 0
  {
    assert s[pos..][1..] == s[pos + 1..];
  }

  /** Where the loop over a value starts. */
  function FirstAfterMark(vtype: JsonType, val: nat): nat {
    if vtype == JsNumber || vtype == JsObject || vtype == JsArray then val + 1 else val
  }

  lemma LengthFrom(s: string, vtype: JsonType, val: nat)
    requires val <= |s| && (vtype == JsString || val < |s|)
    ensures var first := FirstAfterMark(vtype, val);
      && first <= |s|
      && ValueLength(vtype, s[val..]) ==
        match vtype
        case JsBoolean => LiteralLength(vtype, s[val..])
        case JsNull => LiteralLength(vtype, s[val..])
        case JsNumber => if first + NumberRun(s[first..]) == |s| then 0 else 1 + NumberRun(s[first..])
        case _ =>
          match Scan(s[first..], OpenMark(vtype), CloseMark(vtype), 0)
          case None => 0
          case Some(k) => if vtype == JsString then k else k + 2
  {
    if val < |s| {
      assert s[val..][1..] == s[val + 1..];
    }
  }

  lemma NothingLeft(s: string, open: char, close: char, depth: nat)
    ensures Scan(s[|s|..], open, close, depth) == None && NumberRun(s[|s|..]) == 0
  {
  }

  /** The value's length, by stepping over its characters with a depth counter. */
  method MeasureValue(s: string, vtype: JsonType, val: nat) returns (valLen: nat)
    requires val <= |s| && (vtype == JsString || val < |s|)
    ensures valLen == ValueLength(vtype, s[val..])
  {
    hide Scan, NumberRun, LiteralLength, IsDigit, ValueLength, OpenMark, CloseMark;
    LengthFrom(s, vtype, val);
    var first := FirstAfterMark(vtype, val);
    var pos, depth := first, 0;
    valLen := 0;
    while pos < |s|
      invariant first <= pos <= |s| && depth >= 0
      invariant vtype == JsBoolean || vtype == JsNull ==> pos == first || LiteralLength(vtype, s[val..]) == 0
      invariant vtype == JsNumber ==> NumberRun(s[first..]) == pos - first + NumberRun(s[pos..])
      invariant vtype == JsString || vtype == JsObject || vtype == JsArray ==>
        Scan(s[first..], OpenMark(vtype), CloseMark(vtype), 0)
          == ShiftedBy(Scan(s[pos..], OpenMark(vtype), CloseMark(vtype), depth), pos - first)
    {
      if vtype == JsBoolean || vtype == JsNull {
        valLen := LiteralLength(vtype, s[val..]);
        if valLen > 0 {
          return;
        }
      } else if vtype == JsNumber {
        NumberStep(s, pos);
        if !IsDigit(s[pos]) && s[pos] != '.' {
          valLen := pos - val;
          return;
        }
      } else {
        ScanStep(s, pos, OpenMark(vtype), CloseMark(vtype), depth);
        if s[pos] == CloseMark(vtype) {
          if depth == 0 {
            valLen := pos - val + if vtype == JsString then 0 else 1;
            return;
          } else {
            depth := depth - 1;
          }
        } else if s[pos] == OpenMark(vtype) {
          depth := depth + 1;
        }
      }
      pos := pos + 1;
    }
    NothingLeft(s, OpenMark(vtype), CloseMark(vtype), depth);
  }

  /** The value that starts at v. */
  function EntryAt(s: string, v: nat): Entry
    requires v < |s| && Starts(s[v]).Some?
  {
    var vtype := Starts(s[v]).value;
    var val := if vtype == JsString then v + 1 else v;
    var valLen := ValueLength(vtype, s[val..]);
    Entry(0, 0, val, valLen, vtype, val + valLen + if vtype == JsString then 1 else 0)
  }

  /** A value found from p on, as places in s. */
  lemma ValueFound(s: string, p: nat, v: nat)
    requires p <= |s| && p <= v <= |s|
    requires FindStart(s[p..]) == if v < |s| then Some(v - p) else None
    ensures v == |s| ==> NextValue(s[p..]) == None
    ensures v < |s| ==> Starts(s[v]).Some?
    ensures v < |s| ==> var e := EntryAt(s, v); NextValue(s[p..]) == Some(e.(val := e.val - p, next := e.next - p))
  {
    if v < |s| {
      assert s[p..][v - p] == s[v];
      assert s[p..][v - p..] == s[v..];
      assert s[p..][v + 1 - p..] == s[v + 1..];
    }
  }

  lemma DropDrop(s: string, m: nat, n: nat)
    requires m + n <= |s|
    ensures s[m..][n..] == s[m + n..]
  {
  }

  lemma KeyIs(t: string, q: nat, n: nat, c: nat)
    requires q + 1 + n + c <= |t|
    requires IndexOf(t, '"') == Some(q) && IndexOf(t[q + 1..], '"') == Some(n)
      && IndexOf(t[q + 1 + n..], ':') == Some(c)
    ensures FindKey(t) == Some(Place(q + 1, n, q + 1 + n + c))
  {
    hide IndexOf;
  }

  /** A key found from pos on, as places in s. */
  lemma KeyFound(s: string, pos: nat, key: nat, keyLen: nat, p: nat)
    requires pos < key <= key + keyLen <= p <= |s|
    requires IndexOf(s[pos..], '"') == Some(key - 1 - pos) && IndexOf(s[key..], '"') == Some(keyLen)
    requires IndexOf(s[key + keyLen..], ':') == Some(p - key - keyLen)
    ensures Moved(NextMember(s[pos..]), pos) ==
      match NextValue(s[p..])
      case None => None
      case Some(e) => Some(Entry(key, keyLen, p + e.val, e.valLen, e.vtype, p + e.next))
  {
    hide NextValue, IndexOf, FindKey;
    DropDrop(s, pos, key - pos);
    DropDrop(s, pos, key + keyLen - pos);
    DropDrop(s, pos, p - pos);
    KeyIs(s[pos..], key - 1 - pos, keyLen, p - key - keyLen);
  }

  lemma NoKey(s: string, pos: nat, key: nat, keyLen: nat)
    requires pos <= |s|
    requires IndexOf(s[pos..], '"') == None
      || (pos < key <= |s| && IndexOf(s[pos..], '"') == Some(key - 1 - pos)
        && (IndexOf(s[key..], '"') == None
          || (key + keyLen <= |s| && IndexOf(s[key..], '"') == Some(keyLen)
            && IndexOf(s[key + keyLen..], ':') == None)))
    ensures NextMember(s[pos..]) == None
  {
    hide NextValue, IndexOf;
    if IndexOf(s[pos..], '"').Some? {
      DropDrop(s, pos, key - pos);
      if IndexOf(s[key..], '"').Some? {
        DropDrop(s, pos, key + keyLen - pos);
      }
    }
  }

  /** json_get_next_object: the next member of an object, or the next entry of an array, from pos on. */
  method GetNextObject(kind: JsonType, s: string, pos: nat) returns (entry: Option<Entry>)
    requires pos <= |s|
    ensures entry == Moved(if kind == JsObject then NextMember(s[pos..]) else NextValue(s[pos..]), pos)
  {
    hide NextMember, NextValue, IndexOf, FindStart, ValueLength, Starts;
    var p: nat := pos;
    var key: nat, keyLen: nat := pos, 0;
    if kind == JsObject {
      // the name between quotes
      var quote := IndexOf(s[p..], '"');
      if quote.None? {
        NoKey(s, pos, 0, 0);
        return None;
      }
      key := p + quote.value + 1;
      quote := IndexOf(s[key..], '"');
      if quote.None? {
        NoKey(s, pos, key, 0);
        return None;
      }
      keyLen := quote.value;
      // then its value
      var colon := IndexOf(s[key + keyLen..], ':');
      if colon.None? {
        NoKey(s, pos, key, keyLen);
        return None;
      }
      p := key + keyLen + colon.value;
      KeyFound(s, pos, key, keyLen, p);
    }
    var v := FindStartFrom(s, p);
    ValueFound(s, p, v);
    if v == |s| {
      return None;
    }
    var vtype := Starts(s[v]).value;
    var val := if vtype == JsString then v + 1 else v;
    var valLen := MeasureValue(s, vtype, val);
    entry := Some(Entry(key, keyLen, val, valLen, vtype, val + valLen + if vtype == JsString then 1 else 0));
  }

  // ---------- iteration ----------

  /** The member found from pos on, as places in s. */
  function MemberAt(s: string, pos: nat): (e: Option<Entry>)
    requires pos <= |s|
    ensures e.Some? ==>
      pos < e.value.key && e.value.key + e.value.keyLen <= e.value.val <= e.value.next
      && e.value.val + e.value.valLen <= |s|
  {
    if NextMember(s[pos..]).None? then None
    else
      MemberInside(s[pos..]);
      Moved(NextMember(s[pos..]), pos)
  }

  /** json_object_for_each_kv: the members in the order in which the cursor meets them. */
  function Members(s: string, pos: nat): seq<Entry>
    decreases |s| - pos
  {
    if pos >= |s| then []
    else
      match MemberAt(s, pos)
      case None => []
      case Some(e) => [e] + Members(s, e.next)
  }

  predicate Inside(s: string, pos: nat, e: Entry) {
    pos < e.key && e.key + e.keyLen <= e.val <= e.next && e.val + e.valLen <= |s|
  }

  lemma MemberAtInside(s: string, pos: nat)
    requires pos < |s| && MemberAt(s, pos).Some?
    ensures Inside(s, pos, MemberAt(s, pos).value)
    ensures Members(s, pos) == [MemberAt(s, pos).value] + Members(s, MemberAt(s, pos).value.next)
  {
  }

  /** Every key lies after the member before it, and every key and value inside the text. */
  predicate Chained(s: string, pos: nat, es: seq<Entry>)
    decreases |es|
  {
    |es| == 0 || (Inside(s, pos, es[0]) && Chained(s, es[0].next, es[1..]))
  }

  lemma {:induction false} MembersAdvance(s: string, pos: nat)
    ensures Chained(s, pos, Members(s, pos))
    decreases |s| - pos
  {
    if pos < |s| && MemberAt(s, pos).Some? {
      MemberAtInside(s, pos);
      var e := MemberAt(s, pos).value;
      MembersAdvance(s, e.next);
      assert Members(s, pos)[1..] == Members(s, e.next);
    }
  }
}
