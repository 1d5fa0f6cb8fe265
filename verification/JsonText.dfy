/**
  The texts that the scanner of src/utils/json_parser.c reads faithfully: objects printed with
  any white space between their tokens, and what iterating over them yields.
 */
module JsonText {
  import opened Wrappers
  import opened JsonParser

  /** The white space around the tokens of a member. */
  datatype Pad = Pad(beforeKey: string, beforeColon: string, afterColon: string, afterValue: string)

  datatype Value =
    | Str(text: string)
    | Num(text: string)
    | Bool(text: string)
    | Null(text: string)
    | Obj(members: MemberList)
    | Arr(elements: ElementList)

  datatype MemberList = NoMembers | Member(pad: Pad, key: string, value: Value, rest: MemberList)

  datatype ElementList = NoElements | Element(before: string, value: Value, after: string, rest: ElementList)

  // ---------- printing ----------

  function Text(v: Value): string {
    match v
    case Str(t) => "\"" + t + "\""
    case Obj(ms) => "{" + MembersText(ms) + "}"
    case Arr(es) => "[" + ElementsText(es) + "]"
    case _ => v.text
  }

  function KeyText(pad: Pad, key: string): string {
    "\"" + key + "\"" + pad.beforeColon + ":" + pad.afterColon
  }

  function MembersText(ms: MemberList): string {
    match ms
    case NoMembers => ""
    case Member(pad, key, value, rest) =>
      pad.beforeKey + (KeyText(pad, key) + (Text(value) + (AfterText(pad, rest) + MembersText(rest))))
  }

  /** What follows a value: white space, and a comma unless it is the last. */
  function AfterText(pad: Pad, rest: MemberList): string {
    pad.afterValue + if rest.Member? then "," else ""
  }

  function ElementsText(es: ElementList): string {
    match es
    case NoElements => ""
    case Element(before, value, after, rest) =>
      before + (Text(value) + (after + (if rest.Element? then "," else "") + ElementsText(rest)))
  }

  // ---------- what is scannable ----------

  predicate AllSpace(s: string) {
    forall i :: 0 <= i < |s| ==> s[i] == ' ' || s[i] == '\t' || s[i] == '\n' || s[i] == '\r'
  }

  predicate Decimal(t: string) {
    t != "" && (t[0] == '-' || IsDigit(t[0])) && forall i :: 1 <= i < |t| ==> IsDigit(t[i]) || t[i] == '.'
  }

  /** Neither mark occurs in a key or a string. */
  predicate Free(v: Value, open: char, close: char) {
    match v
    case Str(t) => open !in t && close !in t
    case Obj(ms) => MembersFree(ms, open, close)
    case Arr(es) => ElementsFree(es, open, close)
    case _ => true
  }

  predicate MembersFree(ms: MemberList, open: char, close: char) {
    match ms
    case NoMembers => true
    case Member(_, key, value, rest) =>
      open !in key && close !in key && Free(value, open, close) && MembersFree(rest, open, close)
  }

  predicate ElementsFree(es: ElementList, open: char, close: char) {
    match es
    case NoElements => true
    case Element(_, value, _, rest) => Free(value, open, close) && ElementsFree(rest, open, close)
  }

  predicate ValidPad(pad: Pad) {
    AllSpace(pad.beforeKey) && AllSpace(pad.beforeColon) && AllSpace(pad.afterColon) && AllSpace(pad.afterValue)
  }

  /**
    Strings hold no quotes, numbers are plain decimals, and the strings inside an object or array
    hold none of its own marks.
   */
  predicate ValidValue(v: Value) {
    match v
    case Str(t) => '"' !in t
    case Num(t) => Decimal(t)
    case Bool(t) => t == "true" || t == "TRUE" || t == "false" || t == "FALSE"
    case Null(t) => t == "null" || t == "NULL"
    case Obj(ms) => ValidMembers(ms) && MembersFree(ms, '{', '}')
    case Arr(es) => ValidElements(es) && ElementsFree(es, '[', ']')
  }

  predicate ValidMembers(ms: MemberList) {
    match ms
    case NoMembers => true
    case Member(pad, key, value, rest) => ValidPad(pad) && '"' !in key && ValidValue(value) && ValidMembers(rest)
  }

  predicate ValidElements(es: ElementList) {
    match es
    case NoElements => true
    case Element(before, value, after, rest) =>
      AllSpace(before) && AllSpace(after) && ValidValue(value) && ValidElements(rest)
  }

  function TypeOf(v: Value): JsonType {
    match v
    case Str(_) => JsString
    case Num(_) => JsNumber
    case Bool(_) => JsBoolean
    case Null(_) => JsNull
    case Obj(_) => JsObject
    case Arr(_) => JsArray
  }

  /** What the scanner reports of a value: the inside of a string, the whole text of anything else. */
  function Content(v: Value): string {
    if v.Str? then v.text else Text(v)
  }

  // ---------- counting depth ----------

  predicate Marks(open: char, close: char) {
    (open == '{' && close == '}') || (open == '[' && close == ']')
  }

  /** Scanning passes over t at any depth and goes on behind it. */
  ghost predicate Skips(t: string, open: char, close: char) {
    forall rest, depth :: Scan(t + rest, open, close, depth) == ShiftedBy(Scan(rest, open, close, depth), |t|)
  }

  lemma SkipsConcat(a: string, b: string, open: char, close: char)
    requires Skips(a, open, close) && Skips(b, open, close)
    ensures Skips(a + b, open, close)
  {
    hide Scan;
    forall rest, depth
      ensures Scan(a + b + rest, open, close, depth) == ShiftedBy(Scan(rest, open, close, depth), |a + b|)
    {
      assert a + b + rest == a + (b + rest);
    }
  }

  lemma {:induction false} UnmarkedSkips(t: string, open: char, close: char)
    requires open !in t && close !in t
    ensures Skips(t, open, close)
  {
    if t == "" {
      forall rest, depth: nat
        ensures Scan(t + rest, open, close, depth) == ShiftedBy(Scan(rest, open, close, depth), |t|)
      {
        assert t + rest == rest;
      }
    } else {
      UnmarkedSkips(t[1..], open, close);
      forall rest, depth: nat
        ensures Scan(t + rest, open, close, depth) == ShiftedBy(Scan(rest, open, close, depth), |t|)
      {
        assert (t + rest)[1..] == t[1..] + rest;
      }
    }
  }

  lemma ScanHead(ch: char, t: string, open: char, close: char, depth: nat)
    ensures Scan([ch] + t, open, close, depth) ==
      if ch == close then if depth == 0 then Some(0) else ShiftedBy(Scan(t, open, close, depth - 1), 1)
      else ShiftedBy(Scan(t, open, close, if ch == open then depth + 1 else depth), 1)
  {
    assert ([ch] + t)[1..] == t;
  }

  lemma NestedScan(inner: string, open: char, close: char, rest: string, depth: nat)
    requires open != close
    requires Scan(inner + ([close] + rest), open, close, depth + 1)
      == ShiftedBy(Scan([close] + rest, open, close, depth + 1), |inner|)
    ensures Scan([open] + inner + [close] + rest, open, close, depth)
      == ShiftedBy(Scan(rest, open, close, depth), |inner| + 2)
  {
    hide Scan;
    assert [open] + inner + [close] + rest == [open] + (inner + ([close] + rest));
    ScanHead(open, inner + ([close] + rest), open, close, depth);
    ScanHead(close, rest, open, close, depth + 1);
  }

  lemma NestedSkips(inner: string, open: char, close: char)
    requires open != close && Skips(inner, open, close)
    ensures Skips([open] + inner + [close], open, close)
  {
    hide Scan, ShiftedBy;
    var t := [open] + inner + [close];
    forall rest, depth: nat
      ensures Scan(t + rest, open, close, depth) == ShiftedBy(Scan(rest, open, close, depth), |t|)
    {
      NestedScan(inner, open, close, rest, depth);
    }
  }

  lemma PlainSkips(v: Value, open: char, close: char)
    requires ValidValue(v) && Free(v, open, close) && Marks(open, close) && !v.Obj? && !v.Arr?
    ensures open !in Text(v) && close !in Text(v)
  {
  }

  lemma {:induction false} ValueSkips(v: Value, open: char, close: char)
    requires ValidValue(v) && Free(v, open, close) && Marks(open, close)
    ensures Skips(Text(v), open, close)
    decreases v
  {
    hide Skips;
    match v
    case Obj(ms) =>
      MembersSkip(ms, open, close);
      AroundSkips("{", MembersText(ms), "}", open, close);
    case Arr(es) =>
      ElementsSkip(es, open, close);
      AroundSkips("[", ElementsText(es), "]", open, close);
    case _ =>
      PlainSkips(v, open, close);
      UnmarkedSkips(Text(v), open, close);
  }

  lemma AroundSkips(left: string, inner: string, right: string, open: char, close: char)
    requires Skips(inner, open, close) && Marks(open, close)
      && ((left == "{" && right == "}") || (left == "[" && right == "]"))
    ensures Skips(left + inner + right, open, close)
  {
    hide Skips;
    if left == [open] {
      NestedSkips(inner, open, close);
    } else {
      UnmarkedSkips(left, open, close);
      UnmarkedSkips(right, open, close);
      SkipsConcat(left, inner, open, close);
      SkipsConcat(left + inner, right, open, close);
    }
  }

  lemma {:induction false} MembersSkip(ms: MemberList, open: char, close: char)
    requires ValidMembers(ms) && MembersFree(ms, open, close) && Marks(open, close)
    ensures Skips(MembersText(ms), open, close)
    decreases ms
  {
    hide Skips;
    match ms
    case NoMembers =>
      UnmarkedSkips("", open, close);
    case Member(pad, key, value, rest) =>
      MembersSkip(rest, open, close);
      ValueSkips(value, open, close);
      UnmarkedSkips(AfterText(pad, rest), open, close);
      UnmarkedSkips(KeyText(pad, key), open, close);
      UnmarkedSkips(pad.beforeKey, open, close);
      SkipsConcat(AfterText(pad, rest), MembersText(rest), open, close);
      SkipsConcat(Text(value), AfterText(pad, rest) + MembersText(rest), open, close);
      SkipsConcat(KeyText(pad, key), Text(value) + (AfterText(pad, rest) + MembersText(rest)), open, close);
      SkipsConcat(pad.beforeKey, KeyText(pad, key) + (Text(value) + (AfterText(pad, rest) + MembersText(rest))), open,
        close);
  }

  lemma {:induction false} ElementsSkip(es: ElementList, open: char, close: char)
    requires ValidElements(es) && ElementsFree(es, open, close) && Marks(open, close)
    ensures Skips(ElementsText(es), open, close)
    decreases es
  {
    hide Skips;
    match es
    case NoElements =>
      UnmarkedSkips("", open, close);
    case Element(before, value, after, rest) =>
      ElementsSkip(rest, open, close);
      ValueSkips(value, open, close);
      var comma := after + if rest.Element? then "," else "";
      UnmarkedSkips(comma, open, close);
      UnmarkedSkips(before, open, close);
      SkipsConcat(comma, ElementsText(rest), open, close);
      SkipsConcat(Text(value), comma + ElementsText(rest), open, close);
      SkipsConcat(before, Text(value) + (comma + ElementsText(rest)), open, close);
  }

  // ---------- one member ----------

  lemma {:induction false} FindStartSkips(a: string, b: string)
    requires forall i :: 0 <= i < |a| ==> Starts(a[i]) == None
    requires b != "" && Starts(b[0]).Some?
    ensures FindStart(a + b) == Some(|a|)
  {
    if a == "" {
      assert a + b == b;
    } else {
      FindStartSkips(a[1..], b);
      assert (a + b)[1..] == a[1..] + b;
    }
  }

  lemma {:induction false} NumberRunIs(a: string, b: string)
    requires forall i :: 0 <= i < |a| ==> IsDigit(a[i]) || a[i] == '.'
    requires b != "" ==> !IsDigit(b[0]) && b[0] != '.'
    ensures NumberRun(a + b) == |a|
  {
    if a == "" {
      assert a + b == b;
    } else {
      NumberRunIs(a[1..], b);
      assert (a + b)[1..] == a[1..] + b;
    }
  }

  /** The place of ch behind a text without it. */
  lemma IndexOfBehind(a: string, ch: char, b: string)
    requires ch !in a && b != "" && b[0] == ch
    ensures IndexOf(a + b, ch) == Some(|a|)
  {
    IndexOfIsFirst(a + b, ch, |a|);
    assert (a + b)[..|a|] == a;
  }

  lemma {:induction false} IndexOfNone(a: string, ch: char)
    requires ch !in a
    ensures IndexOf(a, ch) == None
  {
    if a != "" {
      IndexOfNone(a[1..], ch);
    }
  }

  /** A value does not run into what follows it: something follows, and no digit or dot. */
  predicate Separates(post: string) {
    post != "" && !IsDigit(post[0]) && post[0] != '.'
  }

  lemma ValueStarts(v: Value)
    requires ValidValue(v)
    ensures Text(v) != "" && Starts(Text(v)[0]) == Some(TypeOf(v))
  {
    hide MembersText, ElementsText;
    match v
    case Num(t) =>
    case _ =>
  }

  /** The inside of a string is measured up to its quote. */
  lemma StringMeasured(t: string, post: string)
    requires '"' !in t
    ensures ValueLength(JsString, t + ("\"" + post)) == |t|
  {
    hide Scan;
    UnmarkedSkips(t, '"', '"');
    ScanHead('"', post, '"', '"', 0);
  }

  lemma NumberMeasured(t: string, post: string)
    requires Decimal(t) && Separates(post)
    ensures ValueLength(JsNumber, t + post) == |t|
  {
    hide NumberRun;
    NumberRunIs(t[1..], post);
    assert (t + post)[1..] == t[1..] + post;
  }

  lemma LiteralMeasured(v: Value, post: string)
    requires ValidValue(v) && (v.Bool? || v.Null?)
    ensures ValueLength(TypeOf(v), Text(v) + post) == |Text(v)|
  {
    assert (Text(v) + post)[..|Text(v)|] == Text(v);
    assert Text(v)[0] == (Text(v) + post)[0];
    if v.Bool? && |Text(v)| == 5 {
      assert (Text(v) + post)[..4][0] == Text(v)[0];
    }
  }

  lemma NestedMeasured(v: Value, post: string)
    requires ValidValue(v) && (v.Obj? || v.Arr?)
    ensures ValueLength(TypeOf(v), Text(v) + post) == |Text(v)|
  {
    hide Scan, MembersText, ElementsText;
    var t := Text(v) + post;
    if v.Obj? {
      MembersSkip(v.members, '{', '}');
      var inner := MembersText(v.members);
      assert t[1..] == inner + ("}" + post);
      ScanHead('}', post, '{', '}', 0);
    } else {
      ElementsSkip(v.elements, '[', ']');
      var inner := ElementsText(v.elements);
      assert t[1..] == inner + ("]" + post);
      ScanHead(']', post, '[', ']', 0);
    }
  }

  /** Where the scanner puts a member whose key's quote is at q. */
  function MemberEntry(q: nat, pad: Pad, key: string, v: Value): Entry {
    var b := q + |KeyText(pad, key)|;
    Entry(q + 1, |key|, if v.Str? then b + 1 else b, |Content(v)|, TypeOf(v), b + |Text(v)|)
  }

  lemma ValueMeasured(v: Value, post: string)
    requires ValidValue(v) && Separates(post)
    ensures var t := Text(v) + post; ValueLength(TypeOf(v), if v.Str? then t[1..] else t) == |Content(v)|
  {
    hide ValueLength, Decimal, MembersText, ElementsText, MembersFree, ElementsFree, ValidMembers, ValidElements;
    match v
    case Str(t) =>
      StringMeasured(t, post);
      assert (Text(v) + post)[1..] == t + ("\"" + post);
    case Num(t) => NumberMeasured(t, post);
    case Bool(_) => LiteralMeasured(v, post);
    case Null(_) => LiteralMeasured(v, post);
    case Obj(_) => NestedMeasured(v, post);
    case Arr(_) => NestedMeasured(v, post);
  }

  /** From the colon on, the scanner finds the value that was printed. */
  lemma ValueRead(space: string, v: Value, post: string)
    requires ValidValue(v) && Separates(post) && AllSpace(space)
    ensures var b := 1 + |space|;
      NextValue(":" + space + (Text(v) + post)) ==
        Some(Entry(0, 0, if v.Str? then b + 1 else b, |Content(v)|, TypeOf(v), b + |Text(v)|))
  {
    hide NextValue, Text, ValidValue, Content;
    NoStarts(space);
    ValueBehind(":" + space, v, post);
  }

  /** Behind characters that start no value the scanner finds the value that was printed. */
  lemma ValueBehind(a: string, v: Value, post: string)
    requires ValidValue(v) && Separates(post) && forall i :: 0 <= i < |a| ==> Starts(a[i]) == None
    ensures NextValue(a + (Text(v) + post)) ==
      Some(Entry(0, 0, if v.Str? then |a| + 1 else |a|, |Content(v)|, TypeOf(v), |a| + |Text(v)|))
  {
    hide ValueLength, Text, ValidValue, FindStart, Content;
    var u := Text(v) + post;
    var t, b := a + u, |a|;
    ValueStarts(v);
    ValueMeasured(v, post);
    FindStartSkips(a, u);
    assert t[b] == u[0] == Text(v)[0];
    assert t[b..] == u;
    if v.Str? {
      assert t[b + 1..] == u[1..];
      StringLength(v);
    } else {
      assert Content(v) == Text(v) by { OtherLength(v); }
    }
  }

  lemma NoStarts(space: string)
    requires AllSpace(space)
    ensures forall i :: 0 <= i < |":" + space| ==> Starts((":" + space)[i]) == None
  {
  }

  lemma StringLength(v: Value)
    requires v.Str?
    ensures |Text(v)| == |Content(v)| + 2
  {
  }

  lemma OtherLength(v: Value)
    requires !v.Str?
    ensures Content(v) == Text(v)
  {
  }

  lemma KeyRead(gap: string, pad: Pad, key: string, u: string)
    requires '"' !in gap && '"' !in key && ValidPad(pad)
    ensures var t := gap + (KeyText(pad, key) + u);
      var colon := |gap| + 1 + |key| + 1 + |pad.beforeColon|;
      FindKey(t) == Some(Place(|gap| + 1, |key|, colon)) && t[colon..] == ":" + pad.afterColon + u
  {
    hide IndexOf, FindKey;
    var t := gap + (KeyText(pad, key) + u);
    var k := |gap| + 1;
    IndexOfBehind(gap, '"', KeyText(pad, key) + u);
    var u1 := "\"" + pad.beforeColon + (":" + pad.afterColon + u);
    assert t[k..] == key + u1;
    IndexOfBehind(key, '"', u1);
    assert t[k + |key|..] == u1;
    IndexOfBehind("\"" + pad.beforeColon, ':', ":" + pad.afterColon + u);
    KeyIs(t, |gap|, |key|, 1 + |pad.beforeColon|);
  }

  /** One step of the scanner over any printed member. */
  lemma MemberRead(gap: string, pad: Pad, key: string, v: Value, post: string)
    requires '"' !in gap && '"' !in key && ValidPad(pad) && ValidValue(v) && Separates(post)
    ensures NextMember(gap + (KeyText(pad, key) + (Text(v) + post))) == Some(MemberEntry(|gap|, pad, key, v))
  {
    hide NextValue, FindKey, Text, ValidValue, Content;
    KeyRead(gap, pad, key, Text(v) + post);
    ValueRead(pad.afterColon, v, post);
  }

  // ---------- iterating over a printed object ----------

  /** The entries of members whose text starts at `at`. */
  function Expected(ms: MemberList, at: nat): seq<Entry> {
    match ms
    case NoMembers => []
    case Member(pad, key, value, rest) =>
      var q := at + |pad.beforeKey|;
      [MemberEntry(q, pad, key, value)]
        + Expected(rest, q + |KeyText(pad, key)| + |Text(value)| + |AfterText(pad, rest)|)
  }

  function Behind(ms: MemberList, tail: string): string {
    MembersText(ms) + ("}" + tail)
  }

  lemma AfterSeparates(pad: Pad, rest: MemberList, tail: string)
    requires ValidPad(pad)
    ensures Separates(AfterText(pad, rest) + Behind(rest, tail)) && '"' !in AfterText(pad, rest)
  {
    hide MembersText;
    var post := AfterText(pad, rest) + Behind(rest, tail);
    if AfterText(pad, rest) != "" {
      assert post[0] == AfterText(pad, rest)[0];
    } else {
      assert rest == NoMembers;
      assert MembersText(rest) == "" by { NoText(); }
      assert post[0] == '}';
    }
  }

  lemma NoText()
    ensures MembersText(NoMembers) == ""
  {
  }

  /** The first member of what is left, and what is left behind it. */
  lemma FirstRead(s: string, pos: nat, gap: string, ms: MemberList, tail: string)
    requires pos <= |s| && s[pos..] == gap + Behind(ms, tail) && '"' !in gap && ValidMembers(ms) && ms.Member?
    ensures var q := pos + |gap + ms.pad.beforeKey|;
      var e := MemberEntry(q, ms.pad, ms.key, ms.value);
      && MemberAt(s, pos) == Some(e) && pos < |s| && e.next <= |s|
      && s[e.next..] == AfterText(ms.pad, ms.rest) + Behind(ms.rest, tail)
  {
    hide Text, ValidValue, Content, KeyText, NextMember, TypeOf, AfterText, MembersText, Separates, Behind;
    var post := AfterText(ms.pad, ms.rest) + Behind(ms.rest, tail);
    var gap' := gap + ms.pad.beforeKey;
    AfterSeparates(ms.pad, ms.rest, tail);
    FirstText(ms, tail);
    assert s[pos..] == gap' + (KeyText(ms.pad, ms.key) + (Text(ms.value) + post));
    MemberRead(gap', ms.pad, ms.key, ms.value, post);
    var n := |gap'| + |KeyText(ms.pad, ms.key)| + |Text(ms.value)|;
    assert s[pos..][n..] == post;
    DropDrop(s, pos, n);
  }

  lemma FirstText(ms: MemberList, tail: string)
    requires ms.Member?
    ensures Behind(ms, tail)
      == ms.pad.beforeKey + (KeyText(ms.pad, ms.key)
      + (Text(ms.value) + (AfterText(ms.pad, ms.rest) + Behind(ms.rest, tail))))
  {
    hide Text, KeyText, AfterText;
  }

  /** The cursor meets exactly the printed members, in order, and then stops. */
  lemma {:induction false} Iterates(s: string, pos: nat, gap: string, ms: MemberList, tail: string)
    requires pos <= |s| && s[pos..] == gap + Behind(ms, tail) && '"' !in gap && '"' !in tail && ValidMembers(ms)
    ensures Members(s, pos) == Expected(ms, pos + |gap|)
    decreases ms
  {
    hide MemberAt, KeyText, Text, Content, Behind, Separates, AfterText, AllSpace, ValidValue, TypeOf;
    if ms.Member? {
      FirstRead(s, pos, gap, ms, tail);
      AfterSeparates(ms.pad, ms.rest, tail);
      var e := MemberAt(s, pos).value;
      Iterates(s, e.next, AfterText(ms.pad, ms.rest), ms.rest, tail);
    } else {
      NothingRead(s, pos, gap, tail);
    }
  }

  lemma NothingRead(s: string, pos: nat, gap: string, tail: string)
    requires pos <= |s| && s[pos..] == gap + Behind(NoMembers, tail) && '"' !in gap && '"' !in tail
    ensures pos < |s| && MemberAt(s, pos) == None
  {
    IndexOfNone(s[pos..], '"');
  }

  /** The entries name the printed keys and values, with their types, in order. */
  predicate Spells(s: string, ms: MemberList, es: seq<Entry>) {
    match ms
    case NoMembers => es == []
    case Member(_, key, value, rest) =>
      && |es| > 0 && Inside(s, 0, es[0])
      && s[es[0].key..es[0].key + es[0].keyLen] == key
      && s[es[0].val..es[0].val + es[0].valLen] == Content(value)
      && es[0].vtype == TypeOf(value)
      && Spells(s, rest, es[1..])
  }

  lemma EntrySpells(s: string, q: nat, pad: Pad, key: string, v: Value, post: string)
    requires q <= |s| && s[q..] == KeyText(pad, key) + (Text(v) + post)
    ensures var e := MemberEntry(q, pad, key, v);
      Inside(s, 0, e) && s[e.key..e.key + e.keyLen] == key && s[e.val..e.val + e.valLen] == Content(v)
      && e.next <= |s| && s[e.next..] == post
  {
    hide Text, Content, TypeOf, KeyText;
    var e := MemberEntry(q, pad, key, v);
    var k, n := |KeyText(pad, key)|, |Text(v)|;
    var t := KeyText(pad, key) + (Text(v) + post);
    KeyInText(pad, key);
    Pieces(KeyText(pad, key), Text(v), post, |key|);
    SliceAt(s, q, t, 1, 1 + |key|);
    DropDrop(s, q, k + n);
    if v.Str? {
      QuotedContent(v);
      SliceAt(s, q, t, k + 1, k + n - 1);
    } else {
      OtherLength(v);
      SliceAt(s, q, t, k, k + n);
    }
  }

  lemma SliceAt(s: string, q: nat, t: string, m: nat, n: nat)
    requires q <= |s| && s[q..] == t && m <= n <= |t|
    ensures s[q + m..q + n] == t[m..n]
  {
    var a, b := s[q + m..q + n], t[m..n];
    forall k | 0 <= k < |a|
      ensures a[k] == b[k]
    {
      assert t[m + k] == s[q + (m + k)];
    }
  }

  /** Taking three pieces apart. */
  lemma Pieces(a: string, b: string, c: string, n: nat)
    requires n < |a|
    ensures var t := a + (b + c);
      t[..|a|] == a && t[|a|..|a| + |b|] == b && t[|a| + |b|..] == c
      && (|b| >= 2 ==> t[|a| + 1..|a| + |b| - 1] == b[1..|b| - 1])
      && t[1..1 + n] == a[1..1 + n]
  {
  }

  lemma KeyInText(pad: Pad, key: string)
    ensures 1 + |key| < |KeyText(pad, key)| && KeyText(pad, key)[1..1 + |key|] == key
  {
  }

  lemma QuotedContent(v: Value)
    requires v.Str?
    ensures |Text(v)| == |Content(v)| + 2 && Text(v)[1..|Text(v)| - 1] == Content(v)
  {
  }

  /** The first member of what is left, spelled by its entry. */
  lemma FirstSpells(s: string, pos: nat, gap: string, ms: MemberList, tail: string)
    requires pos <= |s| && s[pos..] == gap + Behind(ms, tail) && '"' !in gap && ValidMembers(ms) && ms.Member?
    ensures MemberAt(s, pos).Some? && pos < |s|
    ensures var e := MemberAt(s, pos).value;
      && Inside(s, pos, e) && s[e.key..e.key + e.keyLen] == ms.key && s[e.val..e.val + e.valLen] == Content(ms.value)
      && e.keyLen == |ms.key| && e.valLen == |Content(ms.value)| && e.vtype == TypeOf(ms.value)
      && s[e.key..] == ms.key + "\"" + s[e.key + e.keyLen + 1..]
  {
    hide MemberAt, KeyText, Text, Content, Behind, AfterText, TypeOf, ValidMembers;
    FirstRead(s, pos, gap, ms, tail);
    FirstText(ms, tail);
    var q := pos + |gap + ms.pad.beforeKey|;
    var post := AfterText(ms.pad, ms.rest) + Behind(ms.rest, tail);
    var gap' := gap + ms.pad.beforeKey;
    assert s[pos..] == gap' + (KeyText(ms.pad, ms.key) + (Text(ms.value) + post));
    DropDrop(s, pos, |gap'|);
    assert s[q..] == KeyText(ms.pad, ms.key) + (Text(ms.value) + post);
    EntrySpells(s, q, ms.pad, ms.key, ms.value, post);
    KeyThenQuote(s, q, ms.pad, ms.key, Text(ms.value) + post);
  }

  lemma KeyThenQuote(s: string, q: nat, pad: Pad, key: string, u: string)
    requires q <= |s| && s[q..] == KeyText(pad, key) + u
    ensures q + 2 + |key| <= |s| && s[q + 1..] == key + "\"" + s[q + |key| + 2..]
  {
    var t := KeyText(pad, key) + u;
    DropDrop(s, q, 1);
    DropDrop(s, q, |key| + 2);
    assert t[1..] == key + "\"" + t[|key| + 2..];
  }

  lemma {:induction false} ExpectedSpells(s: string, at: nat, ms: MemberList, tail: string)
    requires at <= |s| && s[at..] == Behind(ms, tail)
    ensures Spells(s, ms, Expected(ms, at))
    decreases ms
  {
    hide KeyText, Text, Content, Behind, AfterText, TypeOf, Inside;
    if ms.Member? {
      FirstText(ms, tail);
      var q := at + |ms.pad.beforeKey|;
      var post := AfterText(ms.pad, ms.rest) + Behind(ms.rest, tail);
      DropDrop(s, at, |ms.pad.beforeKey|);
      assert s[q..] == KeyText(ms.pad, ms.key) + (Text(ms.value) + post);
      EntrySpells(s, q, ms.pad, ms.key, ms.value, post);
      var e := MemberEntry(q, ms.pad, ms.key, ms.value);
      DropDrop(s, e.next, |AfterText(ms.pad, ms.rest)|);
      var at' := e.next + |AfterText(ms.pad, ms.rest)|;
      assert s[at'..] == Behind(ms.rest, tail);
      ExpectedSpells(s, at', ms.rest, tail);
      assert Expected(ms, at) == [e] + Expected(ms.rest, at');
      assert ([e] + Expected(ms.rest, at'))[1..] == Expected(ms.rest, at');
    }
  }

  predicate Blanks(s: string) {
    forall i :: 0 <= i < |s| ==> s[i] == ' '
  }

  lemma {:induction false} GetObjectBehind(lead: string, mark: char, t: string)
    requires Blanks(lead) && mark != ' ' && t != "" && t[0] == mark
    ensures GetObject(lead + t, mark) == Some(|lead|)
  {
    if lead == "" {
      assert lead + t == t;
    } else {
      GetObjectBehind(lead[1..], mark, t);
      assert (lead + t)[1..] == lead[1..] + t;
    }
  }

  lemma ObjectAt(lead: string, ms: MemberList, tail: string)
    ensures var s := lead + Text(Obj(ms)) + tail;
      |lead| < |s| && s == lead + ("{" + Behind(ms, tail)) && s[|lead|..] == "{" + Behind(ms, tail)
        && s[|lead| + 1..] == Behind(ms, tail)
  {
    hide MembersText;
  }

  /**
    Iterating over a printed object, behind blanks and before anything without quotes, yields
    exactly its members: their keys, the places and texts of their values, and their types, in order.
   */
  lemma PrintedObjectIterates(lead: string, ms: MemberList, tail: string)
    requires Blanks(lead) && ValidMembers(ms) && '"' !in tail
    ensures var s := lead + Text(Obj(ms)) + tail;
      && GetObject(s, '{') == Some(|lead|)
      && Members(s, |lead|) == Expected(ms, |lead| + 1)
      && Spells(s, ms, Members(s, |lead|))
      && Chained(s, |lead|, Members(s, |lead|))
  {
    hide MembersText, Members, GetObject, Expected, Spells, Chained, Behind, Text, ValidMembers, Blanks;
    var s := lead + Text(Obj(ms)) + tail;
    ObjectAt(lead, ms, tail);
    GetObjectBehind(lead, '{', "{" + Behind(ms, tail));
    Iterates(s, |lead|, "{", ms, tail);
    ExpectedSpells(s, |lead| + 1, ms, tail);
    MembersAdvance(s, |lead|);
  }
}
