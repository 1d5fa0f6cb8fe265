/**
  Iterating over the entries of an array as src/utils/json_parser.h's loop does: a printed array
  yields its elements, whatever white space is between them.
 */
module JsonArray {
  import opened Wrappers
  import opened JsonParser
  import opened JsonText

  /** One entry found: where its value lies, what it is, and where the cursor goes. */
  datatype Span = Span(val: nat, valLen: nat, vtype: JsonType, next: nat)

  /** The entry found behind the character under the cursor. */
  function SpanAt(s: string, pos: nat): (e: Option<Span>)
    requires pos < |s|
    ensures e.Some? ==> pos < e.value.next && e.value.val + e.value.valLen <= |s|
  {
    match NextValue(s[pos + 1..])
    case None => None
    case Some(e) => Some(Span(pos + 1 + e.val, e.valLen, e.vtype, pos + 1 + e.next))
  }

  function Spans(s: string, pos: nat): seq<Span>
    decreases |s| - pos
  {
    if pos >= |s| then []
    else
      match SpanAt(s, pos)
      case None => []
      case Some(e) => [e] + Spans(s, e.next)
  }

  /** json_array_for_each_entry over a whole text. */
  method EachEntry(s: string) returns (entries: seq<Span>)
    ensures GetObject(s, '[') == None ==> entries == []
    ensures GetObject(s, '[').Some? ==> entries == Spans(s, GetObject(s, '[').value)
  {
    hide NextValue, GetObject, NextMember, Moved;
    entries := [];
    var start := GetObjectAt(s, '[');
    if start.None? {
      return;
    }
    var pos := start.value;
    while pos < |s|
      invariant Spans(s, start.value) == entries + Spans(s, pos)
      decreases |s| - pos
    {
      var entry := NextSpan(s, pos);
      if entry.None? {
        return;
      }
      entries := entries + [entry.value];
      pos := entry.value.next;
    }
  }

  method NextSpan(s: string, pos: nat) returns (entry: Option<Span>)
    requires pos < |s|
    ensures entry == SpanAt(s, pos)
  {
    hide NextValue, NextMember;
    var e := GetNextObject(JsArray, s, pos + 1);
    entry := if e.None? then None else Some(Span(e.value.val, e.value.valLen, e.value.vtype, e.value.next));
  }

  // ---------- a printed array ----------

  /** No character starts a value. */
  predicate Quiet(t: string) {
    forall i :: 0 <= i < |t| ==> Starts(t[i]) == None
  }

  function Length(es: ElementList): nat {
    if es.Element? then 1 + Length(es.rest) else 0
  }

  function ElementAt(es: ElementList, i: nat): Value
    requires i < Length(es)
  {
    if i == 0 then es.value else ElementAt(es.rest, i - 1)
  }

  function Closed(es: ElementList, tail: string): string {
    ElementsText(es) + ("]" + tail)
  }

  function Comma(es: ElementList): string
    requires es.Element?
  {
    if es.rest.Element? then "," else ""
  }

  lemma FirstElementText(es: ElementList, tail: string)
    requires es.Element?
    ensures Closed(es, tail) == es.before + (Text(es.value) + (es.after + Comma(es) + Closed(es.rest, tail)))
  {
    hide Text;
  }

  lemma CloseText(tail: string)
    ensures Closed(NoElements, tail) == "]" + tail
  {
  }

  /** What is behind an element starts with a character that ends any value and starts none. */
  lemma BehindElement(es: ElementList, tail: string)
    requires es.Element? && AllSpace(es.after)
    ensures var post := es.after + Comma(es) + Closed(es.rest, tail);
      Separates(post) && Starts(post[0]) == None
    ensures Quiet(es.after + Comma(es))
  {
    var post := es.after + Comma(es) + Closed(es.rest, tail);
    if es.after + Comma(es) != "" {
      assert post[0] == (es.after + Comma(es))[0];
    } else {
      assert es.rest == NoElements;
      CloseText(tail);
      assert post[0] == ']';
    }
  }

  /** The value the entry names, read from the text. */
  predicate Names(s: string, e: Span, v: Value) {
    && e.val + e.valLen <= |s| && s[e.val..e.val + e.valLen] == Content(v)
    && e.valLen == |Content(v)| && e.vtype == TypeOf(v)
  }

  /** One turn: behind a skipped character and others that start nothing, the next element is found. */
  lemma ElementRead(s: string, pos: nat, gap: string, es: ElementList, tail: string)
    requires pos < |s| && s[pos..] == gap + Closed(es, tail) && gap != "" && Quiet(gap[1..])
    requires ValidElements(es) && es.Element?
    ensures SpanAt(s, pos).Some?
    ensures var e := SpanAt(s, pos).value;
      && Names(s, e, es.value) && e.next < |s|
      && s[e.next..] == es.after + Comma(es) + Closed(es.rest, tail)
  {
    hide NextValue, Text, Content, ValidValue, Closed, TypeOf, Separates, Comma, Quiet, Names, Starts;
    var a := gap[1..] + es.before;
    var post := es.after + Comma(es) + Closed(es.rest, tail);
    FirstElementText(es, tail);
    BehindElement(es, tail);
    SpacesQuiet(es.before);
    QuietJoined(gap[1..], es.before);
    NextAfterOne(s, pos, gap, es.before, Text(es.value) + post);
    ValueBehind(a, es.value, post);
    NamesBehind(s, pos + 1, a, es.value, post);
  }

  lemma QuietJoined(a: string, b: string)
    requires Quiet(a) && Quiet(b)
    ensures forall i :: 0 <= i < |a + b| ==> Starts((a + b)[i]) == None
  {
    hide Starts;
  }

  lemma NextAfterOne(s: string, pos: nat, gap: string, before: string, t: string)
    requires pos < |s| && s[pos..] == gap + (before + t) && gap != ""
    ensures s[pos + 1..] == (gap[1..] + before) + t
  {
    DropDrop(s, pos, 1);
    assert (gap + (before + t))[1..] == gap[1..] + (before + t);
  }

  lemma SpacesQuiet(t: string)
    requires AllSpace(t)
    ensures Quiet(t)
  {
  }

  lemma NamesBehind(s: string, p: nat, a: string, v: Value, post: string)
    requires p <= |s| && s[p..] == a + (Text(v) + post) && Separates(post)
    ensures var b := p + |a|;
      var e := Span(if v.Str? then b + 1 else b, |Content(v)|, TypeOf(v), b + |Text(v)|);
      Names(s, e, v) && e.next < |s| && s[e.next..] == post
  {
    hide Text, Content, TypeOf;
    BehindValue(s, p, a, Text(v), post);
    if v.Str? {
      QuotedContent(v);
    } else {
      OtherLength(v);
    }
  }

  /** A text between others, its inside, and what follows it. */
  lemma BehindValue(s: string, p: nat, a: string, t: string, post: string)
    requires p <= |s| && s[p..] == a + (t + post) && post != ""
    ensures var b := p + |a|;
      && b + |t| < |s| && s[b..b + |t|] == t && s[b + |t|..] == post
      && (|t| >= 2 ==> s[b + 1..b + |t| - 1] == t[1..|t| - 1])
  {
    var b := p + |a|;
    assert s[b..] == t + post by {
      assert s[b..] == s[p..][|a|..];
    }
    assert s[b + |t|..] == s[b..][|t|..];
    assert s[b..b + |t|] == s[b..][..|t|];
    if |t| >= 2 {
      SliceAt(s, b, t + post, 1, |t| - 1);
      assert (t + post)[1..|t| - 1] == t[1..|t| - 1];
    }
  }

  /** Behind the last element nothing is found, if nothing follows that starts a value. */
  lemma NothingBehind(s: string, pos: nat, gap: string, tail: string)
    requires pos < |s| && s[pos..] == gap + Closed(NoElements, tail) && Quiet((gap + "]")[1..])
      && Quiet(tail)
    ensures SpanAt(s, pos) == None
  {
    CloseText(tail);
    var rest := s[pos + 1..];
    assert rest == (gap + "]")[1..] + tail by {
      DropDrop(s, pos, 1);
      assert s[pos..] == gap + "]" + tail;
    }
    NothingStarts(rest);
  }

  lemma {:induction false} NothingStarts(t: string)
    requires Quiet(t)
    ensures FindStart(t) == None
  {
    if t != "" {
      NothingStarts(t[1..]);
    }
  }

  /** The entries are the elements, in order. */
  ghost predicate NamesAll(s: string, spans: seq<Span>, es: ElementList) {
    |spans| == Length(es) && forall i :: 0 <= i < |spans| ==> Names(s, spans[i], ElementAt(es, i))
  }

  lemma {:induction false} EntriesFrom(s: string, pos: nat, gap: string, es: ElementList, tail: string)
    requires pos < |s| && s[pos..] == gap + Closed(es, tail) && ValidElements(es) && Quiet(tail)
    requires Quiet((gap + "]")[1..]) && (es.Element? ==> gap != "")
    ensures NamesAll(s, Spans(s, pos), es)
    decreases es
  {
    hide SpanAt, Names, Closed, ValidValue;
    if es.NoElements? {
      NothingBehind(s, pos, gap, tail);
    } else {
      QuietGap(gap);
      ElementRead(s, pos, gap, es, tail);
      var e := SpanAt(s, pos).value;
      BehindElement(es, tail);
      var gap' := es.after + Comma(es);
      QuietClosed(gap');
      EntriesFrom(s, e.next, gap', es.rest, tail);
      AllNamed(s, e, Spans(s, e.next), es);
    }
  }

  lemma AllNamed(s: string, e: Span, spans: seq<Span>, es: ElementList)
    requires es.Element? && Names(s, e, es.value) && NamesAll(s, spans, es.rest)
    ensures NamesAll(s, [e] + spans, es)
  {
    hide Names;
  }

  lemma QuietGap(gap: string)
    requires gap != "" && Quiet((gap + "]")[1..])
    ensures Quiet(gap[1..])
  {
    forall i | 0 <= i < |gap[1..]|
      ensures Starts(gap[1..][i]) == None
    {
      assert gap[1..][i] == (gap + "]")[1..][i];
    }
  }

  lemma QuietClosed(gap: string)
    requires Quiet(gap)
    ensures Quiet((gap + "]")[1..])
  {
  }

  /**
    Iterating over a printed array, behind blanks and before anything that starts no value, yields
    exactly its elements: the text and the type of each, in order.
   */
  lemma PrintedArrayIterates(lead: string, es: ElementList, tail: string)
    requires Blanks(lead) && ValidElements(es) && Quiet(tail)
    ensures var s := lead + Text(Arr(es)) + tail;
      GetObject(s, '[') == Some(|lead|) && NamesAll(s, Spans(s, |lead|), es)
  {
    hide ElementsText, Spans, GetObject, NamesAll, ValidElements, Blanks;
    var s := lead + Text(Arr(es)) + tail;
    assert s == lead + ("[" + Closed(es, tail)) && s[|lead|..] == "[" + Closed(es, tail);
    GetObjectBehind(lead, '[', "[" + Closed(es, tail));
    assert ("[" + "]")[1..] == "]";
    EntriesFrom(s, |lead|, "[", es, tail);
  }
}
