/**
  src/utils/json_token.c: the list of dotted paths of a document, and the lookup of a dotted
  path; and src/utils/json_parser.c's lookup by name under both.
 */
module JsonToken {
  import opened Wrappers
  import opened JsonParser
  import opened JsonText

  // ---------- lookup by name ----------

  /** json_get_value_by_name_cb: the member has a key and a value, and its key's text starts with the name. */
  predicate NameMatches(s: string, e: Entry, name: string)
    requires e.key <= |s|
  {
    e.keyLen > 0 && e.valLen > 0 && StartsWith(s[e.key..], name)
  }

  /** The first member from pos on whose key matches. */
  function FindName(s: string, pos: nat, name: string): (e: Option<Entry>)
    ensures e.Some? ==> e.value.val + e.value.valLen <= |s|
    decreases |s| - pos
  {
    if pos >= |s| then None
    else
      match MemberAt(s, pos)
      case None => None
      case Some(e) => if NameMatches(s, e, name) then Some(e) else FindName(s, e.next, name)
  }

  function ValueByName(s: string, name: string): (e: Option<Entry>)
    ensures e.Some? ==> e.value.val + e.value.valLen <= |s|
  {
    match GetObject(s, '{')
    case None => None
    case Some(p) => FindName(s, p, name)
  }

  /** json_get_value_by_name on a whole string. */
  method GetValueByName(s: string, name: string) returns (result: Option<Entry>)
    ensures result == ValueByName(s, name)
  {
    var start := GetObjectAt(s, '{');
    if start.None? {
      return None;
    }
    var pos := start.value;
    while pos < |s|
      invariant FindName(s, pos, name) == FindName(s, start.value, name)
      decreases |s| - pos
    {
      var entry := GetNextObject(JsObject, s, pos);
      assert entry == MemberAt(s, pos);
      if entry.None? {
        return None;
      }
      if NameMatches(s, entry.value, name) {
        return entry;
      }
      pos := entry.value.next;
    }
    return None;
  }

  // ---------- LITE_json_value_of ----------

  function TextOf(s: string, e: Entry): string
    requires e.val + e.valLen <= |s|
  {
    s[e.val..e.val + e.valLen]
  }

  /** Each key of the path is looked up from the value of the one before it to the end of the document. */
  function ValueOf(path: string, s: string): Option<string>
    decreases |path|
  {
    match IndexOf(path, '.')
    case None =>
      (match ValueByName(s, path)
       case None => None
       case Some(e) => Some(TextOf(s, e)))
    case Some(d) =>
      match ValueByName(s, path[..d])
      case None => None
      case Some(e) => ValueOf(path[d + 1..], s[e.val..])
  }

  /**
    LITE_json_value_of. In a printed document it gives what the path leads to, and nothing for a
    path that leads nowhere.
   */
  method LookupValue(key: string, src: string) returns (ret: Option<string>)
    ensures ret == ValueOf(key, src)
    ensures forall lead, ms, tail, keys :: Printed(src, lead, ms, tail) && Spelled(key, keys) ==>
      ret == ContentOf(Resolve(ms, keys))
  {
    hide ValueByName, IndexOf, ShiftedBy, Printed, Spelled, Resolve, ContentOf;
    DocumentLookup(key, src);
    var key_iter, src_iter := key, src;
    while true
      invariant ValueOf(key_iter, src_iter) == ValueOf(key, src)
      decreases |key_iter|
    {
      var delim := IndexOf(key_iter, '.');
      if delim.None? {
        break;
      }
      var value := GetValueByName(src_iter, key_iter[..delim.value]);
      if value.None? {
        return None;
      }
      src_iter := src_iter[value.value.val..];
      key_iter := key_iter[delim.value + 1..];
    }
    var value := GetValueByName(src_iter, key_iter);
    if value.None? {
      return None;
    }
    ret := Some(TextOf(src_iter, value.value));
  }

  // ---------- LITE_json_keys_of ----------

  const TEMP_STRING_MAXLEN: nat := 512

  /** LITE_format_string: a formatted text is cut to the size of its buffer. */
  function Format(t: string): (r: string)
    ensures |r| <= |t| && (t != "" ==> r != "")
  {
    if |t| < TEMP_STRING_MAXLEN then t else t[..TEMP_STRING_MAXLEN - 1]
  }

  /** The buffer of 512 bytes holds 511 characters and the terminator. */
  lemma FormatCuts(t: string)
    ensures Format(t) == if |t| <= 511 then t else t[..511]
  {
  }

  function KeyOf(s: string, e: Entry): string
    requires e.key + e.keyLen <= |s|
  {
    s[e.key..e.key + e.keyLen]
  }

  function PathsOf(src: string, prefix: string): seq<string>
    decreases |src|, |src| + 1
  {
    match GetObject(src, '{')
    case None => []
    case Some(p) => PathsFrom(src, p, prefix)
  }

  /** The paths of the members from pos on, each object followed by the paths inside it. */
  function PathsFrom(src: string, pos: nat, prefix: string): seq<string>
    decreases |src|, |src| - pos
  {
    if pos >= |src| then []
    else
      match MemberAt(src, pos)
      case None => []
      case Some(e) => PathsOfMember(src, pos, e, prefix) + PathsFrom(src, e.next, prefix)
  }

  function PathsOfMember(src: string, pos: nat, e: Entry, prefix: string): seq<string>
    requires pos < |src| && pos < e.key && e.key + e.keyLen <= e.val <= e.next && e.val + e.valLen <= |src|
    decreases |src|, |src| - pos, 0
  {
    if e.keyLen == 0 || e.valLen == 0 then []
    else
      [Format(prefix + KeyOf(src, e))]
      + if e.vtype == JsObject then PathsOf(Format(TextOf(src, e)), Format(prefix + KeyOf(src, e) + ".")) else []
  }

  lemma MemberPaths(src: string, pos: nat, e: Entry, prefix: string)
    requires pos < |src| && pos < e.key && e.key + e.keyLen <= e.val <= e.next && e.val + e.valLen <= |src|
    ensures var name := prefix + KeyOf(src, e);
      PathsOfMember(src, pos, e, prefix) ==
        if e.keyLen == 0 || e.valLen == 0 then []
        else [Format(name)] + if e.vtype == JsObject then PathsOf(Format(TextOf(src, e)), Format(name + ".")) else []
  {
    hide PathsOf, Format, KeyOf;
  }

  /** The static list of keys; the entry at its end has no key. */
  class KeyList {
    var keylist: seq<Option<string>>

    constructor ()
      ensures keylist == []
    {
      keylist := [];
    }

    /** LITE_json_keys_of: an empty prefix starts the list anew and ends it. */
    method KeysOf(src: string, prefix: string)
      modifies this
      ensures prefix == "" ==> keylist == Listed(PathsOf(src, "")) + [None]
      ensures prefix != "" ==> keylist == old(keylist) + Listed(PathsOf(src, prefix))
      decreases |src|, 1
    {
      hide MemberAt, PathsOfMember, Listed, GetObject, Moved, NextMember;
      if prefix == "" {
        keylist := [];
      }
      ghost var before := keylist;
      var start := GetObjectAt(src, '{');
      ghost var all := PathsOf(src, prefix);
      ghost var done: seq<string> := [];
      ListedNone();
      if start.Some? {
        var pos := start.value;
        while pos < |src|
          invariant all == done + PathsFrom(src, pos, prefix)
          invariant keylist == before + Listed(done)
          decreases |src| - pos
        {
          var entry := NextEntry(src, pos);
          if entry.None? {
            break;
          }
          var e := entry.value;
          AddMember(src, pos, e, prefix);
          ListedConcat(done, PathsOfMember(src, pos, e, prefix));
          done := done + PathsOfMember(src, pos, e, prefix);
          pos := e.next;
        }
      }
      assert all == done;
      if prefix == "" {
        keylist := keylist + [None];
      }
    }

    /** A member with a key and a value is listed; what is inside an object follows it. */
    method AddMember(src: string, pos: nat, e: Entry, prefix: string)
      requires pos < |src| && pos < e.key && e.key + e.keyLen <= e.val <= e.next && e.val + e.valLen <= |src|
      modifies this
      ensures keylist == old(keylist) + Listed(PathsOfMember(src, pos, e, prefix))
      decreases |src|, 0
    {
      hide PathsOf, PathsOfMember, Format, Listed, KeyOf;
      ListedNone();
      MemberPaths(src, pos, e, prefix);
      if e.keyLen > 0 && e.valLen > 0 {
        var key := Format(prefix + KeyOf(src, e));
        keylist := keylist + [Some(key)];
        ListedOne(key);
        if e.vtype == JsObject {
          var iter_val := Format(TextOf(src, e));
          var iter_pre := Format(prefix + KeyOf(src, e) + ".");
          FormatBounds(TextOf(src, e));
          FormatBounds(prefix + KeyOf(src, e) + ".");
          KeysOf(iter_val, iter_pre);
          ListedConcat([key], PathsOf(iter_val, iter_pre));
        }
      }
    }
  }

  method NextEntry(src: string, pos: nat) returns (entry: Option<Entry>)
    requires pos < |src|
    ensures entry == MemberAt(src, pos)
    ensures entry.Some? ==>
      var e := entry.value;
      pos < e.key && e.key + e.keyLen <= e.val <= e.next && e.val + e.valLen <= |src|
  {
    entry := GetNextObject(JsObject, src, pos);
    assert entry == MemberAt(src, pos);
  }

  lemma FormatBounds(t: string)
    ensures |Format(t)| <= |t| && (t != "" ==> Format(t) != "")
  {
  }

  lemma ListedOne(key: string)
    ensures Listed([key]) == [Some(key)]
  {
  }

  lemma ListedNone()
    ensures Listed([]) == []
  {
  }

  function Listed(keys: seq<string>): (r: seq<Option<string>>)
    ensures |r| == |keys| && forall i :: 0 <= i < |keys| ==> r[i] == Some(keys[i])
  {
    seq(|keys|, i requires 0 <= i < |keys| => Some(keys[i]))
  }

  lemma ListedConcat(a: seq<string>, b: seq<string>)
    ensures Listed(a + b) == Listed(a) + Listed(b)
  {
  }

  // ---------- the paths of a document ----------

  /** A path of keys and the value at its end. */
  datatype Path = Path(keys: seq<string>, value: Value)

  function Under(key: string, paths: seq<Path>): (r: seq<Path>)
    ensures |r| == |paths| && forall i :: 0 <= i < |paths| ==> r[i] == Path([key] + paths[i].keys, paths[i].value)
  {
    seq(|paths|, i requires 0 <= i < |paths| => Path([key] + paths[i].keys, paths[i].value))
  }

  predicate NonEmpty(key: string, v: Value) {
    key != "" && Content(v) != ""
  }

  /** The non-empty members in pre-order, each object before what is inside it. */
  function Paths(ms: MemberList): seq<Path>
    decreases ms
  {
    match ms
    case NoMembers => []
    case Member(_, key, value, rest) =>
      (if !NonEmpty(key, value) then []
       else [Path([key], value)] + if value.Obj? then Under(key, Paths(value.members)) else [])
      + Paths(rest)
  }

  function Join(keys: seq<string>): string
    requires |keys| > 0
  {
    if |keys| == 1 then keys[0] else keys[0] + "." + Join(keys[1..])
  }

  /** Every member is non-empty down the path. */
  lemma {:induction false} PathsHaveKeys(ms: MemberList)
    ensures forall i :: 0 <= i < |Paths(ms)| ==> |Paths(ms)[i].keys| > 0
    decreases ms
  {
    if ms.Member? {
      PathsHaveKeys(ms.rest);
    }
  }

  /** The paths as LITE_json_keys_of writes them. */
  function Written(prefix: string, paths: seq<Path>): seq<string>
    requires forall i :: 0 <= i < |paths| ==> |paths[i].keys| > 0
  {
    seq(|paths|, i requires 0 <= i < |paths| => prefix + Join(paths[i].keys))
  }

  /** Nested texts and paths fit the format buffer. */
  predicate Fits(ms: MemberList, prefix: string)
    decreases ms
  {
    match ms
    case NoMembers => true
    case Member(_, key, value, rest) =>
      && (NonEmpty(key, value) ==> |prefix + key| < TEMP_STRING_MAXLEN)
      && (NonEmpty(key, value) && value.Obj? ==>
            |Text(value)| < TEMP_STRING_MAXLEN && |prefix + key + "."| < TEMP_STRING_MAXLEN
              && Fits(value.members, prefix + key + "."))
      && Fits(rest, prefix)
  }

  lemma {:induction false} WrittenUnder(prefix: string, key: string, paths: seq<Path>)
    requires forall i :: 0 <= i < |paths| ==> |paths[i].keys| > 0
    ensures Written(prefix, Under(key, paths)) == Written(prefix + key + ".", paths)
  {
    forall i | 0 <= i < |paths|
      ensures prefix + Join(Under(key, paths)[i].keys) == prefix + key + "." + Join(paths[i].keys)
    {
      assert ([key] + paths[i].keys)[1..] == paths[i].keys;
    }
  }

  lemma WrittenConcat(prefix: string, a: seq<Path>, b: seq<Path>)
    requires forall i :: 0 <= i < |a| ==> |a[i].keys| > 0
    requires forall i :: 0 <= i < |b| ==> |b[i].keys| > 0
    ensures Written(prefix, a + b) == Written(prefix, a) + Written(prefix, b)
  {
  }

  /** One member's paths. */
  function PathsOfOne(key: string, value: Value): seq<Path>
    decreases value, 1
  {
    if !NonEmpty(key, value) then []
    else [Path([key], value)] + if value.Obj? then Under(key, Paths(value.members)) else []
  }

  /** The listing of a printed object is its paths in pre-order. */
  lemma {:induction false} ListsFrom(src: string, pos: nat, gap: string, ms: MemberList, tail: string, prefix: string)
    requires pos <= |src| && src[pos..] == gap + Behind(ms, tail) && '"' !in gap && '"' !in tail && ValidMembers(ms)
      && Fits(ms, prefix)
    ensures forall i :: 0 <= i < |Paths(ms)| ==> |Paths(ms)[i].keys| > 0
    ensures PathsFrom(src, pos, prefix) == Written(prefix, Paths(ms))
    decreases ms, 1
  {
    hide MemberAt, PathsOfMember, Text, Content, KeyText, Behind, AfterText, Separates, ValidValue, TypeOf, Inside;
    PathsHaveKeys(ms);
    if ms.NoMembers? {
      NothingRead(src, pos, gap, tail);
    } else {
      FirstRead(src, pos, gap, ms, tail);
      AfterSeparates(ms.pad, ms.rest, tail);
      var e := MemberAt(src, pos).value;
      ListsFrom(src, e.next, AfterText(ms.pad, ms.rest), ms.rest, tail, prefix);
      ListsOne(src, pos, gap, ms, tail, prefix);
      WrittenConcat(prefix, PathsOfOne(ms.key, ms.value), Paths(ms.rest));
    }
  }

  /** A member's own path, and for an object the paths inside, from a copy of its text. */
  lemma {:induction false} ListsOne(src: string, pos: nat, gap: string, ms: MemberList, tail: string, prefix: string)
    requires pos < |src| && src[pos..] == gap + Behind(ms, tail) && '"' !in gap && ValidMembers(ms)
      && Fits(ms, prefix) && ms.Member?
    requires MemberAt(src, pos).Some?
    ensures var e := MemberAt(src, pos).value;
      var paths := PathsOfOne(ms.key, ms.value);
      && (forall i :: 0 <= i < |paths| ==> |paths[i].keys| > 0)
      && PathsOfMember(src, pos, e, prefix) == Written(prefix, paths)
    decreases ms, 0
  {
    hide MemberAt, Text, Content, Behind, PathsOf, Format, ValidValue, TypeOf, Written, Paths, PathsOfOne;
    FirstSpells(src, pos, gap, ms, tail);
    WrittenOfOne(prefix, ms.key, ms.value);
    if NonEmpty(ms.key, ms.value) {
      FormatFits(prefix + ms.key);
      if ms.value.Obj? {
        ValidInside(ms.value);
        ListsInside(ms.value.members, prefix + ms.key + ".");
        ObjectContent(ms.value);
      } else {
        OtherType(ms.value);
      }
    }
  }

  lemma FormatFits(t: string)
    requires |t| < TEMP_STRING_MAXLEN
    ensures Format(t) == t
  {
  }

  lemma WrittenOfOne(prefix: string, key: string, value: Value)
    ensures var paths := PathsOfOne(key, value);
      && (forall i :: 0 <= i < |paths| ==> |paths[i].keys| > 0)
      && (value.Obj? ==> forall i :: 0 <= i < |Paths(value.members)| ==> |Paths(value.members)[i].keys| > 0)
      && Written(prefix, paths) ==
           if !NonEmpty(key, value) then []
           else [prefix + key] + if value.Obj? then Written(prefix + key + ".", Paths(value.members)) else []
  {
    hide Written, Content, Under, Paths, Join;
    WrittenNone(prefix);
    WrittenOne(prefix, key, value);
    if value.Obj? {
      PathsHaveKeys(value.members);
      WrittenUnder(prefix, key, Paths(value.members));
      UnderHasKeys(key, Paths(value.members));
      WrittenConcat(prefix, [Path([key], value)], Under(key, Paths(value.members)));
    } else if NonEmpty(key, value) {
      assert PathsOfOne(key, value) == [Path([key], value)];
    }
  }

  lemma WrittenNone(prefix: string)
    ensures Written(prefix, []) == []
  {
  }

  lemma WrittenOne(prefix: string, key: string, value: Value)
    ensures Written(prefix, [Path([key], value)]) == [prefix + key]
  {
  }

  lemma UnderHasKeys(key: string, paths: seq<Path>)
    ensures forall i :: 0 <= i < |Under(key, paths)| ==> |Under(key, paths)[i].keys| > 0
  {
  }

  lemma ObjectContent(v: Value)
    requires v.Obj?
    ensures TypeOf(v) == JsObject && Content(v) == Text(v)
  {
  }

  lemma ValidInside(v: Value)
    requires ValidValue(v) && v.Obj?
    ensures ValidMembers(v.members)
  {
  }

  lemma OtherType(v: Value)
    requires !v.Obj?
    ensures TypeOf(v) != JsObject
  {
  }

  /** The paths inside an object, from its own text. */
  lemma {:induction false} ListsInside(ms: MemberList, prefix: string)
    requires ValidMembers(ms) && Fits(ms, prefix) && |Text(Obj(ms))| < TEMP_STRING_MAXLEN
      && |prefix| < TEMP_STRING_MAXLEN
    ensures forall i :: 0 <= i < |Paths(ms)| ==> |Paths(ms)[i].keys| > 0
    ensures PathsOf(Format(Text(Obj(ms))), Format(prefix)) == Written(prefix, Paths(ms))
    decreases ms, 2
  {
    hide Behind, Text, PathsFrom, Written, GetObject, ValidMembers, Fits, Paths;
    ObjectAt("", ms, "");
    var src := "" + Text(Obj(ms)) + "";
    assert src == Text(Obj(ms));
    GetObjectBehind("", '{', "{" + Behind(ms, ""));
    ListsFrom(src, 0, "{", ms, "", prefix);
  }

  // ---------- what a lookup finds ----------

  /** The members from the first non-empty one on whose key starts with the name. */
  function FirstWith(ms: MemberList, name: string): MemberList {
    match ms
    case NoMembers => NoMembers
    case Member(_, key, value, rest) => if NonEmpty(key, value) && name <= key then ms else FirstWith(rest, name)
  }

  function Count(ms: MemberList): nat {
    if ms.Member? then 1 + Count(ms.rest) else 0
  }

  function Drop(ms: MemberList, n: nat): (r: MemberList)
    requires n <= Count(ms)
    ensures Count(r) == Count(ms) - n
  {
    if n == 0 then ms else Drop(ms.rest, n - 1)
  }

  /** The place of that member, or the number of members when there is none. */
  function FirstIndex(ms: MemberList, name: string): (n: nat)
    ensures n <= Count(ms) && Drop(ms, n) == FirstWith(ms, name)
  {
    match ms
    case NoMembers => 0
    case Member(_, key, value, rest) => if NonEmpty(key, value) && name <= key then 0 else 1 + FirstIndex(rest, name)
  }

  lemma {:induction false} ExpectedCount(ms: MemberList, at: nat)
    ensures |Expected(ms, at)| == Count(ms)
    decreases ms
  {
    hide KeyText, Text, AfterText;
    if ms.Member? {
      ExpectedCount(ms.rest, RestAt(ms, at));
    }
  }

  /** Where the text of the other members starts. */
  function RestAt(ms: MemberList, at: nat): nat
    requires ms.Member?
  {
    at + |ms.pad.beforeKey| + |KeyText(ms.pad, ms.key)| + |Text(ms.value)| + |AfterText(ms.pad, ms.rest)|
  }

  lemma ExpectedRest(ms: MemberList, at: nat)
    requires ms.Member?
    ensures Expected(ms, at)
      == [MemberEntry(at + |ms.pad.beforeKey|, ms.pad, ms.key, ms.value)] + Expected(ms.rest, RestAt(ms, at))
    ensures at < Expected(ms, at)[0].key < RestAt(ms, at)
  {
    hide KeyText, Text, AfterText;
    KeyInText(ms.pad, ms.key);
  }

  lemma {:induction false} ExpectedBehind(ms: MemberList, at: nat, i: nat)
    requires i < |Expected(ms, at)|
    ensures Expected(ms, at)[i].key > at
    decreases ms
  {
    hide Expected, RestAt, MemberEntry;
    if ms.Member? {
      ExpectedRest(ms, at);
      if i > 0 {
        ExpectedBehind(ms.rest, RestAt(ms, at), i - 1);
      }
    } else {
      ExpectedCount(ms, at);
    }
  }

  /** Different members have different places. */
  lemma {:induction false} ExpectedDistinct(ms: MemberList, at: nat, i: nat, j: nat)
    requires i < j < |Expected(ms, at)|
    ensures Expected(ms, at)[i].key < Expected(ms, at)[j].key
    decreases ms
  {
    hide Expected, RestAt, MemberEntry;
    if ms.NoMembers? {
      ExpectedCount(ms, at);
    } else {
      ExpectedRest(ms, at);
      if i > 0 {
        ExpectedDistinct(ms.rest, RestAt(ms, at), i - 1, j - 1);
      } else {
        ExpectedBehind(ms.rest, RestAt(ms, at), j - 1);
      }
    }
  }

  /** Comparing a name with the text at a key is comparing it with the key. */
  lemma NameTest(s: string, e: Entry, key: string, u: string, name: string)
    requires e.key <= |s| && s[e.key..] == key + "\"" + u && '"' !in name
    ensures StartsWith(s[e.key..], name) <==> name <= key
  {
    var t := s[e.key..];
    if |name| <= |key| {
      assert t[..|name|] == key[..|name|];
    } else {
      assert t[|key|] == '"';
      if |name| <= |t| {
        assert t[..|name|][|key|] == '"';
      }
    }
  }

  /**
    Looking a name up finds the first non-empty member whose key starts with it, if the object has
    one: the entry at that member's place, with its value's text, type and length.
   */
  lemma {:induction false} FindsFirst(s: string, pos: nat, gap: string, ms: MemberList, tail: string, name: string)
    requires pos <= |s| && s[pos..] == gap + Behind(ms, tail) && '"' !in gap && ValidMembers(ms) && '"' !in name
    requires FirstWith(ms, name).Member?
    ensures FirstIndex(ms, name) < |Expected(ms, pos + |gap|)|
    ensures FindName(s, pos, name) == Some(Expected(ms, pos + |gap|)[FirstIndex(ms, name)])
    ensures var e, v := FindName(s, pos, name).value, FirstWith(ms, name).value;
      TextOf(s, e) == Content(v) && e.vtype == TypeOf(v) && e.valLen == |Content(v)|
    decreases ms
  {
    hide MemberAt, KeyText, Text, Content, Behind, Separates, AfterText, AllSpace, ValidValue, TypeOf, StartsWith,
      Expected, RestAt, MemberEntry, FirstIndex;
    FirstRead(s, pos, gap, ms, tail);
    FirstSpells(s, pos, gap, ms, tail);
    var e := MemberAt(s, pos).value;
    NameTest(s, e, ms.key, s[e.key + e.keyLen + 1..], name);
    ExpectedRest(ms, pos + |gap|);
    NextAt(ms, pos + |gap|);
    FirstIndexStep(ms, name);
    if !(NonEmpty(ms.key, ms.value) && name <= ms.key) {
      AfterSeparates(ms.pad, ms.rest, tail);
      FindsFirst(s, e.next, AfterText(ms.pad, ms.rest), ms.rest, tail, name);
    }
  }

  lemma FirstIndexStep(ms: MemberList, name: string)
    requires ms.Member?
    ensures FirstIndex(ms, name) == if NonEmpty(ms.key, ms.value) && name <= ms.key then 0
      else 1 + FirstIndex(ms.rest, name)
  {
    hide NonEmpty;
  }

  lemma NextAt(ms: MemberList, at: nat)
    requires ms.Member?
    ensures MemberEntry(at + |ms.pad.beforeKey|, ms.pad, ms.key, ms.value).next + |AfterText(ms.pad, ms.rest)|
      == RestAt(ms, at)
  {
    hide KeyText, Text, AfterText, Content, TypeOf;
  }

  /** A name that no non-empty member's key starts with is not found, if nothing quoted follows the object. */
  lemma {:induction false} FindsNothing(s: string, pos: nat, gap: string, ms: MemberList, tail: string, name: string)
    requires pos <= |s| && s[pos..] == gap + Behind(ms, tail) && '"' !in gap && '"' !in tail && ValidMembers(ms)
      && '"' !in name
    requires FirstWith(ms, name).NoMembers?
    ensures FindName(s, pos, name) == None
    decreases ms
  {
    hide MemberAt, KeyText, Text, Content, Behind, Separates, AfterText, AllSpace, ValidValue, TypeOf, StartsWith;
    if ms.NoMembers? {
      NothingRead(s, pos, gap, tail);
    } else {
      FirstRead(s, pos, gap, ms, tail);
      FirstSpells(s, pos, gap, ms, tail);
      var e := MemberAt(s, pos).value;
      NameTest(s, e, ms.key, s[e.key + e.keyLen + 1..], name);
      AfterSeparates(ms.pad, ms.rest, tail);
      FindsNothing(s, e.next, AfterText(ms.pad, ms.rest), ms.rest, tail, name);
    }
  }

  /** json_get_value_by_name on a printed object: exactly the first non-empty member whose key starts with the name. */
  lemma NameLookup(lead: string, ms: MemberList, tail: string, name: string)
    requires Blanks(lead) && ValidMembers(ms) && '"' !in name
    ensures var s := lead + Text(Obj(ms)) + tail;
      && (FirstWith(ms, name).Member? ==>
            var v := FirstWith(ms, name).value;
            && FirstIndex(ms, name) < |Expected(ms, |lead| + 1)|
            && ValueByName(s, name) == Some(Expected(ms, |lead| + 1)[FirstIndex(ms, name)])
            && TextOf(s, ValueByName(s, name).value) == Content(v)
            && ValueByName(s, name).value.vtype == TypeOf(v) && ValueByName(s, name).value.valLen == |Content(v)|)
      && (FirstWith(ms, name).NoMembers? && '"' !in tail ==> ValueByName(s, name) == None)
  {
    hide FindName, TextOf, Content, Text, TypeOf, Behind, GetObject, ValidMembers, Blanks, FirstWith, FirstIndex,
      Expected;
    var s := lead + Text(Obj(ms)) + tail;
    ObjectAt(lead, ms, tail);
    GetObjectBehind(lead, '{', "{" + Behind(ms, tail));
    if FirstWith(ms, name).Member? {
      FindsFirst(s, |lead|, "{", ms, tail, name);
    } else if '"' !in tail {
      FindsNothing(s, |lead|, "{", ms, tail, name);
    }
  }

  // ---------- which members their own key finds ----------

  predicate Matches(ms: MemberList, key: string) {
    ms.Member? && NonEmpty(ms.key, ms.value) && ms.key <= key
  }

  /** Some non-empty member's key starts the given key. */
  predicate Starting(ms: MemberList, key: string) {
    ms.Member? && (Matches(ms, key) || Starting(ms.rest, key))
  }

  /** No non-empty member's key starts the key of a non-empty member before it. */
  predicate NoShadow(ms: MemberList) {
    ms.Member? ==> (NonEmpty(ms.key, ms.value) ==> !Starting(ms.rest, ms.key)) && NoShadow(ms.rest)
  }

  /** The first non-empty member whose key starts with the n-th member's key is that member. */
  ghost predicate FirstOfItsKey(ms: MemberList, n: nat)
    requires n < Count(ms)
  {
    var m := Drop(ms, n);
    NonEmpty(m.key, m.value) ==> FirstIndex(ms, m.key) == n
  }

  /** Looking the n-th member's key up in the text s of the members finds the entry at that member's place. */
  ghost predicate FindsItself(s: string, ms: MemberList, at: nat, n: nat)
    requires n < Count(ms)
  {
    var m := Drop(ms, n);
    NonEmpty(m.key, m.value) ==> n < |Expected(ms, at)| && ValueByName(s, m.key) == Some(Expected(ms, at)[n])
  }

  ghost predicate KeysFindThemselves(s: string, ms: MemberList, at: nat) {
    forall n :: 0 <= n < Count(ms) ==> FindsItself(s, ms, at, n)
  }

  /** A member whose key starts the given one, and where it is. */
  lemma {:induction false} StartingAt(ms: MemberList, key: string) returns (n: nat)
    requires Starting(ms, key)
    ensures n < Count(ms) && Matches(Drop(ms, n), key)
  {
    if Matches(ms, key) {
      n := 0;
    } else {
      n := StartingAt(ms.rest, key);
      n := n + 1;
    }
  }

  lemma {:induction false} NotStarting(ms: MemberList, key: string, n: nat)
    requires !Starting(ms, key) && n <= Count(ms)
    ensures !Matches(Drop(ms, n), key)
  {
    if n > 0 {
      NotStarting(ms.rest, key, n - 1);
    }
  }

  lemma {:induction false} NoShadowFirst(ms: MemberList, n: nat)
    requires NoShadow(ms) && n < Count(ms)
    ensures FirstOfItsKey(ms, n)
  {
    if n > 0 {
      NoShadowFirst(ms.rest, n - 1);
      if NonEmpty(ms.key, ms.value) {
        NotStarting(ms.rest, ms.key, n - 1);
      }
    }
  }

  lemma {:induction false} ShadowFound(ms: MemberList) returns (n: nat)
    requires !NoShadow(ms)
    ensures n < Count(ms) && !FirstOfItsKey(ms, n)
  {
    if NonEmpty(ms.key, ms.value) && Starting(ms.rest, ms.key) {
      n := StartingAt(ms.rest, ms.key);
    } else {
      n := ShadowFound(ms.rest);
    }
    assert Drop(ms, n + 1) == Drop(ms.rest, n);
    n := n + 1;
  }

  lemma {:induction false} KeyAt(ms: MemberList, n: nat)
    requires ValidMembers(ms) && n < Count(ms)
    ensures '"' !in Drop(ms, n).key
    ensures NonEmpty(Drop(ms, n).key, Drop(ms, n).value) ==> FirstIndex(ms, Drop(ms, n).key) <= n
  {
    hide ValidPad, ValidValue, Content;
    if n > 0 {
      KeyAt(ms.rest, n - 1);
    }
  }

  lemma FindsItselfIff(lead: string, ms: MemberList, tail: string, n: nat)
    requires Blanks(lead) && ValidMembers(ms) && n < Count(ms)
    ensures FindsItself(lead + Text(Obj(ms)) + tail, ms, |lead| + 1, n) <==> FirstOfItsKey(ms, n)
  {
    hide Text, ValidMembers, Blanks, ValueByName, FirstWith, FirstIndex, NonEmpty, Expected, TextOf, TypeOf, Content;
    var m := Drop(ms, n);
    if NonEmpty(m.key, m.value) {
      KeyAt(ms, n);
      ExpectedCount(ms, |lead| + 1);
      var k := FirstIndex(ms, m.key);
      FirstThere(ms, m.key);
      NameLookup(lead, ms, tail, m.key);
      if k < n {
        ExpectedDistinct(ms, |lead| + 1, k, n);
      }
    }
  }

  lemma FirstThere(ms: MemberList, name: string)
    ensures FirstIndex(ms, name) < Count(ms) ==> FirstWith(ms, name).Member?
  {
  }

  /**
    Looking up each non-empty member's key finds the entry at that very member's place exactly when
    no key of such a member starts the key of one before it.
   */
  lemma KeysFindThemselvesIff(lead: string, ms: MemberList, tail: string)
    requires Blanks(lead) && ValidMembers(ms)
    ensures KeysFindThemselves(lead + Text(Obj(ms)) + tail, ms, |lead| + 1) <==> NoShadow(ms)
  {
    hide Text, ValidMembers, Blanks, FindsItself, FirstOfItsKey, NoShadow;
    var s, at := lead + Text(Obj(ms)) + tail, |lead| + 1;
    if NoShadow(ms) {
      forall n | 0 <= n < Count(ms)
        ensures FindsItself(s, ms, at, n)
      {
        NoShadowFirst(ms, n);
        FindsItselfIff(lead, ms, tail, n);
      }
    } else {
      var n := ShadowFound(ms);
      FindsItselfIff(lead, ms, tail, n);
    }
  }

  /** On a document of two such members the second is looked up in vain. */
  lemma ShadowedMember()
    ensures var none := Pad("", "", "", "");
      var ms := Member(none, "ab", Num("1"), Member(none, "a", Num("2"), NoMembers));
      ValidMembers(ms) && !NoShadow(ms) && ValueOf("a", Text(Obj(ms))) == Some("1")
  {
    hide MembersText, ValueByName, FirstWith;
    var none := Pad("", "", "", "");
    var ms := Member(none, "ab", Num("1"), Member(none, "a", Num("2"), NoMembers));
    var s := "" + Text(Obj(ms)) + "";
    ShadowingFirst(ms.rest);
    NameLookup("", ms, "", "a");
    EntryInside(s, "a");
    ValueOfLast("a", s);
    assert s == Text(Obj(ms));
  }

  lemma ShadowingFirst(rest: MemberList)
    ensures var ms := Member(Pad("", "", "", ""), "ab", Num("1"), rest); FirstWith(ms, "a") == ms
  {
    assert "a" <= "ab";
  }

  lemma EntryInside(s: string, name: string)
    requires ValueByName(s, name).Some?
    ensures var e := ValueByName(s, name).value; e.val + e.valLen <= |s|
  {
  }

  lemma ValueOfLast(path: string, s: string)
    requires IndexOf(path, '.') == None && ValueByName(s, path).Some?
    ensures ValueOf(path, s) == Some(TextOf(s, ValueByName(s, path).value))
  {
    hide IndexOf, ValueByName, TextOf;
  }

  // ---------- what a path leads to ----------

  function Append(a: MemberList, b: MemberList): MemberList {
    match a
    case NoMembers => b
    case Member(pad, key, value, rest) => Member(pad, key, value, Append(rest, b))
  }

  /** Members of the list up to the place are passed over; behind the first list the second one goes on. */
  lemma {:induction false} FirstOfAppended(a: MemberList, b: MemberList, name: string)
    ensures FirstWith(Append(a, b), name) ==
      if FirstWith(a, name).Member? then Append(FirstWith(a, name), b) else FirstWith(b, name)
    decreases a
  {
    hide NonEmpty;
    if a.Member? {
      FirstOfAppended(a.rest, b, name);
    }
  }

  /**
    Where a path leads among the members ahead: each key to the first non-empty one that starts with
    it. The scan does not stop at the end of an object, so a key looked for in it can also be found
    among the members that follow it outside.
   */
  function Resolve(ms: MemberList, keys: seq<string>): Option<Value>
    requires |keys| > 0
    decreases |keys|
  {
    match FirstWith(ms, keys[0])
    case NoMembers => None
    case Member(_, _, value, rest) =>
      if |keys| == 1 then Some(value)
      else if value.Obj? then Resolve(Append(value.members, rest), keys[1..])
      else None
  }

  function ContentOf(v: Option<Value>): Option<string> {
    match v
    case None => None
    case Some(v) => Some(Content(v))
  }

  /** No string reads like the start of an object. */
  predicate PlainStrings(ms: MemberList) {
    match ms
    case NoMembers => true
    case Member(_, _, value, rest) =>
      && (value.Str? ==> GetObject(value.text + "\"", '{').None?)
      && (value.Obj? ==> PlainStrings(value.members))
      && PlainStrings(rest)
  }

  /** A document: an object behind blanks and before anything without quotes. */
  predicate Printed(s: string, lead: string, ms: MemberList, tail: string) {
    Blanks(lead) && ValidMembers(ms) && PlainStrings(ms) && '"' !in tail && s == lead + Text(Obj(ms)) + tail
  }

  /** A path of these keys. */
  predicate Spelled(path: string, keys: seq<string>) {
    |keys| > 0 && (forall i :: 0 <= i < |keys| ==> '.' !in keys[i] && '"' !in keys[i]) && path == Join(keys)
  }

  predicate Split(t: string, gap: string, m: MemberList, after: string)
    requires m.Member?
  {
    && '"' !in gap && Separates(after)
    && ValidPad(m.pad) && '"' !in m.key && ValidValue(m.value)
    && t == gap + (KeyText(m.pad, m.key) + (Text(m.value) + after))
  }

  /** A scan over the text meets exactly these members. */
  ghost predicate Meets(t: string, ms: MemberList)
    decreases ms
  {
    match ms
    case NoMembers => '"' !in t
    case Member(_, _, _, rest) => exists gap, after :: Split(t, gap, ms, after) && Meets(after, rest)
  }

  lemma MeetsLater(gap: string, t: string, ms: MemberList)
    requires Meets(t, ms) && '"' !in gap
    ensures Meets(gap + t, ms)
  {
    hide Text, KeyText, Separates, ValidPad, ValidValue;
    if ms.Member? {
      var more, after :| Split(t, more, ms, after) && Meets(after, ms.rest);
      assert Split(gap + t, gap + more, ms, after) by {
        assert gap + t == gap + more + (KeyText(ms.pad, ms.key) + (Text(ms.value) + after));
      }
    }
  }

  /** Inside an object its members are met, and then those met behind it. */
  lemma {:induction false} MeetsInside(gap: string, ms: MemberList, tail: string, others: MemberList)
    requires '"' !in gap && ValidMembers(ms) && Meets(tail, others)
    ensures Meets(gap + Behind(ms, tail), Append(ms, others))
    decreases ms
  {
    hide Text, KeyText, Separates, ValidPad, ValidValue, AfterText;
    if ms.NoMembers? {
      NoText();
      MeetsLater(gap + "}", tail, others);
      assert gap + Behind(ms, tail) == gap + "}" + tail;
    } else {
      FirstText(ms, tail);
      AfterSeparates(ms.pad, ms.rest, tail);
      MeetsInside(AfterText(ms.pad, ms.rest), ms.rest, tail, others);
      var t, after := gap + Behind(ms, tail), AfterText(ms.pad, ms.rest) + Behind(ms.rest, tail);
      GapUnquoted(ms.pad);
      hide Behind;
      assert t == gap + ms.pad.beforeKey + (KeyText(ms.pad, ms.key) + (Text(ms.value) + after));
      assert Split(t, gap + ms.pad.beforeKey, Append(ms, others), after);
    }
  }

  lemma GapUnquoted(pad: Pad)
    requires ValidPad(pad)
    ensures '"' !in pad.beforeKey
  {
  }

  /** From the value on: its text, with the closing quote of a string, and what is behind it. */
  predicate ValueThen(s: string, e: Entry, v: Value) {
    && e.val <= e.next <= |s| && e.val + e.valLen <= |s| && TextOf(s, e) == Content(v)
    && s[e.val..] == (if v.Str? then v.text + "\"" else Text(v)) + s[e.next..]
  }

  /** The first member met is the member read, and the others are met behind it. */
  lemma MetFirst(s: string, pos: nat, ms: MemberList)
    requires pos <= |s| && Meets(s[pos..], ms) && ms.Member?
    ensures pos < |s| && MemberAt(s, pos).Some?
    ensures var e := MemberAt(s, pos).value;
      && e.keyLen == |ms.key| && e.valLen == |Content(ms.value)|
      && e.key <= |s| && pos < e.next <= |s|
      && e.key + e.keyLen < |s| && s[e.key..] == ms.key + "\"" + s[e.key + e.keyLen + 1..]
      && ValueThen(s, e, ms.value) && ValidValue(ms.value) && Meets(s[e.next..], ms.rest)
  {
    hide Text, KeyText, Separates, ValidPad, ValidValue, Content, TypeOf, NextMember, Meets;
    var gap, after := FirstSplit(s[pos..], ms);
    MemberRead(gap, ms.pad, ms.key, ms.value, after);
    var q := pos + |gap|;
    DropDrop(s, pos, |gap|);
    assert s[q..] == KeyText(ms.pad, ms.key) + (Text(ms.value) + after);
    EntrySpells(s, q, ms.pad, ms.key, ms.value, after);
    KeyThenQuote(s, q, ms.pad, ms.key, Text(ms.value) + after);
    var e := MemberEntry(q, ms.pad, ms.key, ms.value);
    assert MemberAt(s, pos) == Some(e);
    ValueSpelled(s, q, ms.pad, ms.key, ms.value, after);
  }

  lemma FirstSplit(t: string, ms: MemberList) returns (gap: string, after: string)
    requires Meets(t, ms) && ms.Member?
    ensures Split(t, gap, ms, after) && Meets(after, ms.rest)
  {
    hide Split;
    gap, after :| Split(t, gap, ms, after) && Meets(after, ms.rest);
  }

  lemma ValueSpelled(s: string, q: nat, pad: Pad, key: string, v: Value, post: string)
    requires q <= |s| && s[q..] == KeyText(pad, key) + (Text(v) + post)
    ensures ValueThen(s, MemberEntry(q, pad, key, v), v)
  {
    hide Text, KeyText, Content, TypeOf;
    EntrySpells(s, q, pad, key, v, post);
    var k := |KeyText(pad, key)|;
    BehindKey(s, q, KeyText(pad, key), Text(v) + post);
    if v.Str? {
      StringText(v);
      DropDrop(s, q + k, 1);
      QuoteDropped(v.text, post);
    }
  }

  lemma BehindKey(s: string, q: nat, a: string, b: string)
    requires q <= |s| && s[q..] == a + b
    ensures q + |a| <= |s| && s[q + |a|..] == b
  {
    DropDrop(s, q, |a|);
    assert (a + b)[|a|..] == b;
  }

  lemma QuoteDropped(text: string, post: string)
    ensures ("\"" + text + "\"" + post)[1..] == text + "\"" + post
  {
  }

  lemma StringText(v: Value)
    requires v.Str?
    ensures Text(v) == "\"" + v.text + "\""
  {
  }

  /** A lookup finds the first member met whose key starts with the name, and nothing when there is none. */
  lemma {:induction false} MetLookup(s: string, pos: nat, ms: MemberList, name: string)
    requires pos <= |s| && Meets(s[pos..], ms) && '"' !in name
    ensures FirstWith(ms, name).NoMembers? <==> FindName(s, pos, name) == None
    ensures FirstWith(ms, name).Member? ==>
      var e, m := FindName(s, pos, name).value, FirstWith(ms, name);
      ValueThen(s, e, m.value) && ValidValue(m.value) && Meets(s[e.next..], m.rest)
    decreases ms
  {
    hide MemberAt, Content, StartsWith, ValidValue, ValueThen, Meets;
    if ms.NoMembers? {
      NothingMet(s, pos);
    } else {
      MetFirst(s, pos, ms);
      var e := MemberAt(s, pos).value;
      NameTest(s, e, ms.key, s[e.key + e.keyLen + 1..], name);
      LengthsTell(ms.key, ms.value);
      if !(NonEmpty(ms.key, ms.value) && name <= ms.key) {
        MetLookup(s, e.next, ms.rest, name);
      }
    }
  }

  lemma LengthsTell(key: string, v: Value)
    ensures NonEmpty(key, v) <==> |key| > 0 && |Content(v)| > 0
  {
    hide Content;
  }

  lemma NothingMet(s: string, pos: nat)
    requires pos <= |s| && Meets(s[pos..], NoMembers)
    ensures pos < |s| ==> MemberAt(s, pos) == None
  {
    IndexOfNone(s[pos..], '"');
  }

  lemma {:induction false} PlainBehind(ms: MemberList, name: string)
    requires PlainStrings(ms)
    ensures PlainStrings(FirstWith(ms, name))
  {
    hide NonEmpty;
    if ms.Member? {
      PlainBehind(ms.rest, name);
    }
  }

  lemma {:induction false} PlainAppended(a: MemberList, b: MemberList)
    requires PlainStrings(a) && PlainStrings(b)
    ensures PlainStrings(Append(a, b))
    decreases a
  {
    hide GetObject;
    if a.Member? {
      PlainAppended(a.rest, b);
    }
  }

  lemma NoObject(path: string, s: string)
    requires GetObject(s, '{') == None
    ensures ValueOf(path, s) == None
  {
    hide IndexOf, GetObject;
  }

  /** Looking for an object's mark is decided by a text that does not end in a blank. */
  lemma {:induction false} DecidedEarly(a: string, b: string)
    requires a != "" && a[|a| - 1] != ' ' && GetObject(a, '{') == None
    ensures GetObject(a + b, '{') == None
  {
    assert (a + b)[0] == a[0];
    if a[0] == ' ' {
      assert (a + b)[1..] == a[1..] + b;
      DecidedEarly(a[1..], b);
    }
  }

  lemma NotAnObject(v: Value, after: string)
    requires ValidValue(v) && !v.Obj? && (v.Str? ==> GetObject(v.text + "\"", '{').None?)
    ensures GetObject((if v.Str? then v.text + "\"" else Text(v)) + after, '{') == None
  {
    hide ElementsText, ValidElements, ElementsFree;
    if v.Str? {
      DecidedEarly(v.text + "\"", after);
    } else {
      var t := Text(v) + after;
      assert t[0] == Text(v)[0] && t[0] != ' ' && t[0] != '{';
    }
  }

  /** From an object in sight: the path leads exactly where the members met lead. */
  lemma {:induction false} MetResolved(s: string, p: nat, ms: MemberList, keys: seq<string>)
    requires GetObject(s, '{') == Some(p) && Meets(s[p..], ms) && PlainStrings(ms)
    requires |keys| > 0 && Spelled(Join(keys), keys)
    ensures ValueOf(Join(keys), s) == ContentOf(Resolve(ms, keys))
    decreases |keys|
  {
    hide IndexOf, Meets, FindName, FirstWith, Content, Text, ValidValue, GetObject, PlainStrings, TextOf, Join,
      Dotted, ValueByName, ValueOf, ValueThen;
    MetLookup(s, p, ms, keys[0]);
    NamedFrom(s, p, keys[0]);
    JoinSplits(keys);
    PlainBehind(ms, keys[0]);
    var m := FirstWith(ms, keys[0]);
    ResolveStep(ms, keys);
    if m.NoMembers? {
      if |keys| == 1 {
        ValueOfNone(Join(keys), s);
      } else {
        ValueOfAbsent(Join(keys), keys[0], Join(keys[1..]), s);
      }
    } else {
      var e := FindName(s, p, keys[0]).value;
      PlainFirst(m);
      if |keys| == 1 {
        ValueOfLast(Join(keys), s);
        SpelledValue(s, e, m.value);
      } else {
        ValueOfInner(Join(keys), keys[0], Join(keys[1..]), s);
        SpelledValue(s, e, m.value);
        if m.value.Obj? {
          InnerMet(s, e, m);
          MetResolved(s[e.val..], 0, Append(m.value.members, m.rest), keys[1..]);
        } else {
          NotAnObject(m.value, s[e.next..]);
          NoObject(Join(keys[1..]), s[e.val..]);
        }
      }
    }
  }

  lemma PlainFirst(m: MemberList)
    requires PlainStrings(m) && m.Member?
    ensures PlainStrings(m.rest) && (m.value.Obj? ==> PlainStrings(m.value.members))
    ensures m.value.Str? ==> GetObject(m.value.text + "\"", '{').None?
  {
    hide GetObject;
  }

  lemma SpelledValue(s: string, e: Entry, v: Value)
    requires ValueThen(s, e, v)
    ensures e.val <= e.next <= |s| && e.val + e.valLen <= |s| && TextOf(s, e) == Content(v)
    ensures s[e.val..] == (if v.Str? then v.text + "\"" else Text(v)) + s[e.next..]
  {
    hide Text, Content, TextOf;
  }

  lemma NamedFrom(s: string, p: nat, name: string)
    requires GetObject(s, '{') == Some(p)
    ensures ValueByName(s, name) == FindName(s, p, name)
  {
    hide FindName;
  }

  lemma ResolveStep(ms: MemberList, keys: seq<string>)
    requires |keys| > 0
    ensures var m := FirstWith(ms, keys[0]);
      Resolve(ms, keys) ==
        if m.NoMembers? then None
        else if |keys| == 1 then Some(m.value)
        else if m.value.Obj? then Resolve(Append(m.value.members, m.rest), keys[1..])
        else None
  {
    hide FirstWith, Append;
  }

  lemma ValueOfNone(path: string, s: string)
    requires IndexOf(path, '.') == None && ValueByName(s, path).None?
    ensures ValueOf(path, s) == None
  {
    hide IndexOf, ValueByName, TextOf;
  }

  lemma ValueOfAbsent(path: string, key: string, rest: string, s: string)
    requires Dotted(path, key, rest) && ValueByName(s, key).None?
    ensures ValueOf(path, s) == None
  {
    hide IndexOf, ValueByName, TextOf;
  }

  /** At an object's text the members inside it are ahead, and then those behind it. */
  lemma InnerMet(s: string, e: Entry, m: MemberList)
    requires m.Member? && m.value.Obj? && ValidValue(m.value) && PlainStrings(m) && ValueThen(s, e, m.value)
      && Meets(s[e.next..], m.rest)
    ensures var t := s[e.val..];
      && GetObject(t, '{') == Some(0) && Meets(t[0..], Append(m.value.members, m.rest))
      && PlainStrings(Append(m.value.members, m.rest))
  {
    hide Text, Content, GetObject, Meets, PlainStrings, ValidValue, Behind;
    var inside, after := m.value.members, s[e.next..];
    ValidInside(m.value);
    ObjectAt("", inside, after);
    var t := s[e.val..];
    assert t == "" + Text(Obj(inside)) + after;
    GetObjectBehind("", '{', "{" + Behind(inside, after));
    MeetsInside("{", inside, after, m.rest);
    assert t[0..] == "{" + Behind(inside, after);
    PlainFirst(m);
    PlainAppended(inside, m.rest);
  }

  /**
    LITE_json_value_of on a printed document, for any path: the text of the member it leads to, and
    nothing exactly when it leads nowhere.
   */
  lemma PathResolved(lead: string, ms: MemberList, tail: string, keys: seq<string>)
    requires Printed(lead + Text(Obj(ms)) + tail, lead, ms, tail) && |keys| > 0 && Spelled(Join(keys), keys)
    ensures ValueOf(Join(keys), lead + Text(Obj(ms)) + tail) == ContentOf(Resolve(ms, keys))
  {
    hide Text, GetObject, Meets, PlainStrings, Behind, Join, ValueOf, Resolve, ContentOf, ValidMembers;
    var s := lead + Text(Obj(ms)) + tail;
    ObjectAt(lead, ms, tail);
    GetObjectBehind(lead, '{', "{" + Behind(ms, tail));
    assert Meets(tail, NoMembers) by { NothingToMeet(tail); }
    MeetsInside("{", ms, tail, NoMembers);
    AppendNothing(ms);
    MetResolved(s, |lead|, ms, keys);
  }

  lemma NothingToMeet(tail: string)
    requires '"' !in tail
    ensures Meets(tail, NoMembers)
  {
  }

  lemma {:induction false} AppendNothing(ms: MemberList)
    ensures Append(ms, NoMembers) == ms
  {
    if ms.Member? {
      AppendNothing(ms.rest);
    }
  }

  lemma DocumentLookup(key: string, src: string)
    ensures forall lead, ms, tail, keys :: Printed(src, lead, ms, tail) && Spelled(key, keys) ==>
      ValueOf(key, src) == ContentOf(Resolve(ms, keys))
  {
    hide ValueOf, Resolve, ContentOf, Text, PlainStrings, ValidMembers, Join;
    forall lead, ms, tail, keys | Printed(src, lead, ms, tail) && Spelled(key, keys)
      ensures ValueOf(key, src) == ContentOf(Resolve(ms, keys))
    {
      PathResolved(lead, ms, tail, keys);
    }
  }

  /** A single name gives nothing exactly when no non-empty member's key starts with it. */
  lemma AbsentName(lead: string, ms: MemberList, tail: string, name: string)
    requires Printed(lead + Text(Obj(ms)) + tail, lead, ms, tail) && '.' !in name && '"' !in name
    ensures var found := ValueOf(name, lead + Text(Obj(ms)) + tail);
      && (found == None <==> FirstWith(ms, name).NoMembers?)
      && (found.Some? ==> found.value == Content(FirstWith(ms, name).value))
  {
    hide Text, PlainStrings, ValueOf, ValidMembers, FirstWith, Content;
    assert Join([name]) == name;
    PathResolved(lead, ms, tail, [name]);
  }

  /** A path whose first key starts no such key leads nowhere. */
  lemma AbsentFirst(lead: string, ms: MemberList, tail: string, keys: seq<string>)
    requires Printed(lead + Text(Obj(ms)) + tail, lead, ms, tail) && |keys| > 0 && Spelled(Join(keys), keys)
    requires FirstWith(ms, keys[0]).NoMembers?
    ensures ValueOf(Join(keys), lead + Text(Obj(ms)) + tail) == None
  {
    hide Text, PlainStrings, ValueOf, ValidMembers, FirstWith, Content, Join;
    PathResolved(lead, ms, tail, keys);
  }

  /** A key that is not in an object is taken from behind it: a.b leads to the b beside a. */
  lemma FoundOutside()
    ensures var none := Pad("", "", "", "");
      var inner := Member(none, "c", Num("1"), NoMembers);
      var ms := Member(none, "a", Obj(inner), Member(none, "b", Num("2"), NoMembers));
      && FirstWith(inner, "b").NoMembers?
      && ValidMembers(ms) && ValueOf("a.b", Text(Obj(ms))) == Some("2")
  {
    hide Text, ValueOf, IndexOf;
    var none := Pad("", "", "", "");
    var inner := Member(none, "c", Num("1"), NoMembers);
    var ms := Member(none, "a", Obj(inner), Member(none, "b", Num("2"), NoMembers));
    var keys := ["a", "b"];
    assert Join(keys[1..]) == "b";
    assert Join(keys) == "a.b";
    assert "" + Text(Obj(ms)) + "" == Text(Obj(ms));
    OutsideResolved(ms, inner);
    PathResolved("", ms, "", keys);
  }

  lemma OutsideResolved(ms: MemberList, inner: MemberList)
    requires inner == Member(Pad("", "", "", ""), "c", Num("1"), NoMembers)
    requires ms == Member(Pad("", "", "", ""), "a", Obj(inner),
      Member(Pad("", "", "", ""), "b", Num("2"), NoMembers))
    ensures Resolve(ms, ["a", "b"]) == Some(Num("2")) && Content(Num("2")) == "2"
    ensures FirstWith(inner, "b").NoMembers?
  {
    hide Text;
    assert Content(Num("1")) == "1" && Content(Num("2")) == "2" by { NumText("1"); NumText("2"); }
    assert Content(Obj(inner)) != "" by { ObjText(inner); }
    assert ["a", "b"][1..] == ["b"];
    assert FirstWith(ms, "a") == ms;
    assert "b"[0] != "c"[0] && !("b" <= "c");
    assert FirstWith(inner.rest, "b").NoMembers? && FirstWith(inner, "b").NoMembers?;
    assert FirstWith(Append(inner, ms.rest), "b") == ms.rest;
    ResolveStep(ms, ["a", "b"]);
    ResolveStep(Append(inner, ms.rest), ["b"]);
  }

  lemma NumText(t: string)
    ensures Text(Num(t)) == t
  {
  }

  lemma ObjText(ms: MemberList)
    ensures Text(Obj(ms)) != ""
  {
    hide MembersText;
  }

  // ---------- every listed path is found ----------

  /** No dots in keys, and no shadowed members, at any depth of objects. */
  predicate Clean(ms: MemberList)
    decreases ms, 1
  {
    NoShadow(ms) && CleanInside(ms)
  }

  predicate CleanInside(ms: MemberList)
    decreases ms, 0
  {
    ms.Member? ==> '.' !in ms.key && (ms.value.Obj? ==> Clean(ms.value.members)) && CleanInside(ms.rest)
  }

  /** The member that the first key of a path finds is the one the path goes through. */
  lemma {:induction false} PathOwner(ms: MemberList, p: Path)
    requires ValidMembers(ms) && Clean(ms) && p in Paths(ms)
    ensures |p.keys| > 0
    ensures var m := FirstWith(ms, p.keys[0]);
      && m.Member? && m.key == p.keys[0] && p in PathsOfOne(m.key, m.value)
      && '"' !in m.key && '.' !in m.key && ValidValue(m.value) && (m.value.Obj? ==> Clean(m.value.members))
      && Matches(m, p.keys[0]) && (NonEmpty(ms.key, ms.value) && m != ms ==> Starting(ms.rest, p.keys[0]))
    decreases ms
  {
    hide ValidValue, Content;
    if p in PathsOfOne(ms.key, ms.value) {
      assert p.keys[0] == ms.key;
    } else {
      assert p in Paths(ms.rest);
      PathOwner(ms.rest, p);
      var m := FirstWith(ms.rest, p.keys[0]);
      StartingSelf(ms.rest, m.key);
      if NonEmpty(ms.key, ms.value) && p.keys[0] <= ms.key {
        StartingLonger(ms.rest, p.keys[0], ms.key);
        assert false;
      }
    }
  }

  lemma {:induction false} StartingSelf(ms: MemberList, name: string)
    requires FirstWith(ms, name).Member? && FirstWith(ms, name).key == name
    ensures Starting(ms, name)
  {
    hide NonEmpty;
    if !(NonEmpty(ms.key, ms.value) && name <= ms.key) {
      StartingSelf(ms.rest, name);
    }
  }

  lemma {:induction false} StartingLonger(ms: MemberList, short: string, long: string)
    requires Starting(ms, short) && short <= long
    ensures Starting(ms, long)
  {
    if !Matches(ms, short) {
      StartingLonger(ms.rest, short, long);
    }
  }

  lemma JoinSplits(keys: seq<string>)
    requires |keys| > 0 && '.' !in keys[0]
    ensures |keys| == 1 ==> IndexOf(Join(keys), '.') == None && Join(keys) == keys[0]
    ensures |keys| > 1 ==> Dotted(Join(keys), keys[0], Join(keys[1..]))
  {
    hide IndexOf;
    if |keys| == 1 {
      IndexOfNone(keys[0], '.');
    } else {
      DotSplits(keys[0], Join(keys[1..]));
    }
  }

  /** A path whose first dot lies behind its first key. */
  predicate Dotted(path: string, key: string, rest: string) {
    IndexOf(path, '.') == Some(|key|) && |key| < |path| && path[..|key|] == key && path[|key| + 1..] == rest
  }

  lemma DotSplits(key: string, rest: string)
    requires '.' !in key
    ensures Dotted(key + "." + rest, key, rest)
  {
    hide IndexOf;
    IndexOfBehind(key, '.', "." + rest);
    assert key + "." + rest == key + ("." + rest);
  }

  lemma ValueOfInner(path: string, key: string, rest: string, s: string)
    requires Dotted(path, key, rest) && ValueByName(s, key).Some?
    ensures ValueOf(path, s) == ValueOf(rest, s[ValueByName(s, key).value.val..])
  {
    hide IndexOf, ValueByName, TextOf;
  }

  /** The text found, then the rest of the document. */
  lemma FoundThenRest(s: string, e: Entry, t: string)
    requires e.val + e.valLen <= |s| && TextOf(s, e) == t
    ensures s[e.val..] == "" + t + s[e.val + e.valLen..]
  {
  }

  /** Looking up a path of the document returns exactly the text of its member. */
  lemma {:induction false} PathFound(lead: string, ms: MemberList, tail: string, p: Path)
    requires Blanks(lead) && ValidMembers(ms) && Clean(ms) && p in Paths(ms)
    ensures |p.keys| > 0 && ValueOf(Join(p.keys), lead + Text(Obj(ms)) + tail) == Some(Content(p.value))
    decreases |p.keys|
  {
    hide Text, ValidMembers, ValidValue, Clean, Paths, PathsOfOne, ValueOf, ValueByName, TypeOf, TextOf, FirstWith,
      IndexOf, Join, NonEmpty, Content, Dotted, Matches;
    PathOwner(ms, p);
    var s := lead + Text(Obj(ms)) + tail;
    var m := FirstWith(ms, p.keys[0]);
    NameLookup(lead, ms, tail, p.keys[0]);
    JoinSplits(p.keys);
    var e := ValueByName(s, p.keys[0]).value;
    if |p.keys| > 1 {
      var inner := InnerPath(m.key, m.value, p);
      assert p.keys[1..] == inner.keys;
      ObjectContent(m.value);
      ValidInside(m.value);
      EntryInside(s, p.keys[0]);
      FoundThenRest(s, e, Text(m.value));
      ValueOfInner(Join(p.keys), p.keys[0], Join(inner.keys), s);
      PathFound("", m.value.members, s[e.val + e.valLen..], inner);
    } else {
      OuterPath(m.key, m.value, p);
      ValueOfLast(Join(p.keys), s);
    }
  }

  lemma OuterPath(key: string, value: Value, p: Path)
    requires p in PathsOfOne(key, value) && |p.keys| == 1
    ensures p == Path([key], value)
  {
    if value.Obj? {
      PathsHaveKeys(value.members);
    }
  }

  lemma InnerPath(key: string, value: Value, p: Path) returns (inner: Path)
    requires p in PathsOfOne(key, value) && |p.keys| > 1
    ensures value.Obj? && inner in Paths(value.members) && p == Path([key] + inner.keys, inner.value)
      && |inner.keys| > 0
  {
    PathsHaveKeys(value.members);
    assert p in Under(key, Paths(value.members));
    var i :| 0 <= i < |Paths(value.members)| && Under(key, Paths(value.members))[i] == p;
    inner := Paths(value.members)[i];
  }

  /**
    LITE_json_keys_of lists exactly the paths of the document's non-empty members in pre-order, and
    LITE_json_value_of returns for each of them exactly that member's text.
   */
  lemma ListedPathsFound(lead: string, ms: MemberList, tail: string)
    requires Blanks(lead) && ValidMembers(ms) && Clean(ms) && Fits(ms, "") && '"' !in tail
    ensures var s, paths := lead + Text(Obj(ms)) + tail, Paths(ms);
      && |PathsOf(s, "")| == |paths|
      && forall i :: 0 <= i < |paths| ==>
           |paths[i].keys| > 0 && PathsOf(s, "")[i] == Join(paths[i].keys)
             && ValueOf(PathsOf(s, "")[i], s) == Some(Content(paths[i].value))
  {
    hide Text, ValidMembers, Clean, Fits, Paths, PathsFrom, ValueOf, GetObject, Behind, Content, Join;
    var s := lead + Text(Obj(ms)) + tail;
    ObjectAt(lead, ms, tail);
    GetObjectBehind(lead, '{', "{" + Behind(ms, tail));
    ListsFrom(s, |lead|, "{", ms, tail, "");
    forall i | 0 <= i < |Paths(ms)|
      ensures PathsOf(s, "")[i] == Join(Paths(ms)[i].keys)
        && ValueOf(PathsOf(s, "")[i], s) == Some(Content(Paths(ms)[i].value))
    {
      PathFound(lead, ms, tail, Paths(ms)[i]);
      assert "" + Join(Paths(ms)[i].keys) == Join(Paths(ms)[i].keys);
    }
  }
}
