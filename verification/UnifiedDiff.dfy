/**
  The unified diff of external_libs/googletest/src/gtest.cc: lines are compared through
  interned ids, the edits are grouped into hunks, and the printed hunks, read as a patch,
  turn the left lines into the right ones.
 */
module UnifiedDiff {
  import opened EditDistance
  import opened Wrappers

  // ---------- strings compared through their ids ----------

  /** Which lines are equal decides the whole table. */
  lemma {:induction false} CellsRenamed<T, U>(
      left: seq<T>, right: seq<T>, leftIds: seq<U>, rightIds: seq<U>, l: nat, r: nat)
    requires |leftIds| == |left| && |rightIds| == |right| && l <= |left| && r <= |right|
    requires forall i, j :: 0 <= i < |left| && 0 <= j < |right| ==> (left[i] == right[j] <==> leftIds[i] == rightIds[j])
    ensures CellAt(leftIds, rightIds, l, r) == CellAt(left, right, l, r)
    decreases l + r
  {
    hide CellAt, Choose;
    EdgeCells(left, right, l, r);
    EdgeCells(leftIds, rightIds, l, r);
    if l > 0 && r > 0 {
      InnerCell(left, right, l, r);
      InnerCell(leftIds, rightIds, l, r);
      CellsRenamed(left, right, leftIds, rightIds, l - 1, r - 1);
      CellsRenamed(left, right, leftIds, rightIds, l, r - 1);
      CellsRenamed(left, right, leftIds, rightIds, l - 1, r);
    }
  }

  lemma {:induction false} PathRenamed<T, U>(
      left: seq<T>, right: seq<T>, leftIds: seq<U>, rightIds: seq<U>, l: nat, r: nat)
    requires |leftIds| == |left| && |rightIds| == |right| && l <= |left| && r <= |right|
    requires forall i, j :: 0 <= i < |left| && 0 <= j < |right| ==> (left[i] == right[j] <==> leftIds[i] == rightIds[j])
    ensures PathTo(leftIds, rightIds, l, r) == PathTo(left, right, l, r)
    decreases l + r
  {
    if l > 0 || r > 0 {
      CellsRenamed(left, right, leftIds, rightIds, l, r);
      var move := CellAt(left, right, l, r).move;
      EdgeCells(left, right, l, r);
      hide CellAt;
      PathRenamed(left, right, leftIds, rightIds, LeftFrom(move, l), RightFrom(move, r));
    }
  }

  class InternalStrings {
    var ids: map<string, nat>

    /** Ids are handed out from 0 upwards, one for each string. */
    ghost predicate Valid()
      reads this
    {
      && (forall s :: s in ids ==> ids[s] < |ids|)
      && (forall s, t :: s in ids && t in ids && ids[s] == ids[t] ==> s == t)
    }

    constructor ()
      ensures Valid() && ids == map[]
    {
      ids := map[];
    }

    method GetId(str: string) returns (id: nat)
      requires Valid()
      modifies this
      ensures Valid()
      ensures str in ids && ids[str] == id
      ensures ids == if str in old(ids) then old(ids) else old(ids)[str := |old(ids)|]
    {
      if str in ids {
        return ids[str];
      }
      id := |ids|;
      ids := ids[str := id];
    }

    /** Interns every line; ids given before stay as they are. */
    method GetIds(lines: seq<string>) returns (result: seq<nat>)
      requires Valid()
      modifies this
      ensures Valid()
      ensures |result| == |lines|
      ensures forall i :: 0 <= i < |lines| ==> lines[i] in ids && ids[lines[i]] == result[i]
      ensures forall s :: s in old(ids) ==> s in ids && ids[s] == old(ids)[s]
    {
      result := [];
      for i := 0 to |lines|
        invariant Valid()
        invariant |result| == i
        invariant forall j :: 0 <= j < i ==> lines[j] in ids && ids[lines[j]] == result[j]
        invariant forall s :: s in old(ids) ==> s in ids && ids[s] == old(ids)[s]
      {
        var id := GetId(lines[i]);
        result := result + [id];
      }
    }
  }

  /** The edits for strings are the path of the strings' own table. */
  method CalculateOptimalEdits(left: seq<string>, right: seq<string>) returns (path: seq<EditType>)
    ensures path == PathTo(left, right, |left|, |right|)
    ensures ValidScript(path, left, right)
    ensures Cost(path) == CellAt(left, right, |left|, |right|).cost
  {
    var intern_table := new InternalStrings();
    var left_ids := intern_table.GetIds(left);
    var right_ids := intern_table.GetIds(right);
    path := EditDistance.CalculateOptimalEdits(left_ids, right_ids);
    PathRenamed(left, right, left_ids, right_ids, |left|, |right|);
    CellsRenamed(left, right, left_ids, right_ids, |left|, |right|);
    PathIsValid(left, right, |left|, |right|);
    assert left[..|left|] == left && right[..|right|] == right;
  }

  // ---------- positions reached along a script ----------

  function LeftUsed(edits: seq<EditType>): nat {
    if |edits| == 0 then 0
    else LeftUsed(edits[..|edits| - 1]) + if edits[|edits| - 1] == Add then 0 else 1
  }

  function RightUsed(edits: seq<EditType>): nat {
    if |edits| == 0 then 0
    else RightUsed(edits[..|edits| - 1]) + if edits[|edits| - 1] == Remove then 0 else 1
  }

  lemma {:induction false} ScriptUsesAll<T>(edits: seq<EditType>, left: seq<T>, right: seq<T>)
    requires ValidScript(edits, left, right)
    ensures LeftUsed(edits) == |left| && RightUsed(edits) == |right|
  {
    if |edits| > 0 {
      var n, l, r := |edits| - 1, |left| - 1, |right| - 1;
      match edits[n]
      case Match => ScriptUsesAll(edits[..n], left[..l], right[..r]);
      case Replace => ScriptUsesAll(edits[..n], left[..l], right[..r]);
      case Remove => ScriptUsesAll(edits[..n], left[..l], right);
      case Add => ScriptUsesAll(edits[..n], left, right[..r]);
    }
  }

  /** What the next edit says about the lines at the position reached. */
  predicate Fits<T(==)>(edits: seq<EditType>, left: seq<T>, right: seq<T>, k: nat)
    requires k < |edits|
  {
    var l, r := LeftUsed(edits[..k]), RightUsed(edits[..k]);
    && (edits[k] != Add ==> l < |left|)
    && (edits[k] != Remove ==> r < |right|)
    && (edits[k] == Match ==> left[l] == right[r])
  }

  lemma {:induction false} StepFits<T>(edits: seq<EditType>, left: seq<T>, right: seq<T>, k: nat)
    requires ValidScript(edits, left, right) && k < |edits|
    ensures Fits(edits, left, right, k)
  {
    var n, l, r := |edits| - 1, |left| - 1, |right| - 1;
    ScriptUsesAll(edits, left, right);
    if k < n {
      assert edits[..n][..k] == edits[..k];
      match edits[n]
      case Match => StepFits(edits[..n], left[..l], right[..r], k);
      case Replace => StepFits(edits[..n], left[..l], right[..r], k);
      case Remove => StepFits(edits[..n], left[..l], right, k);
      case Add => StepFits(edits[..n], left, right[..r], k);
    }
  }

  lemma StepUses(edits: seq<EditType>, k: nat)
    requires k < |edits|
    ensures LeftUsed(edits[..k + 1]) == LeftUsed(edits[..k]) + if edits[k] == Add then 0 else 1
    ensures RightUsed(edits[..k + 1]) == RightUsed(edits[..k]) + if edits[k] == Remove then 0 else 1
  {
    assert edits[..k + 1][..k] == edits[..k];
  }

  /** The lines reached after the first k edits. */
  predicate At(edits: seq<EditType>, left: seq<string>, right: seq<string>, k: nat, l: nat, r: nat) {
    && k <= |edits|
    && l == LeftUsed(edits[..k]) && l <= |left|
    && r == RightUsed(edits[..k]) && r <= |right|
  }

  lemma Advance(edits: seq<EditType>, left: seq<string>, right: seq<string>, k: nat, l: nat, r: nat)
    requires ValidScript(edits, left, right) && k < |edits| && At(edits, left, right, k, l, r)
    ensures Fits(edits, left, right, k)
    ensures At(edits, left, right, k + 1, if edits[k] == Add then l else l + 1, if edits[k] == Remove then r else r + 1)
  {
    StepFits(edits, left, right, k);
    StepUses(edits, k);
  }

  /** The same step with the bounds spelled out. */
  lemma AdvanceBounds(edits: seq<EditType>, left: seq<string>, right: seq<string>, k: nat, l: nat, r: nat)
    requires ValidScript(edits, left, right) && k < |edits| && At(edits, left, right, k, l, r)
    ensures (edits[k] != Add ==> l < |left|) && (edits[k] != Remove ==> r < |right|)
      && (edits[k] == Match ==> left[l] == right[r])
    ensures At(edits, left, right, k + 1, if edits[k] == Add then l else l + 1, if edits[k] == Remove then r else r + 1)
  {
    Advance(edits, left, right, k, l, r);
  }

  lemma AtWithin(edits: seq<EditType>, left: seq<string>, right: seq<string>, k: nat, l: nat, r: nat)
    requires At(edits, left, right, k, l, r)
    ensures k <= |edits| && l <= |left| && r <= |right|
    ensures k == 0 ==> l == r == 0
  {
  }

  lemma AtEnd(edits: seq<EditType>, left: seq<string>, right: seq<string>, l: nat, r: nat)
    requires ValidScript(edits, left, right) && At(edits, left, right, |edits|, l, r)
    ensures l == |left| && r == |right|
  {
    assert edits[..|edits|] == edits;
    ScriptUsesAll(edits, left, right);
  }

  // ---------- printed hunks, read as a patch ----------

  datatype Line = Line(tag: char, text: string)

  datatype Range = Range(start: nat, length: nat)

  /** One printed hunk: the two parts of its header, each left out when it is not needed, and its lines. */
  datatype Printed = Printed(minus: Option<Range>, plus: Option<Range>, body: seq<Line>)

  function LeftSide(body: seq<Line>): seq<string> {
    if |body| == 0 then []
    else LeftSide(body[..|body| - 1]) + if body[|body| - 1].tag == '+' then [] else [body[|body| - 1].text]
  }

  function RightSide(body: seq<Line>): seq<string> {
    if |body| == 0 then []
    else RightSide(body[..|body| - 1]) + if body[|body| - 1].tag == '-' then [] else [body[|body| - 1].text]
  }

  function Count(body: seq<Line>, tag: char): nat {
    if |body| == 0 then 0
    else Count(body[..|body| - 1], tag) + if body[|body| - 1].tag == tag then 1 else 0
  }

  lemma {:induction false} SidesConcat(a: seq<Line>, b: seq<Line>)
    ensures LeftSide(a + b) == LeftSide(a) + LeftSide(b)
    ensures RightSide(a + b) == RightSide(a) + RightSide(b)
  {
    if |b| == 0 {
      assert a + b == a;
    } else {
      assert (a + b)[..|a + b| - 1] == a + b[..|b| - 1];
      SidesConcat(a, b[..|b| - 1]);
    }
  }

  lemma {:induction false} CountConcat(a: seq<Line>, b: seq<Line>, tag: char)
    ensures Count(a + b, tag) == Count(a, tag) + Count(b, tag)
  {
    if |b| == 0 {
      assert a + b == a;
    } else {
      assert (a + b)[..|a + b| - 1] == a + b[..|b| - 1];
      CountConcat(a, b[..|b| - 1], tag);
    }
  }

  lemma {:induction false} AddedHaveNoLeftSide(b: seq<Line>)
    requires forall i :: 0 <= i < |b| ==> b[i].tag == '+'
    ensures LeftSide(b) == []
  {
    if |b| > 0 {
      AddedHaveNoLeftSide(b[..|b| - 1]);
    }
  }

  lemma Appended(body: seq<Line>, line: Line)
    ensures LeftSide(body + [line]) == LeftSide(body) + if line.tag == '+' then [] else [line.text]
    ensures RightSide(body + [line]) == RightSide(body) + if line.tag == '-' then [] else [line.text]
    ensures forall tag :: Count(body + [line], tag) == Count(body, tag) + if line.tag == tag then 1 else 0
  {
    assert (body + [line])[..|body|] == body;
  }

  /** Putting a removed line before the pending added ones leaves both sides in order. */
  lemma RemoveBeforeAdds(a: seq<Line>, text: string, b: seq<Line>)
    requires forall i :: 0 <= i < |b| ==> b[i].tag == '+'
    ensures LeftSide(a + [Line('-', text)] + b) == LeftSide(a + b) + [text]
    ensures RightSide(a + [Line('-', text)] + b) == RightSide(a + b)
  {
    hide LeftSide, RightSide, Count;
    AddedHaveNoLeftSide(b);
    Appended(a, Line('-', text));
    SidesConcat(a, b);
    SidesConcat(a + [Line('-', text)], b);
  }

  lemma CountInserted(a: seq<Line>, line: Line, b: seq<Line>, tag: char)
    ensures Count(a + [line] + b, tag) == Count(a + b, tag) + if line.tag == tag then 1 else 0
  {
    hide LeftSide, RightSide, Count;
    Appended(a, line);
    CountConcat(a, b, tag);
    CountConcat(a + [line], b, tag);
  }

  /** A reader of the patch: lines of left consumed, lines of output written. */
  datatype Position = Position(used: nat, output: seq<string>)

  /** The lines of left to copy before the hunk; the part of the header that is there says how many. */
  function Skip(h: Printed, p: Position): int {
    if h.minus.Some? then h.minus.value.start - 1 - p.used
    else if h.plus.Some? then h.plus.value.start - 1 - |p.output|
    else -1
  }

  /**
    The patch refuses a hunk that starts before the last one ended, whose left side is not
    what left holds there, or whose header does not count its lines.
   */
  function ApplyHunk(h: Printed, left: seq<string>, p: Position): Option<Position>
    requires p.used <= |left|
  {
    var from := p.used + Skip(h, p);
    var to := from + |LeftSide(h.body)|;
    if Skip(h, p) < 0 || to > |left| || LeftSide(h.body) != left[from..to] then None
    else if h.minus != (if Count(h.body, '-') > 0 then Some(Range(from + 1, |LeftSide(h.body)|)) else None) then None
    else if h.plus !=
        (if Count(h.body, '+') > 0 then Some(Range(|p.output| + Skip(h, p) + 1, |RightSide(h.body)|)) else None)
      then None
    else Some(Position(to, p.output + left[p.used..from] + RightSide(h.body)))
  }

  function Apply(hunks: seq<Printed>, left: seq<string>): (p: Option<Position>)
    ensures p.Some? ==> p.value.used <= |left|
  {
    if |hunks| == 0 then Some(Position(0, []))
    else
      match Apply(hunks[..|hunks| - 1], left)
      case None => None
      case Some(p) => ApplyHunk(hunks[|hunks| - 1], left, p)
  }

  /** The whole file as the hunks present it: the lines copied up to the hunk and the lines of the hunk. */
  function Passed(h: Printed, left: seq<string>, p: Position): seq<Line>
    requires p.used <= |left| && ApplyHunk(h, left, p).Some?
  {
    Common(left[p.used..p.used + Skip(h, p)]) + h.body
  }

  function PassedBy(hunks: seq<Printed>, left: seq<string>): seq<Line>
    requires Apply(hunks, left).Some?
  {
    if |hunks| == 0 then []
    else
      var before := hunks[..|hunks| - 1];
      PassedBy(before, left) + Passed(hunks[|hunks| - 1], left, Apply(before, left).value)
  }

  /** The hunks with the lines between and behind them: the difference with nothing left out. */
  function Listing(hunks: seq<Printed>, left: seq<string>): seq<Line>
    requires Apply(hunks, left).Some?
  {
    PassedBy(hunks, left) + Common(left[Apply(hunks, left).value.used..])
  }

  function Patch(hunks: seq<Printed>, left: seq<string>): Option<seq<string>> {
    match Apply(hunks, left)
    case None => None
    case Some(p) => Some(p.output + left[p.used..])
  }

  // ---------- what the lines tell of the edits ----------

  /** The tags of the lines that are not tagged `dropped`, in order. */
  function Kept(body: seq<Line>, dropped: char): string {
    if |body| == 0 then ""
    else
      var tag := body[|body| - 1].tag;
      Kept(body[..|body| - 1], dropped) + if tag == dropped then "" else [tag]
  }

  /** The moves as the left file sees them: an added line is not in it. */
  function OldMoves(edits: seq<EditType>): string {
    if |edits| == 0 then ""
    else
      OldMoves(edits[..|edits| - 1]) +
        match edits[|edits| - 1]
        case Match => " "
        case Add => ""
        case _ => "-"
  }

  /** The moves as the right file sees them: a removed line is not in it. */
  function NewMoves(edits: seq<EditType>): string {
    if |edits| == 0 then ""
    else
      NewMoves(edits[..|edits| - 1]) +
        match edits[|edits| - 1]
        case Match => " "
        case Remove => ""
        case _ => "+"
  }

  /** Without its added lines the body is these moves of the left file, and without its removed ones of the right. */
  predicate Tells(body: seq<Line>, edits: seq<EditType>) {
    Kept(body, '+') == OldMoves(edits) && Kept(body, '-') == NewMoves(edits)
  }

  lemma {:induction false} KeptConcat(a: seq<Line>, b: seq<Line>, dropped: char)
    ensures Kept(a + b, dropped) == Kept(a, dropped) + Kept(b, dropped)
  {
    if |b| == 0 {
      assert a + b == a;
    } else {
      assert (a + b)[..|a + b| - 1] == a + b[..|b| - 1];
      KeptConcat(a, b[..|b| - 1], dropped);
    }
  }

  lemma {:induction false} MovesConcat(a: seq<EditType>, b: seq<EditType>)
    ensures OldMoves(a + b) == OldMoves(a) + OldMoves(b)
    ensures NewMoves(a + b) == NewMoves(a) + NewMoves(b)
  {
    if |b| == 0 {
      assert a + b == a;
    } else {
      assert (a + b)[..|a + b| - 1] == a + b[..|b| - 1];
      MovesConcat(a, b[..|b| - 1]);
    }
  }

  lemma {:induction false} NoneKept(b: seq<Line>, dropped: char)
    requires forall i :: 0 <= i < |b| ==> b[i].tag == dropped
    ensures Kept(b, dropped) == ""
  {
    if |b| > 0 {
      NoneKept(b[..|b| - 1], dropped);
    }
  }

  lemma KeptOne(line: Line, dropped: char)
    ensures Kept([line], dropped) == if line.tag == dropped then "" else [line.tag]
  {
    assert [line][..0] == [];
  }

  lemma MovesOfOne(edit: EditType)
    ensures OldMoves([edit]) == if edit == Match then " " else if edit == Add then "" else "-"
    ensures NewMoves([edit]) == if edit == Match then " " else if edit == Remove then "" else "+"
  {
    assert [edit][..0] == [];
  }

  lemma KeptAppended(a: seq<Line>, line: Line)
    ensures forall dropped ::
      Kept(a + [line], dropped) == Kept(a, dropped) + if line.tag == dropped then "" else [line.tag]
  {
    assert (a + [line])[..|a|] == a;
  }

  /** A removed line before the pending added ones is told last. */
  lemma KeptPushed(a: seq<Line>, line: Line, b: seq<Line>)
    requires line.tag == '-' && forall i :: 0 <= i < |b| ==> b[i].tag == '+'
    ensures Kept(a + [line] + b, '+') == Kept(a + b, '+') + ['-']
    ensures Kept(a + [line] + b, '-') == Kept(a + b, '-')
  {
    hide Kept;
    NoneKept(b, '+');
    forall dropped: char
      ensures Kept(a + [line] + b, dropped)
        == Kept(a, dropped) + (if line.tag == dropped then "" else [line.tag]) + Kept(b, dropped)
      ensures Kept(a + b, dropped) == Kept(a, dropped) + Kept(b, dropped)
    {
      KeptConcat(a + [line], b, dropped);
      KeptConcat(a, [line], dropped);
      KeptConcat(a, b, dropped);
      KeptOne(line, dropped);
    }
  }

  lemma TellsJoined(a: seq<Line>, b: seq<Line>, first: seq<EditType>, second: seq<EditType>)
    requires Tells(a, first) && Tells(b, second)
    ensures Tells(a + b, first + second)
  {
    hide Kept, OldMoves, NewMoves;
    KeptConcat(a, b, '+');
    KeptConcat(a, b, '-');
    MovesConcat(first, second);
  }

  /** The same for edits that are parts of one script. */
  lemma TellsOn(a: seq<Line>, b: seq<Line>, edits: seq<EditType>, from: nat, at: nat, to: nat)
    requires from <= at <= to <= |edits| && Tells(a, edits[from..at]) && Tells(b, edits[at..to])
    ensures Tells(a + b, edits[from..to])
  {
    hide Tells;
    TellsJoined(a, b, edits[from..at], edits[at..to]);
    assert edits[from..to] == edits[from..at] + edits[at..to];
  }

  lemma TellsNothing(edits: seq<EditType>, at: nat)
    requires at <= |edits|
    ensures Tells([], edits[at..at])
  {
  }

  // ---------- the shape of a hunk ----------

  /** Within a run of edits every removed line comes before every added one. */
  predicate Grouped(body: seq<Line>) {
    forall i :: 0 <= i < |body| - 1 && body[i].tag == '+' ==> body[i + 1].tag != '-'
  }

  predicate Edited(body: seq<Line>) {
    Count(body, '-') > 0 || Count(body, '+') > 0
  }

  function Trailing(body: seq<Line>): nat {
    if |body| == 0 || body[|body| - 1].tag != ' ' then 0 else 1 + Trailing(body[..|body| - 1])
  }

  function Leading(body: seq<Line>): nat {
    if |body| == 0 || body[0].tag != ' ' then 0 else 1 + Leading(body[1..])
  }

  /** Fewer than 2 * context common lines lie between two neighbouring edits. */
  predicate Tight(body: seq<Line>, context: nat) {
    |body| == 0 ||
    var n := |body| - 1;
    Tight(body[..n], context) && (body[n].tag != ' ' && Edited(body[..n]) ==> Trailing(body[..n]) < 2 * context)
  }

  lemma {:induction false} EditsTight(a: seq<Line>, b: seq<Line>, context: nat)
    requires context > 0 && forall i :: 0 <= i < |b| ==> b[i].tag == '-' || b[i].tag == '+'
    ensures Tight(a + b, context) <==> Tight(a, context) && (|b| > 0 && Edited(a) ==> Trailing(a) < 2 * context)
    ensures |b| > 0 ==> Edited(a + b) && Trailing(a + b) == 0
  {
    if |b| == 0 {
      assert a + b == a;
    } else {
      var b' := b[..|b| - 1];
      assert (a + b)[..|a + b| - 1] == a + b';
      EditsTight(a, b', context);
      if |b'| == 0 {
        assert a + b' == a;
      }
    }
  }

  /** An edit may follow when the common lines since the last edit are few; it may go before pending adds. */
  lemma EditPushed(a: seq<Line>, x: Line, b: seq<Line>, context: nat)
    requires context > 0 && (x.tag == '-' || x.tag == '+') && forall i :: 0 <= i < |b| ==> b[i].tag == '+'
    requires Tight(a + b, context) && (Edited(a + b) ==> Trailing(a + b) < 2 * context)
    ensures Tight(a + [x] + b, context) && Trailing(a + [x] + b) == 0
  {
    hide Count, Tight, Trailing;
    CountConcat(a, b, '-');
    CountConcat(a, b, '+');
    EditsTight(a, b, context);
    EditsTight(a, [x] + b, context);
    assert a + [x] + b == a + ([x] + b);
    assert |b| == 0 ==> a + b == a;
  }

  lemma CommonPushed(a: seq<Line>, text: string, context: nat)
    ensures Tight(a + [Line(' ', text)], context) == Tight(a, context)
    ensures Trailing(a + [Line(' ', text)]) == Trailing(a) + 1
  {
    assert (a + [Line(' ', text)])[..|a|] == a;
  }

  lemma {:induction false} LeadingCommon(body: seq<Line>, n: nat)
    requires n <= |body| && (forall i :: 0 <= i < n ==> body[i].tag == ' ') && (n < |body| ==> body[n].tag != ' ')
    ensures Leading(body) == n
  {
    if n > 0 {
      LeadingCommon(body[1..], n - 1);
    }
  }

  class Hunk {
    const left_start: nat
    const right_start: nat
    var adds: nat
    var removes: nat
    var common: nat
    var hunk: seq<Line>
    var hunk_adds: seq<Line>
    var hunk_removes: seq<Line>

    /** The lines in the order in which they will be printed. */
    ghost function Lines(): seq<Line>
      reads this
    {
      hunk + hunk_removes + hunk_adds
    }

    ghost predicate Valid()
      reads this
    {
      && (forall i :: 0 <= i < |hunk_adds| ==> hunk_adds[i].tag == '+')
      && (forall i :: 0 <= i < |hunk_removes| ==> hunk_removes[i].tag == '-')
      && (|hunk| > 0 ==> hunk[|hunk| - 1].tag == ' ')
      && Grouped(hunk)
      && adds == Count(Lines(), '+') && removes == Count(Lines(), '-')
      && removes + common == |LeftSide(Lines())| && adds + common == |RightSide(Lines())|
    }

    constructor (left_start: nat, right_start: nat)
      ensures Valid() && !HasEdits() && Lines() == hunk == []
      ensures this.left_start == left_start && this.right_start == right_start
    {
      this.left_start, this.right_start := left_start, right_start;
      adds, removes, common := 0, 0, 0;
      hunk, hunk_adds, hunk_removes := [], [], [];
    }

    method PushLine(edit: char, line: string)
      requires Valid() && (edit == ' ' || edit == '-' || edit == '+')
      modifies this
      ensures Valid()
      ensures edit == '-' ==> Lines() == old(hunk + hunk_removes) + [Line('-', line)] + old(hunk_adds)
      ensures edit != '-' ==> Lines() == old(Lines()) + [Line(edit, line)]
      ensures hunk == if edit == ' ' then Lines() else old(hunk)
      ensures hunk_adds ==
        if edit == ' ' then [] else if edit == '+' then old(hunk_adds) + [Line('+', line)] else old(hunk_adds)
      ensures HasEdits() <==> old(HasEdits()) || edit != ' '
      ensures LeftSide(Lines()) == old(LeftSide(Lines())) + if edit == '+' then [] else [line]
      ensures RightSide(Lines()) == old(RightSide(Lines())) + if edit == '-' then [] else [line]
    {
      hide LeftSide, RightSide, Count;
      ghost var before := Lines();
      Appended(before, Line(edit, line));
      match edit
      case ' ' =>
        common := common + 1;
        FlushEdits();
        hunk := hunk + [Line(' ', line)];
        assert Lines() == before + [Line(' ', line)];
      case '-' =>
        RemoveBeforeAdds(hunk + hunk_removes, line, hunk_adds);
        CountInserted(hunk + hunk_removes, Line('-', line), hunk_adds, '-');
        CountInserted(hunk + hunk_removes, Line('-', line), hunk_adds, '+');
        removes := removes + 1;
        hunk_removes := hunk_removes + [Line('-', line)];
        assert Lines() == old(hunk + hunk_removes) + [Line('-', line)] + hunk_adds;
      case '+' =>
        adds := adds + 1;
        hunk_adds := hunk_adds + [Line('+', line)];
        assert Lines() == before + [Line('+', line)];
      case _ =>
        assert false;
    }

    /** A header part appears exactly when the hunk removes, or adds, something. */
    function PrintHeader(): (Option<Range>, Option<Range>)
      reads this
    {
      (if removes > 0 then Some(Range(left_start, removes + common)) else None,
       if adds > 0 then Some(Range(right_start, adds + common)) else None)
    }

    method PrintTo() returns (p: Printed)
      requires Valid()
      modifies this
      ensures p.body == old(Lines()) == Lines()
      ensures Grouped(p.body)
      ensures p.minus == if Count(p.body, '-') > 0 then Some(Range(left_start, |LeftSide(p.body)|)) else None
      ensures p.plus == if Count(p.body, '+') > 0 then Some(Range(right_start, |RightSide(p.body)|)) else None
    {
      var header := PrintHeader();
      FlushEdits();
      p := Printed(header.0, header.1, hunk);
    }

    predicate HasEdits()
      reads this
    {
      adds > 0 || removes > 0
    }

    method FlushEdits()
      requires Grouped(hunk) && (|hunk| > 0 ==> hunk[|hunk| - 1].tag == ' ')
      requires forall i :: 0 <= i < |hunk_adds| ==> hunk_adds[i].tag == '+'
      requires forall i :: 0 <= i < |hunk_removes| ==> hunk_removes[i].tag == '-'
      modifies this`hunk, this`hunk_adds, this`hunk_removes
      ensures hunk == old(Lines()) && hunk_adds == hunk_removes == []
      ensures Grouped(hunk)
    {
      hunk, hunk_removes := hunk + hunk_removes, [];
      hunk, hunk_adds := hunk + hunk_adds, [];
    }
  }

  // ---------- CreateUnifiedDiff ----------

  predicate Matches(edits: seq<EditType>, from: nat, to: nat) {
    forall k :: from <= k < to && k < |edits| ==> edits[k] == Match
  }

  function Min(a: nat, b: nat): nat {
    if a <= b then a else b
  }

  /** The hunk starts with exactly n common lines, followed by an edit if by anything. */
  ghost predicate LeadBy(hunk: Hunk, n: nat)
    reads hunk
  {
    && n <= |hunk.hunk|
    && (forall i :: 0 <= i < n ==> hunk.hunk[i].tag == ' ')
    && (n < |hunk.Lines()| ==> hunk.Lines()[n].tag != ' ')
  }

  /** Over the matches to the first move that changes something. */
  method FirstEdit(edits: seq<EditType>, ghost left: seq<string>, ghost right: seq<string>, k: nat, l: nat, r: nat)
    returns (edit_i: nat, l_i: nat, r_i: nat)
    requires ValidScript(edits, left, right) && At(edits, left, right, k, l, r)
    ensures k <= edit_i && At(edits, left, right, edit_i, l_i, r_i)
    ensures l_i == l + (edit_i - k) && r_i == r + (edit_i - k) && left[l..l_i] == right[r..r_i]
    ensures Matches(edits, k, edit_i) && (edit_i < |edits| ==> edits[edit_i] != Match)
  {
    edit_i, l_i, r_i := k, l, r;
    while edit_i < |edits| && edits[edit_i] == Match
      invariant k <= edit_i && At(edits, left, right, edit_i, l_i, r_i)
      invariant l_i == l + (edit_i - k) && r_i == r + (edit_i - k) && left[l..l_i] == right[r..r_i]
      invariant Matches(edits, k, edit_i)
    {
      Advance(edits, left, right, edit_i, l_i, r_i);
      assert left[l..l_i + 1] == left[l..l_i] + [left[l_i]] && right[r..r_i + 1] == right[r..r_i] + [right[r_i]];
      l_i := l_i + 1;
      r_i := r_i + 1;
      edit_i := edit_i + 1;
    }
  }

  function Common(texts: seq<string>): (body: seq<Line>)
    ensures |body| == |texts| && forall i :: 0 <= i < |texts| ==> body[i] == Line(' ', texts[i])
  {
    seq(|texts|, i requires 0 <= i < |texts| => Line(' ', texts[i]))
  }

  lemma {:induction false} CommonSides(texts: seq<string>, context: nat)
    ensures LeftSide(Common(texts)) == RightSide(Common(texts)) == texts
    ensures Tight(Common(texts), context)
  {
    if |texts| > 0 {
      CommonSides(texts[..|texts| - 1], context);
      assert Common(texts)[..|texts| - 1] == Common(texts[..|texts| - 1]);
    }
  }

  lemma NothingCommon(texts: seq<string>)
    ensures |texts| == 0 ==> Common(texts) == []
  {
  }

  lemma {:induction false} CommonTells(texts: seq<string>, edits: seq<EditType>)
    requires |edits| == |texts| && forall k :: 0 <= k < |edits| ==> edits[k] == Match
    ensures Tells(Common(texts), edits)
  {
    if |texts| > 0 {
      CommonTells(texts[..|texts| - 1], edits[..|edits| - 1]);
      assert Common(texts)[..|texts| - 1] == Common(texts[..|texts| - 1]);
    }
  }

  /** Common lines tell a run of matches inside a script. */
  lemma MatchesTold(texts: seq<string>, edits: seq<EditType>, from: nat, to: nat)
    requires from <= to <= |edits| && |texts| == to - from && Matches(edits, from, to)
    ensures Tells(Common(texts), edits[from..to])
  {
    CommonTells(texts, edits[from..to]);
  }

  lemma CommonGrown(left: seq<string>, from: nat, at: nat)
    requires from <= at < |left|
    ensures Common(left[from..at + 1]) == Common(left[from..at]) + [Line(' ', left[at])]
  {
  }

  /** What a hunk in the making holds of the two files. */
  ghost predicate Holds(hunk: Hunk, leftSide: seq<string>, rightSide: seq<string>, context: nat, n: nat, edited: bool)
    reads hunk
  {
    && hunk.Valid() && LeadBy(hunk, n) && Tight(hunk.Lines(), context)
    && LeftSide(hunk.Lines()) == leftSide && RightSide(hunk.Lines()) == rightSide
    && (hunk.HasEdits() <==> edited)
    && if edited then n < |hunk.Lines()| else n == |hunk.Lines()|
  }

  lemma HoldsEdits(hunk: Hunk, leftSide: seq<string>, rightSide: seq<string>, context: nat, n: nat, edited: bool)
    requires Holds(hunk, leftSide, rightSide, context, n, edited)
    ensures hunk.HasEdits() <==> edited
  {
  }

  lemma OpenedHolds(hunk: Hunk, texts: seq<string>, context: nat)
    requires hunk.Valid() && !hunk.HasEdits() && hunk.Lines() == hunk.hunk == Common(texts)
    ensures Holds(hunk, texts, texts, context, |texts|, false)
  {
    CommonSides(texts, context);
  }

  /** A hunk that holds the common lines before its first edit. */
  method OpenHunk(left: seq<string>, l_i: nat, r_i: nat, context: nat) returns (hunk: Hunk)
    requires l_i <= |left| && Min(l_i, context) <= r_i
    ensures fresh(hunk)
    ensures var n := Min(l_i, context);
      && hunk.left_start == l_i - n + 1 && hunk.right_start == r_i - n + 1
      && hunk.Lines() == Common(left[l_i - n..l_i])
      && Holds(hunk, left[l_i - n..l_i], left[l_i - n..l_i], context, n, false)
  {
    hide LeftSide, RightSide, Count, Grouped, Hunk.Valid, Hunk.HasEdits, Hunk.Lines, LeadBy, Holds, Edited, Tight,
      Trailing, Common;
    var prefix_context := Min(l_i, context);
    ghost var from := l_i - prefix_context;
    NothingCommon(left[from..from]);
    hunk := new Hunk(l_i - prefix_context + 1, r_i - prefix_context + 1);
    var i := prefix_context;
    while i > 0
      invariant 0 <= i <= prefix_context
      invariant fresh(hunk) && hunk.Valid() && !hunk.HasEdits()
      invariant hunk.Lines() == hunk.hunk == Common(left[from..l_i - i])
    {
      CommonGrown(left, from, l_i - i);
      hunk.PushLine(' ', left[l_i - i]);
      i := i - 1;
    }
    OpenedHolds(hunk, left[from..l_i], context);
  }

  lemma AddsTagged(hunk: Hunk)
    requires hunk.Valid()
    ensures Edited(hunk.Lines()) <==> hunk.HasEdits()
    ensures forall i :: 0 <= i < |hunk.hunk_adds| ==> hunk.hunk_adds[i].tag == '+'
  {
  }

  lemma InsertedAt<T>(a: seq<T>, x: T, b: seq<T>, n: nat)
    requires n <= |a| + |b|
    ensures n <= |a| ==> (a + [x] + b)[n] == if n < |a| then (a + b)[n] else x
    ensures n > |a| ==> (a + [x] + b)[n] == (a + b)[n - 1]
  {
  }

  lemma NothingBehind<T>(a: seq<T>, x: T)
    ensures a + [] == a && a + [x] + [] == a + [x]
  {
  }

  method PushTagged(hunk: Hunk, tag: char, text: string,
        ghost leftSide: seq<string>, ghost rightSide: seq<string>, ghost context: nat, ghost n: nat, ghost edited: bool)
    requires context > 0 && Holds(hunk, leftSide, rightSide, context, n, edited)
    requires if tag == ' ' then edited else tag == '-' || tag == '+'
    requires tag != ' ' && edited ==> Trailing(hunk.Lines()) < 2 * context
    modifies hunk
    ensures Holds(hunk, leftSide + if tag == '+' then [] else [text],
      rightSide + if tag == '-' then [] else [text], context, n, true)
    ensures Trailing(hunk.Lines()) == if tag == ' ' then old(Trailing(hunk.Lines())) + 1 else 0
    ensures Kept(hunk.Lines(), '+') == old(Kept(hunk.Lines(), '+')) + if tag == '+' then "" else [tag]
    ensures Kept(hunk.Lines(), '-') == old(Kept(hunk.Lines(), '-')) + if tag == '-' then "" else [tag]
  {
    hide LeftSide, RightSide, Count, Tight, Trailing, Grouped, Hunk.Valid, Hunk.HasEdits, Kept;
    AddsTagged(hunk);
    if tag != '-' {
      KeptAppended(hunk.Lines(), Line(tag, text));
    }
    if tag == ' ' {
      CommonPushed(hunk.Lines(), text, context);
    } else if tag == '-' {
      ghost var a, b := hunk.hunk + hunk.hunk_removes, hunk.hunk_adds;
      KeptPushed(a, Line('-', text), b);
      EditPushed(a, Line('-', text), b, context);
      InsertedAt(a, Line('-', text), b, n);
    } else {
      ghost var lines := hunk.Lines();
      NothingBehind(lines, Line('+', text));
      EditPushed(lines, Line('+', text), [], context);
    }
    hunk.PushLine(tag, text);
  }

  /** The lines of one edit go into the hunk. */
  method PushEdit(hunk: Hunk, edit: EditType, left: seq<string>, right: seq<string>, l: nat, r: nat,
        ghost leftSide: seq<string>, ghost rightSide: seq<string>, ghost context: nat, ghost n: nat, ghost edited: bool,
        ghost told: seq<EditType>)
    requires context > 0 && Holds(hunk, leftSide, rightSide, context, n, edited)
    requires (edit != Add ==> l < |left|) && (edit != Remove ==> r < |right|) && (edit == Match ==> left[l] == right[r])
    requires if edit == Match then edited else edited ==> Trailing(hunk.Lines()) < 2 * context
    modifies hunk
    ensures Holds(hunk, leftSide + if edit == Add then [] else [left[l]],
      rightSide + if edit == Remove then [] else [right[r]], context, n, true)
    ensures Trailing(hunk.Lines()) == if edit == Match then old(Trailing(hunk.Lines())) + 1 else 0
    ensures old(Tells(hunk.Lines(), told)) ==> Tells(hunk.Lines(), told + [edit])
  {
    hide Holds, Trailing, Hunk.Lines, Kept, OldMoves, NewMoves;
    MovesConcat(told, [edit]);
    MovesOfOne(edit);
    ghost var inRight := rightSide + if edit == Match then [right[r]] else [];
    if edit == Match || edit == Remove || edit == Replace {
      PushTagged(hunk, if edit == Match then ' ' else '-', left[l], leftSide, rightSide, context, n, edited);
      assert rightSide + [] == rightSide;
    }
    if edit == Add || edit == Replace {
      ghost var inLeft := leftSide + if edit == Replace then [left[l]] else [];
      assert leftSide + [] == leftSide && inLeft + [] == inLeft;
      PushTagged(hunk, '+', right[r], inLeft, rightSide, context, n, edited || edit == Replace);
    }
  }

  method NextEdit(edits: seq<EditType>, edit_i: nat) returns (it: nat)
    requires edit_i <= |edits|
    ensures edit_i <= it <= |edits| && Matches(edits, edit_i, it) && (it < |edits| ==> edits[it] != Match)
  {
    it := edit_i;
    while it < |edits| && edits[it] == Match
      invariant edit_i <= it <= |edits| && Matches(edits, edit_i, it)
    {
      it := it + 1;
    }
  }

  lemma Grown(side: seq<string>, file: seq<string>, from: nat, at: nat, taken: bool)
    requires from <= at <= |file| && (taken ==> at < |file|)
    ensures side + file[from..if taken then at + 1 else at] == side + file[from..at] + if taken then [file[at]] else []
  {
  }

  /** More than `context` common lines go into the hunk only on the way to a next edit that is close. */
  ghost predicate Closing(edits: seq<EditType>, k: nat, next: nat, n_suffix: nat, context: nat) {
    n_suffix > context ==>
      k <= next < |edits| && edits[next] != Match && Matches(edits, k, next) && n_suffix + (next - k) < 2 * context
  }

  /** Enough suffix and no close edit: exactly `context` lines of suffix, and as many common lines ahead. */
  lemma ClosingStops(edits: seq<EditType>, k: nat, next: nat, it: nat, n_suffix: nat, context: nat)
    requires Closing(edits, k, next, n_suffix, context) && n_suffix >= context && k <= it <= |edits|
    requires Matches(edits, k, it) && (it == |edits| || (edits[it] != Match && it - k >= context))
    ensures n_suffix == context && Matches(edits, k, k + context)
  {
  }

  /** A close edit keeps the hunk open, and an edit is only ever pushed after few common lines. */
  lemma ClosingGoesOn(edits: seq<EditType>, k: nat, next: nat, it: nat, n_suffix: nat, context: nat)
    requires Closing(edits, k, next, n_suffix, context) && n_suffix >= context && k <= it < |edits|
    requires Matches(edits, k, it) && edits[it] != Match && it - k < context
    ensures edits[k] != Match ==> n_suffix < 2 * context
    ensures edits[k] == Match ==> Closing(edits, k + 1, it, n_suffix + 1, context)
    ensures edits[k] != Match ==> Closing(edits, k + 1, it, 0, context)
  {
  }

  /** Iterate the edits until enough suffix for the hunk is found or the input is over. */
  method ExtendHunk(hunk: Hunk, edits: seq<EditType>, left: seq<string>, right: seq<string>, context: nat, k: nat,
      l: nat, r: nat,
        ghost leftSide: seq<string>, ghost rightSide: seq<string>, ghost n: nat, ghost from: nat)
    returns (edit_i: nat, l_i: nat, r_i: nat)
    requires ValidScript(edits, left, right) && At(edits, left, right, k, l, r) && (k < |edits| ==> edits[k] != Match)
    requires Holds(hunk, leftSide, rightSide, context, n, false)
    requires from <= k && (k < |edits| ==> Tells(hunk.Lines(), edits[from..k]))
    modifies hunk
    ensures k <= edit_i && At(edits, left, right, edit_i, l_i, r_i) && l <= l_i && r <= r_i
    ensures Holds(hunk, leftSide + left[l..l_i], rightSide + right[r..r_i], context, n, context > 0 && k < |edits|)
    ensures k < edit_i <==> context > 0 && k < |edits|
    ensures k == edit_i ==> l_i == l && r_i == r
    ensures k < |edits| ==> edit_i <= |edits| && Tells(hunk.Lines(), edits[from..edit_i])
    ensures k < edit_i ==> Trailing(hunk.Lines()) <= context
    ensures k < edit_i < |edits| ==>
      Trailing(hunk.Lines()) == context && l_i >= context && r_i >= context && Matches(edits, edit_i, edit_i + context)
  {
    hide ValidScript, LeftUsed, RightUsed, LeftSide, RightSide, Count, Tight, Trailing, Hunk.Valid, Hunk.HasEdits,
      LeadBy, Holds, Matches, At, Tells;
    AtWithin(edits, left, right, k, l, r);
    edit_i, l_i, r_i := k, l, r;
    assert leftSide + left[l..l] == leftSide && rightSide + right[r..r] == rightSide;
    var n_suffix: nat := 0;
    ghost var next: nat := k;
    while edit_i < |edits|
      invariant k <= edit_i <= |edits| && l <= l_i <= |left| && r <= r_i <= |right|
        && At(edits, left, right, edit_i, l_i, r_i)
      invariant n_suffix <= l_i - l && n_suffix <= r_i - r
      invariant Holds(hunk, leftSide + left[l..l_i], rightSide + right[r..r_i], context, n, k < edit_i)
      invariant k < |edits| ==> Tells(hunk.Lines(), edits[from..edit_i])
      invariant context == 0 ==> edit_i == k
      invariant k == edit_i ==> l_i == l && r_i == r
      invariant if k < edit_i then Trailing(hunk.Lines()) == n_suffix else n_suffix == 0
      invariant Closing(edits, edit_i, next, n_suffix, context)
      invariant n_suffix > context ==> edit_i < |edits|
    {
      if n_suffix >= context {
        // enough common lines: go on only for an edit within reach
        var it := NextEdit(edits, edit_i);
        if it == |edits| || it - edit_i >= context {
          ClosingStops(edits, edit_i, next, it, n_suffix, context);
          break;
        }
        ClosingGoesOn(edits, edit_i, next, it, n_suffix, context);
        next := it;
      }
      var edit := edits[edit_i];
      AdvanceBounds(edits, left, right, edit_i, l_i, r_i);
      PushEdit(hunk, edit, left, right, l_i, r_i, leftSide + left[l..l_i], rightSide + right[r..r_i], context, n,
        k < edit_i, edits[from..edit_i]);
      assert edits[from..edit_i + 1] == edits[from..edit_i] + [edit];
      n_suffix := if edit == Match then n_suffix + 1 else 0;
      Grown(leftSide, left, l, l_i, edit != Add);
      Grown(rightSide, right, r, r_i, edit != Remove);
      l_i := if edit != Add then l_i + 1 else l_i;
      r_i := if edit != Remove then r_i + 1 else r_i;
      edit_i := edit_i + 1;
      AtWithin(edits, left, right, edit_i, l_i, r_i);
    }
  }

  /** The first line the hunk's header names. */
  function Start(h: Printed): nat {
    if h.minus.Some? then h.minus.value.start else if h.plus.Some? then h.plus.value.start else 0
  }

  /**
    Removed lines come before added ones; exactly `context` common lines lead and trail, fewer
    only where the file begins or ends; and edits share a hunk only when close.
   */
  ghost predicate WellShaped(h: Printed, context: nat, first: bool, last: bool) {
    && Grouped(h.body) && Edited(h.body) && Tight(h.body, context)
    && Leading(h.body) <= context && (Leading(h.body) == context || (first && Start(h) == 1))
    && Trailing(h.body) <= context && (Trailing(h.body) == context || last)
  }

  /** A hunk that says what left and right hold from a common position on carries the patch over it. */
  lemma HunkApplies(h: Printed, left: seq<string>, right: seq<string>, lp: nat, rp: nat, l0: nat, r0: nat, l1: nat,
      r1: nat)
    requires lp <= l0 <= l1 <= |left| && rp <= r0 <= r1 <= |right| && l0 - lp == r0 - rp
      && left[lp..l0] == right[rp..r0]
    requires LeftSide(h.body) == left[l0..l1] && RightSide(h.body) == right[r0..r1] && Edited(h.body)
    requires h.minus == if Count(h.body, '-') > 0 then Some(Range(l0 + 1, l1 - l0)) else None
    requires h.plus == if Count(h.body, '+') > 0 then Some(Range(r0 + 1, r1 - r0)) else None
    ensures ApplyHunk(h, left, Position(lp, right[..rp])) == Some(Position(l1, right[..r1]))
    ensures Skip(h, Position(lp, right[..rp])) == l0 - lp
  {
    hide LeftSide, RightSide, Count;
    assert right[..r1] == right[..rp] + right[rp..r0] + right[r0..r1];
  }

  /** When the rest is the same on both sides the patch is done. */
  lemma Patched(hunks: seq<Printed>, left: seq<string>, right: seq<string>, l: nat, r: nat)
    requires l <= |left| && r <= |right| && Apply(hunks, left) == Some(Position(l, right[..r]))
      && left[l..] == right[r..]
    ensures Patch(hunks, left) == Some(right)
  {
    assert right == right[..r] + right[r..];
  }

  lemma Unpatched(left: seq<string>)
    ensures Patch([], left) == Some(left)
  {
    assert [] + left[0..] == left;
  }

  lemma ApplyMore(hunks: seq<Printed>, h: Printed, left: seq<string>)
    requires Apply(hunks, left).Some?
    ensures Apply(hunks + [h], left) == ApplyHunk(h, left, Apply(hunks, left).value)
  {
    assert (hunks + [h])[..|hunks|] == hunks;
  }

  /** The common lines before a hunk lie after the hunk before it. */
  predicate Apart(edits: seq<EditType>, context: nat, k: nat, l: nat, r: nat) {
    (k == l == r == 0) || k == |edits| || (l >= context && r >= context && Matches(edits, k, k + context))
  }

  /** The hunk printed: what it holds, under a header that counts it. */
  method PrintHunk(hunk: Hunk, ghost leftSide: seq<string>, ghost rightSide: seq<string>, ghost context: nat,
      ghost n: nat) returns (h: Printed)
    requires Holds(hunk, leftSide, rightSide, context, n, true)
    modifies hunk
    ensures h.body == old(hunk.Lines())
    ensures LeftSide(h.body) == leftSide && RightSide(h.body) == rightSide
    ensures h.minus == if Count(h.body, '-') > 0 then Some(Range(hunk.left_start, |leftSide|)) else None
    ensures h.plus == if Count(h.body, '+') > 0 then Some(Range(hunk.right_start, |rightSide|)) else None
    ensures Grouped(h.body) && Edited(h.body) && Tight(h.body, context)
    ensures Leading(h.body) == n && Trailing(h.body) == old(Trailing(hunk.Lines()))
  {
    hide LeftSide, RightSide, Count, Tight, Trailing, Leading, Grouped;
    LeadingCommon(hunk.Lines(), n);
    h := hunk.PrintTo();
  }

  /** The hunk's lines on both sides, when its leading lines lie in the common lines before it. */
  lemma SidesJoined(left: seq<string>, right: seq<string>, l: nat, r: nat, ls: nat, rs: nat, n: nat, l_i: nat, r_i: nat)
    requires l <= ls <= l_i <= |left| && r <= rs <= r_i <= |right| && ls - l == rs - r >= n
      && left[l..ls] == right[r..rs]
    ensures left[ls - n..ls] + left[ls..l_i] == left[ls - n..l_i]
    ensures left[ls - n..ls] + right[rs..r_i] == right[rs - n..r_i]
    ensures left[l..ls - n] == right[r..rs - n]
  {
    assert left[l..ls][ls - l - n..] == left[ls - n..ls] && left[l..ls][..ls - l - n] == left[l..ls - n];
    assert right[r..rs][rs - r - n..] == right[rs - n..rs] && right[r..rs][..rs - r - n] == right[r..rs - n];
  }

  /** Where the next hunk starts there is room for its leading lines on both sides. */
  lemma RoomForContext(edits: seq<EditType>, context: nat, k: nat, l: nat, r: nat, edit_i: nat)
    requires Apart(edits, context, k, l, r) && k <= edit_i <= |edits| && k < |edits|
    requires Matches(edits, k, edit_i) && (edit_i < |edits| ==> edits[edit_i] != Match)
    ensures Min(l + edit_i - k, context) <= r + edit_i - k
    ensures edit_i < |edits| ==> Min(l + edit_i - k, context) <= edit_i - k
    ensures edit_i < |edits| && k > 0 ==> Min(l + edit_i - k, context) == context
  {
  }

  /** A finished hunk, printed, carries the patch from the end of the last hunk to its own end. */
  method FinishHunk(hunk: Hunk, ghost left: seq<string>, ghost right: seq<string>, ghost context: nat, ghost n: nat,
        ghost l: nat, ghost r: nat, ghost l0: nat, ghost r0: nat, ghost l1: nat, ghost r1: nat)
    returns (h: Printed)
    requires l <= l0 <= l1 <= |left| && r <= r0 <= r1 <= |right| && l0 - l == r0 - r && left[l..l0] == right[r..r0]
    requires Holds(hunk, left[l0..l1], right[r0..r1], context, n, true)
    requires hunk.left_start == l0 + 1 && hunk.right_start == r0 + 1
    modifies hunk
    ensures h.body == old(hunk.Lines())
    ensures ApplyHunk(h, left, Position(l, right[..r])) == Some(Position(l1, right[..r1]))
    ensures Skip(h, Position(l, right[..r])) == l0 - l
    ensures Grouped(h.body) && Edited(h.body) && Tight(h.body, context)
    ensures Leading(h.body) == n && Trailing(h.body) == old(Trailing(hunk.Lines()))
    ensures l0 == r0 ==> Start(h) == l0 + 1
  {
    hide Holds, Grouped, LeftSide, RightSide, Count, Tight, Leading, Trailing, ApplyHunk;
    h := PrintHunk(hunk, left[l0..l1], right[r0..r1], context, n);
    HunkApplies(h, left, right, l, r, l0, r0, l1, r1);
  }

  lemma ApartAfter(edits: seq<EditType>, context: nat, k: nat, l: nat, r: nat)
    requires k == |edits| || context == 0 || (l >= context && r >= context && Matches(edits, k, k + context))
    ensures Apart(edits, context, k, l, r)
  {
  }

  lemma SameToTheEnd(left: seq<string>, right: seq<string>, l: nat, r: nat)
    requires l <= |left| && r <= |right| && left[l..|left|] == right[r..|right|]
    ensures left[l..] == right[r..]
  {
    assert left[l..] == left[l..|left|] && right[r..] == right[r..|right|];
  }

  /** The lines skipped before a hunk and the hunk's leading lines tell the matches they stand for. */
  lemma LeadTold(left: seq<string>, edits: seq<EditType>, k: nat, start: nat, from: nat, l: nat, ls: nat, n: nat)
    requires k <= from <= start <= |edits| && Matches(edits, k, start) && n == start - from
    requires l <= ls <= |left| && ls - l == start - k
    ensures Tells(Common(left[l..ls - n]), edits[k..from])
    ensures Tells(Common(left[ls - n..ls]), edits[from..start])
  {
    MatchesTold(left[l..ls - n], edits, k, from);
    MatchesTold(left[ls - n..ls], edits, from, start);
  }

  /** Behind the last hunk there are matches only. */
  lemma RestTold(left: seq<string>, edits: seq<EditType>, k: nat, l: nat)
    requires k <= |edits| && l <= |left| && |left| - l == |edits| - k && Matches(edits, k, |edits|)
    ensures Tells(Common(left[l..]), edits[k..])
  {
    MatchesTold(left[l..], edits, k, |edits|);
    assert edits[k..|edits|] == edits[k..];
  }

  /** One hunk, printed, from the end of the last hunk on; None when no edit is left for it. */
  method NextHunk(edits: seq<EditType>, left: seq<string>, right: seq<string>, context: nat, k: nat, l: nat, r: nat)
    returns (h: Option<Printed>, edit_i: nat, l_i: nat, r_i: nat)
    requires ValidScript(edits, left, right) && At(edits, left, right, k, l, r) && Apart(edits, context, k, l, r)
    requires k < |edits|
    ensures k <= edit_i && At(edits, left, right, edit_i, l_i, r_i) && Apart(edits, context, edit_i, l_i, r_i)
    ensures h.Some? ==> k < edit_i && context > 0
    ensures h.Some? ==> ApplyHunk(h.value, left, Position(l, right[..r])) == Some(Position(l_i, right[..r_i]))
    ensures h.Some? ==> edit_i <= |edits| && Tells(Passed(h.value, left, Position(l, right[..r])), edits[k..edit_i])
    ensures h.Some? ==> WellShaped(h.value, context, k == 0, edit_i == |edits|)
    ensures h.None? && context > 0 ==> edit_i == |edits| && left[l..] == right[r..]
    ensures h.None? && context > 0 ==> Tells(Common(left[l..]), edits[k..])
  {
    hide ValidScript, LeftUsed, RightUsed, At, Apart, Holds, Matches, Grouped, Edited, Start, LeftSide, RightSide,
      Count, Tight, Leading, Trailing, ApplyHunk, Hunk.Lines, Hunk.HasEdits, Hunk.Valid, LeadBy, Tells, Skip, Common;
    AtWithin(edits, left, right, k, l, r);
    edit_i, l_i, r_i := FirstEdit(edits, left, right, k, l, r);
    AtWithin(edits, left, right, edit_i, l_i, r_i);
    RoomForContext(edits, context, k, l, r, edit_i);
    var hunk := OpenHunk(left, l_i, r_i, context);
    ghost var n, start, ls, rs := Min(l_i, context), edit_i, l_i, r_i;
    ghost var from := if start < |edits| then start - n else start;
    if start < |edits| {
      LeadTold(left, edits, k, start, from, l, ls, n);
    }
    edit_i, l_i, r_i := ExtendHunk(hunk, edits, left, right, context, edit_i, l_i, r_i, left[ls - n..ls],
      left[ls - n..ls], n, from);
    AtWithin(edits, left, right, edit_i, l_i, r_i);
    ApartAfter(edits, context, edit_i, l_i, r_i);
    HoldsEdits(hunk, left[ls - n..ls] + left[ls..l_i], left[ls - n..ls] + right[rs..r_i], context, n,
      context > 0 && start < |edits|);
    if !hunk.HasEdits() {
      // only matches were left, so there is nothing to print
      h := None;
      if context > 0 {
        AtEnd(edits, left, right, l_i, r_i);
        SameToTheEnd(left, right, l, r);
        RestTold(left, edits, k, l);
      }
    } else {
      SidesJoined(left, right, l, r, ls, rs, n, l_i, r_i);
      var printed := FinishHunk(hunk, left, right, context, n, l, r, ls - n, rs - n, l_i, r_i);
      TellsOn(Common(left[l..ls - n]), printed.body, edits, k, from, edit_i);
      h := Some(printed);
    }
  }

  ghost predicate AllShaped(hunks: seq<Printed>, context: nat, finished: bool) {
    forall i :: 0 <= i < |hunks| ==> WellShaped(hunks[i], context, i == 0, finished && i == |hunks| - 1)
  }

  lemma ShapedThenMore(hunks: seq<Printed>, h: Printed, context: nat, finished: bool)
    requires AllShaped(hunks, context, false) && WellShaped(h, context, hunks == [], finished)
    ensures AllShaped(hunks + [h], context, finished)
  {
    hide Tight, Leading, Trailing, Grouped, Edited, Start;
  }

  lemma DiffStarts(edits: seq<EditType>, left: seq<string>, right: seq<string>, context: nat)
    ensures At(edits, left, right, 0, 0, 0) && Apart(edits, context, 0, 0, 0)
    ensures Apply([], left) == Some(Position(0, right[..0])) && AllShaped([], context, |edits| == 0)
    ensures Tells(PassedBy([], left), edits[0..0])
  {
  }

  lemma ShapedAtEnd(hunks: seq<Printed>, context: nat)
    requires AllShaped(hunks, context, false)
    ensures AllShaped(hunks, context, true)
  {
  }

  /** One more hunk tells the edits up to its own end. */
  lemma PassedTells(hunks: seq<Printed>, h: Printed, left: seq<string>, edits: seq<EditType>, k: nat, to: nat)
    requires Apply(hunks, left).Some? && ApplyHunk(h, left, Apply(hunks, left).value).Some? && k <= to <= |edits|
    requires Tells(PassedBy(hunks, left), edits[0..k])
    requires Tells(Passed(h, left, Apply(hunks, left).value), edits[k..to])
    ensures Apply(hunks + [h], left).Some? && Tells(PassedBy(hunks + [h], left), edits[0..to])
  {
    hide Tells, Passed, ApplyHunk;
    ApplyMore(hunks, h, left);
    assert (hunks + [h])[..|hunks|] == hunks;
    TellsOn(PassedBy(hunks, left), Passed(h, left, Apply(hunks, left).value), edits, 0, k, to);
  }

  lemma ListingTells(hunks: seq<Printed>, left: seq<string>, edits: seq<EditType>, k: nat)
    requires Apply(hunks, left).Some? && k <= |edits| && Tells(PassedBy(hunks, left), edits[0..k])
    requires Tells(Common(left[Apply(hunks, left).value.used..]), edits[k..])
    ensures Tells(Listing(hunks, left), edits)
  {
    hide Tells, PassedBy, Apply;
    var rest := Common(left[Apply(hunks, left).value.used..]);
    assert edits[k..] == edits[k..|edits|] && edits == edits[0..|edits|];
    TellsOn(PassedBy(hunks, left), rest, edits, 0, k, |edits|);
  }

  /**
    The hunks of the unified diff of two files. For context >= 1 they patch left into right;
    without context nothing is printed, so the patch is right only for equal files.
   */
  method CreateUnifiedDiff(left: seq<string>, right: seq<string>, context: nat) returns (hunks: seq<Printed>)
    ensures Patch(hunks, left) == Some(right) <==> context >= 1 || left == right
    ensures context == 0 ==> hunks == []
    ensures AllShaped(hunks, context, true)
    ensures context >= 1 ==>
      Apply(hunks, left).Some? && Tells(Listing(hunks, left), PathTo(left, right, |left|, |right|))
  {
    hide ValidScript, LeftUsed, RightUsed, At, Apart, WellShaped, ApplyHunk, Apply, Patch, AllShaped, PathTo, CellAt,
      Cost, Tells, PassedBy;
    var edits := CalculateOptimalEdits(left, right);
    DiffStarts(edits, left, right, context);
    var l_i: nat, r_i: nat, edit_i: nat := 0, 0, 0;
    hunks := [];
    while edit_i < |edits|
      invariant At(edits, left, right, edit_i, l_i, r_i)
      invariant Apart(edits, context, edit_i, l_i, r_i)
      invariant edit_i == 0 <==> hunks == []
      invariant context == 0 ==> hunks == []
      invariant edit_i <= |edits| && l_i <= |left| && r_i <= |right|
        && Apply(hunks, left) == Some(Position(l_i, right[..r_i]))
      invariant AllShaped(hunks, context, edit_i == |edits|)
      invariant Tells(PassedBy(hunks, left), edits[0..edit_i])
    {
      var h, edit_i', l_i', r_i' := NextHunk(edits, left, right, context, edit_i, l_i, r_i);
      if h.None? {
        ShapedAtEnd(hunks, context);
        if context > 0 {
          Patched(hunks, left, right, l_i, r_i);
          ListingTells(hunks, left, edits, edit_i);
        } else {
          Unpatched(left);
        }
        return;
      }
      ApplyMore(hunks, h.value, left);
      PassedTells(hunks, h.value, left, edits, edit_i, edit_i');
      ShapedThenMore(hunks, h.value, context, edit_i' == |edits|);
      hunks := hunks + [h.value];
      edit_i, l_i, r_i := edit_i', l_i', r_i';
      AtWithin(edits, left, right, edit_i, l_i, r_i);
    }
    AtEnd(edits, left, right, l_i, r_i);
    Patched(hunks, left, right, l_i, r_i);
    RestTold(left, edits, edit_i, l_i);
    ListingTells(hunks, left, edits, edit_i);
  }
}