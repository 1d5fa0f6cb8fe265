/**
  What the printed hunks say of the script behind them: with the lines between them put back they
  are the one listing of the script in which removals come before additions, so they change as many
  lines as the script does; and when a diff of fewer lines exists.
 */
module DiffListing {
  import opened Wrappers
  import opened EditDistance
  import opened UnifiedDiff

  /** What is known of the hunks made for two files. */
  ghost predicate DiffOf(hunks: seq<Printed>, left: seq<string>, right: seq<string>, context: nat) {
    && context >= 1
    && Patch(hunks, left) == Some(right) && AllShaped(hunks, context, true)
    && Apply(hunks, left).Some? && Tells(Listing(hunks, left), PathTo(left, right, |left|, |right|))
  }

  /** The result of the diff method is such a diff, and is empty only for equal files. */
  method Diff(left: seq<string>, right: seq<string>, context: nat) returns (hunks: seq<Printed>)
    requires context >= 1
    ensures DiffOf(hunks, left, right, context)
    ensures hunks == [] <==> left == right
  {
    hide Patch, AllShaped, Apply, Tells, PathTo, Listing;
    hunks := CreateUnifiedDiff(left, right, context);
    NoHunksIff(hunks, left, right, context);
  }

  // ---------- the two sides of a listing ----------

  /** Read without its additions the listing is the left file, and without its removals the patched one. */
  lemma ListingSides(hunks: seq<Printed>, left: seq<string>)
    requires Apply(hunks, left).Some?
    ensures LeftSide(Listing(hunks, left)) == left
    ensures Some(RightSide(Listing(hunks, left))) == Patch(hunks, left)
  {
    hide LeftSide, RightSide, Apply, Tight, Common;
    var p := Apply(hunks, left).value;
    PassedSides(hunks, left);
    CommonSides(left[p.used..], 0);
    SidesConcat(PassedBy(hunks, left), Common(left[p.used..]));
    assert left[..p.used] + left[p.used..] == left;
  }

  lemma {:induction false} PassedSides(hunks: seq<Printed>, left: seq<string>)
    requires Apply(hunks, left).Some?
    ensures LeftSide(PassedBy(hunks, left)) == left[..Apply(hunks, left).value.used]
    ensures RightSide(PassedBy(hunks, left)) == Apply(hunks, left).value.output
  {
    hide LeftSide, RightSide, Tight, ApplyHunk, Passed;
    if |hunks| == 0 {
      NoSides();
    } else {
      var before, h := hunks[..|hunks| - 1], hunks[|hunks| - 1];
      var p := Apply(before, left).value;
      PassedSides(before, left);
      HunkSides(h, left, p);
      SidesConcat(PassedBy(before, left), Passed(h, left, p));
    }
  }

  lemma NoSides()
    ensures LeftSide([]) == [] && RightSide([]) == []
  {
  }

  lemma HunkSides(h: Printed, left: seq<string>, p: Position)
    requires p.used <= |left| && ApplyHunk(h, left, p).Some?
    ensures var next := ApplyHunk(h, left, p).value;
      && p.used <= next.used <= |left|
      && 0 <= Skip(h, p) <= |left| - p.used
      && left[..p.used] + LeftSide(Passed(h, left, p)) == left[..next.used]
      && p.output + RightSide(Passed(h, left, p)) == next.output
  {
    hide LeftSide, RightSide, Count, Skip, Tight, Common;
    var skipped := left[p.used..p.used + Skip(h, p)];
    CommonSides(skipped, 0);
    SidesConcat(Common(skipped), h.body);
  }

  // ---------- removals before additions, in the whole listing ----------

  lemma GroupedJoined(a: seq<Line>, b: seq<Line>)
    requires Grouped(a) && Grouped(b)
    requires |a| > 0 && |b| > 0 && a[|a| - 1].tag == '+' ==> b[0].tag != '-'
    ensures Grouped(a + b)
  {
  }

  ghost predicate EndsCommon(body: seq<Line>) {
    |body| > 0 ==> body[|body| - 1].tag == ' '
  }

  ghost predicate StartsCommon(body: seq<Line>) {
    |body| > 0 ==> body[0].tag == ' '
  }

  /** Every hunk but the first starts with common lines, and every one but the last ends with some. */
  lemma {:induction false} PassedGrouped(hunks: seq<Printed>, left: seq<string>, context: nat, finished: bool)
    requires Apply(hunks, left).Some? && AllShaped(hunks, context, finished) && context > 0
    ensures Grouped(PassedBy(hunks, left))
    ensures !finished ==> EndsCommon(PassedBy(hunks, left))
  {
    hide ApplyHunk, Tight, Edited, Start, Skip;
    if |hunks| > 0 {
      var n := |hunks| - 1;
      var before, h := hunks[..n], hunks[n];
      var p := Apply(before, left).value;
      assert AllShaped(before, context, false);
      PassedGrouped(before, left, context, false);
      assert WellShaped(h, context, n == 0, finished);
      hide AllShaped, Leading, Trailing;
      HunkSides(h, left, p);
      ShapedEnds(h, context, n == 0, finished);
      GroupedJoined(Common(left[p.used..p.used + Skip(h, p)]), h.body);
      GroupedJoined(PassedBy(before, left), Passed(h, left, p));
    }
  }

  lemma ShapedEnds(h: Printed, context: nat, first: bool, last: bool)
    requires WellShaped(h, context, first, last) && context > 0
    ensures Grouped(h.body) && |h.body| > 0
    ensures !first ==> StartsCommon(h.body)
    ensures !last ==> EndsCommon(h.body)
  {
    hide Tight, Grouped, Start;
  }

  lemma ListingGrouped(hunks: seq<Printed>, left: seq<string>, context: nat)
    requires Apply(hunks, left).Some? && AllShaped(hunks, context, true) && context > 0
    ensures Grouped(Listing(hunks, left))
  {
    hide AllShaped, PassedBy, Apply;
    PassedGrouped(hunks, left, context, true);
    GroupedJoined(PassedBy(hunks, left), Common(left[Apply(hunks, left).value.used..]));
  }

  // ---------- only one listing fits ----------

  /** Ahead of a closing removal there is no addition since the last common line. */
  lemma {:induction false} NoAddedBehind(b: seq<Line>)
    requires Grouped(b) && |b| > 0 && b[|b| - 1].tag == '-'
    ensures !EndsIn(Kept(b, '-'), '+')
  {
    var front := b[..|b| - 1];
    if |front| > 0 && front[|front| - 1].tag == '-' {
      NoAddedBehind(front);
    }
  }

  ghost predicate SameMoves(a: seq<Line>, b: seq<Line>) {
    Kept(a, '+') == Kept(b, '+') && Kept(a, '-') == Kept(b, '-')
  }

  lemma LastKept(a: seq<Line>)
    requires |a| > 0
    ensures var tag := a[|a| - 1].tag;
      && Kept(a, '+') == Kept(a[..|a| - 1], '+') + (if tag == '+' then "" else [tag])
      && Kept(a, '-') == Kept(a[..|a| - 1], '-') + (if tag == '-' then "" else [tag])
      && (tag != '+' ==> EndsIn(Kept(a, '+'), tag)) && (tag != '-' ==> EndsIn(Kept(a, '-'), tag))
  {
  }

  predicate EndsIn(tags: string, tag: char) {
    |tags| > 0 && tags[|tags| - 1] == tag
  }

  lemma NothingKept(b: seq<Line>)
    ensures |b| == 0 ==> Kept(b, '+') == Kept(b, '-') == ""
  {
  }

  lemma SameLastTag(a: seq<Line>, b: seq<Line>)
    requires Grouped(a) && Grouped(b) && SameMoves(a, b) && |a| > 0
    ensures |b| > 0 && a[|a| - 1].tag == b[|b| - 1].tag
  {
    hide Grouped, Kept;
    LastKept(a);
    NothingKept(b);
    if |b| > 0 {
      LastKept(b);
      if a[|a| - 1].tag == '-' {
        NoAddedBehind(a);
      }
      if b[|b| - 1].tag == '-' {
        NoAddedBehind(b);
      }
    }
  }

  /** Grouped lines with the same sides and the same moves are the same lines. */
  lemma {:induction false} ListingDetermined(a: seq<Line>, b: seq<Line>)
    requires Grouped(a) && Grouped(b) && SameMoves(a, b)
    requires LeftSide(a) == LeftSide(b) && RightSide(a) == RightSide(b)
    ensures a == b
  {
    hide Kept, LeftSide, RightSide;
    if |a| == 0 {
      if |b| > 0 {
        SameLastTag(b, a);
      }
    } else {
      SameLastTag(a, b);
      var a', b' := a[..|a| - 1], b[..|b| - 1];
      SameLastText(a, b);
      SameFrontMoves(a, b);
      ListingDetermined(a', b');
      assert a == a' + [a[|a| - 1]] && b == b' + [b[|b| - 1]];
    }
  }

  lemma SameFrontMoves(a: seq<Line>, b: seq<Line>)
    requires SameMoves(a, b) && |a| > 0 && |b| > 0 && a[|a| - 1].tag == b[|b| - 1].tag
    ensures SameMoves(a[..|a| - 1], b[..|b| - 1])
  {
    hide Kept;
    LastKept(a);
    LastKept(b);
    var a', b', tag := a[..|a| - 1], b[..|b| - 1], a[|a| - 1].tag;
    SameEnds(Kept(a', '+'), tag, Kept(b', '+'), tag, tag != '+');
    SameEnds(Kept(a', '-'), tag, Kept(b', '-'), tag, tag != '-');
  }

  lemma LastSides(a: seq<Line>)
    requires |a| > 0
    ensures LeftSide(a) == LeftSide(a[..|a| - 1]) + if a[|a| - 1].tag == '+' then [] else [a[|a| - 1].text]
    ensures RightSide(a) == RightSide(a[..|a| - 1]) + if a[|a| - 1].tag == '-' then [] else [a[|a| - 1].text]
  {
  }

  lemma SameLastText(a: seq<Line>, b: seq<Line>)
    requires |a| > 0 && |b| > 0 && a[|a| - 1].tag == b[|b| - 1].tag
    requires LeftSide(a) == LeftSide(b) && RightSide(a) == RightSide(b)
    ensures a[|a| - 1] == b[|b| - 1]
    ensures LeftSide(a[..|a| - 1]) == LeftSide(b[..|b| - 1]) && RightSide(a[..|a| - 1]) == RightSide(b[..|b| - 1])
  {
    hide LeftSide, RightSide;
    LastSides(a);
    LastSides(b);
    var tag, x, y := a[|a| - 1].tag, a[|a| - 1].text, b[|b| - 1].text;
    SameEnds(LeftSide(a[..|a| - 1]), x, LeftSide(b[..|b| - 1]), y, tag != '+');
    SameEnds(RightSide(a[..|a| - 1]), x, RightSide(b[..|b| - 1]), y, tag != '-');
  }

  lemma SameEnds<T>(a: seq<T>, x: T, b: seq<T>, y: T, there: bool)
    requires a + (if there then [x] else []) == b + (if there then [y] else [])
    ensures a == b && (there ==> x == y)
  {
    var p, q := a + (if there then [x] else []), b + (if there then [y] else []);
    assert |a| == |b| && p[..|a|] == a && q[..|b|] == b;
    assert there ==> p[|a|] == x && q[|b|] == y;
  }

  /** The hunks show the script returned for the two files and nothing else. */
  lemma ListingIsScript(hunks: seq<Printed>, left: seq<string>, right: seq<string>, context: nat, body: seq<Line>)
    requires DiffOf(hunks, left, right, context)
    ensures Listing(hunks, left) == body <==>
      Grouped(body) && LeftSide(body) == left && RightSide(body) == right
      && Tells(body, PathTo(left, right, |left|, |right|))
  {
    hide Grouped, LeftSide, RightSide, Kept, AllShaped, Listing, Apply, Patch, PathTo;
    ListingSides(hunks, left);
    ListingGrouped(hunks, left, context);
    if Grouped(body) && LeftSide(body) == left && RightSide(body) == right
        && Tells(body, PathTo(left, right, |left|, |right|)) {
      ListingDetermined(Listing(hunks, left), body);
    }
  }

  // ---------- what a hunk's shape and header say, by line ----------

  /** Two changed lines with only common lines between them. */
  predicate Neighbours(body: seq<Line>, i: nat, j: nat) {
    i < j < |body| && body[i].tag != ' ' && body[j].tag != ' ' && forall k :: i < k < j ==> body[k].tag == ' '
  }

  predicate Tagged(body: seq<Line>) {
    forall i :: 0 <= i < |body| ==> body[i].tag in {' ', '-', '+'}
  }

  /** The last changed line, with the common lines behind it. */
  lemma {:induction false} TrailingBehind(body: seq<Line>)
    requires Tagged(body)
    ensures var m := |body| - Trailing(body);
      && 0 <= m && (forall k :: m <= k < |body| ==> body[k].tag == ' ')
      && (m > 0 ==> body[m - 1].tag != ' ') && (Edited(body) <==> m > 0)
  {
    if |body| > 0 {
      TrailingBehind(body[..|body| - 1]);
    }
  }

  /** In a tight body fewer than 2 * context lines lie between neighbouring changed lines, wherever they are. */
  lemma {:induction false} TightMeans(body: seq<Line>, context: nat)
    requires Tagged(body)
    ensures Tight(body, context) <==> forall i: nat, j: nat :: Neighbours(body, i, j) ==> j - i - 1 < 2 * context
  {
    if |body| > 0 {
      var n := |body| - 1;
      var front := body[..n];
      TightMeans(front, context);
      TrailingBehind(front);
      hide Trailing, Edited;
      assert forall i: nat, j: nat :: j < n ==> (Neighbours(body, i, j) <==> Neighbours(front, i, j));
      var m := n - Trailing(front);
      if body[n].tag != ' ' {
        forall i: nat | Neighbours(body, i, n)
          ensures i == m - 1
        {
          assert forall k :: m <= k < n ==> body[k] == front[k];
        }
        assert m > 0 ==> Neighbours(body, m - 1, n);
      }
    }
  }

  /** All lines up to the body of a hunk. */
  function Ahead(hunks: seq<Printed>, left: seq<string>, i: nat): seq<Line>
    requires i < |hunks| && Apply(hunks[..i], left).Some?
    requires ApplyHunk(hunks[i], left, Apply(hunks[..i], left).value).Some?
  {
    var p := Apply(hunks[..i], left).value;
    PassedBy(hunks[..i], left) + Passed(hunks[i], left, p)[..|Passed(hunks[i], left, p)| - |hunks[i].body|]
  }

  /**
    The parts of a header: the number of the first of the hunk's lines in each file, counted from 1,
    and how many lines it has there; a part is missing when that side is unchanged.
   */
  lemma HeaderNumbers(hunks: seq<Printed>, left: seq<string>, i: nat)
    requires i < |hunks| && Apply(hunks[..i], left).Some?
    requires ApplyHunk(hunks[i], left, Apply(hunks[..i], left).value).Some?
    ensures var h, ahead := hunks[i], Ahead(hunks, left, i);
      && h.minus == (if Count(h.body, '-') > 0 then Some(Range(|LeftSide(ahead)| + 1, |LeftSide(h.body)|)) else None)
      && h.plus == (if Count(h.body, '+') > 0 then Some(Range(|RightSide(ahead)| + 1, |RightSide(h.body)|)) else None)
  {
    hide LeftSide, RightSide, Count, Apply, PassedBy, Tight, Common;
    var h, p := hunks[i], Apply(hunks[..i], left).value;
    var skipped := Common(left[p.used..p.used + Skip(h, p)]);
    PassedSides(hunks[..i], left);
    HunkSides(h, left, p);
    CommonSides(left[p.used..p.used + Skip(h, p)], 0);
    SidesConcat(PassedBy(hunks[..i], left), skipped);
    assert Passed(h, left, p)[..|Passed(h, left, p)| - |h.body|] == skipped;
  }

  // ---------- lines counted ----------

  function Tally(edits: seq<EditType>, edit: EditType): nat {
    if |edits| == 0 then 0 else Tally(edits[..|edits| - 1], edit) + if edits[|edits| - 1] == edit then 1 else 0
  }

  /** Lines of all hunks under one tag. */
  function Total(hunks: seq<Printed>, tag: char): nat {
    if |hunks| == 0 then 0 else Total(hunks[..|hunks| - 1], tag) + Count(hunks[|hunks| - 1].body, tag)
  }

  function Occurrences(tags: string, tag: char): nat {
    if |tags| == 0 then 0 else Occurrences(tags[..|tags| - 1], tag) + if tags[|tags| - 1] == tag then 1 else 0
  }

  lemma OneMoreOccurs(tags: string, last: char, tag: char)
    ensures Occurrences(tags + [last], tag) == Occurrences(tags, tag) + if last == tag then 1 else 0
  {
    assert (tags + [last])[..|tags|] == tags;
  }

  lemma {:induction false} CountKept(body: seq<Line>, dropped: char, tag: char)
    requires tag != dropped
    ensures Count(body, tag) == Occurrences(Kept(body, dropped), tag)
  {
    if |body| > 0 {
      CountKept(body[..|body| - 1], dropped, tag);
      OneMoreOccurs(Kept(body[..|body| - 1], dropped), body[|body| - 1].tag, tag);
      assert Kept(body[..|body| - 1], dropped) + "" == Kept(body[..|body| - 1], dropped);
    }
  }

  lemma LastMoves(edits: seq<EditType>)
    requires |edits| > 0
    ensures var front, edit := edits[..|edits| - 1], edits[|edits| - 1];
      && OldMoves(edits) == OldMoves(front) + (if edit == Match then [' '] else if edit == Add then "" else ['-'])
      && NewMoves(edits) == NewMoves(front) + (if edit == Match then [' '] else if edit == Remove then "" else ['+'])
  {
  }

  lemma {:induction false} MovesCounted(edits: seq<EditType>)
    ensures Occurrences(OldMoves(edits), '-') == Tally(edits, Remove) + Tally(edits, Replace)
    ensures Occurrences(NewMoves(edits), '+') == Tally(edits, Add) + Tally(edits, Replace)
  {
    if |edits| > 0 {
      var front := edits[..|edits| - 1];
      MovesCounted(front);
      hide OldMoves, NewMoves;
      LastMoves(edits);
      assert OldMoves(front) + "" == OldMoves(front) && NewMoves(front) + "" == NewMoves(front);
      forall c: char, tag: char
        ensures Occurrences(OldMoves(front) + [c], tag)
          == Occurrences(OldMoves(front), tag) + if c == tag then 1 else 0
        ensures Occurrences(NewMoves(front) + [c], tag)
          == Occurrences(NewMoves(front), tag) + if c == tag then 1 else 0
      {
        OneMoreOccurs(OldMoves(front), c, tag);
        OneMoreOccurs(NewMoves(front), c, tag);
      }
    }
  }

  lemma {:induction false} CommonCounted(texts: seq<string>, tag: char)
    requires tag != ' '
    ensures Count(Common(texts), tag) == 0
  {
    if |texts| > 0 {
      CommonCounted(texts[..|texts| - 1], tag);
      assert Common(texts)[..|texts| - 1] == Common(texts[..|texts| - 1]);
    }
  }

  lemma {:induction false} PassedCounted(hunks: seq<Printed>, left: seq<string>, tag: char)
    requires Apply(hunks, left).Some? && tag != ' '
    ensures Count(PassedBy(hunks, left), tag) == Total(hunks, tag)
  {
    hide ApplyHunk, Skip;
    if |hunks| > 0 {
      var before, h := hunks[..|hunks| - 1], hunks[|hunks| - 1];
      var p := Apply(before, left).value;
      PassedCounted(before, left, tag);
      HunkSides(h, left, p);
      CommonCounted(left[p.used..p.used + Skip(h, p)], tag);
      CountConcat(Common(left[p.used..p.used + Skip(h, p)]), h.body, tag);
      CountConcat(PassedBy(before, left), Passed(h, left, p), tag);
    }
  }

  lemma ListingCounted(hunks: seq<Printed>, left: seq<string>, tag: char)
    requires Apply(hunks, left).Some? && tag != ' '
    ensures Count(Listing(hunks, left), tag) == Total(hunks, tag)
  {
    hide PassedBy, Apply, Count;
    PassedCounted(hunks, left, tag);
    CommonCounted(left[Apply(hunks, left).value.used..], tag);
    CountConcat(PassedBy(hunks, left), Common(left[Apply(hunks, left).value.used..]), tag);
  }

  /** The removed lines of all hunks are the script's removes and replaces, the added ones its adds and replaces. */
  lemma LinesCounted(hunks: seq<Printed>, left: seq<string>, right: seq<string>, context: nat)
    requires DiffOf(hunks, left, right, context)
    ensures var path := PathTo(left, right, |left|, |right|);
      && Total(hunks, '-') == Tally(path, Remove) + Tally(path, Replace)
      && Total(hunks, '+') == Tally(path, Add) + Tally(path, Replace)
  {
    hide PathTo, Apply, Listing, Count, Total, Tally, Occurrences, AllShaped, Patch;
    var path := PathTo(left, right, |left|, |right|);
    ListingCounted(hunks, left, '-');
    ListingCounted(hunks, left, '+');
    CountKept(Listing(hunks, left), '+', '-');
    CountKept(Listing(hunks, left), '-', '+');
    MovesCounted(path);
  }

  // ---------- equal files ----------

  lemma {:induction false} OnlyMatches<T>(lines: seq<T>, n: nat)
    requires n <= |lines|
    ensures forall k :: 0 <= k < |PathTo(lines, lines, n, n)| ==> PathTo(lines, lines, n, n)[k] == Match
  {
    if n > 0 {
      InnerCell(lines, lines, n, n);
      hide CellAt;
      OnlyMatches(lines, n - 1);
    }
  }

  lemma {:induction false} NoneTallied(edits: seq<EditType>, edit: EditType)
    requires edit != Match && forall k :: 0 <= k < |edits| ==> edits[k] == Match
    ensures Tally(edits, edit) == 0
  {
    if |edits| > 0 {
      NoneTallied(edits[..|edits| - 1], edit);
    }
  }

  lemma EditedIsCounted(hunks: seq<Printed>, context: nat)
    requires AllShaped(hunks, context, true)
    ensures hunks != [] ==> Total(hunks, '-') + Total(hunks, '+') > 0
  {
    hide Count, Tight, Leading, Trailing, Grouped, Start;
  }

  /** Nothing is printed exactly for equal files. */
  lemma NoHunksIff(hunks: seq<Printed>, left: seq<string>, right: seq<string>, context: nat)
    requires DiffOf(hunks, left, right, context)
    ensures hunks == [] <==> left == right
  {
    hide PathTo, Listing, Count, Tally, Apply, Patch, Tight, Leading, Trailing, Grouped, Start, Tells;
    if hunks == [] {
      Unpatched(left);
    }
    if left == right {
      var path := PathTo(left, left, |left|, |left|);
      LinesCounted(hunks, left, right, context);
      OnlyMatches(left, |left|);
      NoneTallied(path, Remove);
      NoneTallied(path, Add);
      NoneTallied(path, Replace);
      EditedIsCounted(hunks, context);
    }
  }

  // ---------- fewest lines ----------

  /** A removal or an addition is one line, and a replacement one of each. */
  const LINES := Weights(1, 1)

  lemma {:induction false} LinesOfScript(edits: seq<EditType>)
    ensures Weighted(LINES, edits) == Tally(edits, Remove) + Tally(edits, Add) + 2 * Tally(edits, Replace)
    ensures Weighted(LINES, edits) == EditCount(edits) + Replaces(edits)
  {
    if |edits| > 0 {
      LinesOfScript(edits[..|edits| - 1]);
    }
  }

  /** Lines that a diff prints as removed or added. */
  function Changed(hunks: seq<Printed>): nat {
    Total(hunks, '-') + Total(hunks, '+')
  }

  /** No patch from left to right changes fewer lines. */
  ghost predicate FewestLines(left: seq<string>, right: seq<string>, n: nat) {
    forall hunks: seq<Printed> :: Patch(hunks, left) == Some(right) ==> n <= Changed(hunks)
  }

  /** Any listing read as a script: a removal, an addition, or else a match. */
  lemma {:induction false} ScriptOf(body: seq<Line>) returns (edits: seq<EditType>)
    ensures ValidScript(edits, LeftSide(body), RightSide(body))
    ensures Weighted(LINES, edits) == Count(body, '-') + Count(body, '+')
  {
    if |body| == 0 {
      edits := [];
    } else {
      var n := |body| - 1;
      var before := ScriptOf(body[..n]);
      var move := if body[n].tag == '-' then Remove else if body[n].tag == '+' then Add else Match;
      edits := before + [move];
      hide Weighted, ValidScript;
      ScriptGrown(before, move, LeftSide(body[..n]), RightSide(body[..n]), body[n].text, body[n].text);
      WeightAppended(LINES, before, move);
    }
  }

  lemma ScriptGrown(path: seq<EditType>, move: EditType, left: seq<string>, right: seq<string>, x: string, y: string)
    requires ValidScript(path, left, right)
    requires (move == Match ==> x == y) && (move == Replace ==> x != y)
    ensures ValidScript(path + [move],
      left + if move == Add then [] else [x], right + if move == Remove then [] else [y])
  {
    assert (path + [move])[..|path|] == path;
    assert (left + [x])[..|left|] == left && (right + [y])[..|right|] == right;
    assert left + [] == left && right + [] == right;
  }

  /** Any script written as a listing. */
  lemma {:induction false} BodyOf(edits: seq<EditType>, left: seq<string>, right: seq<string>)
    returns (body: seq<Line>)
    requires ValidScript(edits, left, right)
    ensures LeftSide(body) == left && RightSide(body) == right
    ensures Count(body, '-') + Count(body, '+') == Weighted(LINES, edits)
  {
    if |edits| == 0 {
      body := [];
    } else {
      hide LeftSide, RightSide, Count;
      var n, l, r := |edits| - 1, |left| - 1, |right| - 1;
      assert left == [] || left == left[..l] + [left[l]];
      assert right == [] || right == right[..r] + [right[r]];
      match edits[n] {
        case Match =>
          body := BodyOf(edits[..n], left[..l], right[..r]);
          body := BodyGrown(body, ' ', left[l]);
        case Remove =>
          body := BodyOf(edits[..n], left[..l], right);
          body := BodyGrown(body, '-', left[l]);
        case Add =>
          body := BodyOf(edits[..n], left, right[..r]);
          body := BodyGrown(body, '+', right[r]);
        case Replace =>
          body := BodyOf(edits[..n], left[..l], right[..r]);
          body := BodyGrown(body, '-', left[l]);
          body := BodyGrown(body, '+', right[r]);
      }
    }
  }

  lemma BodyGrown(body: seq<Line>, tag: char, text: string) returns (more: seq<Line>)
    ensures LeftSide(more) == LeftSide(body) + if tag == '+' then [] else [text]
    ensures RightSide(more) == RightSide(body) + if tag == '-' then [] else [text]
    ensures Count(more, '-') == Count(body, '-') + if tag == '-' then 1 else 0
    ensures Count(more, '+') == Count(body, '+') + if tag == '+' then 1 else 0
  {
    more := body + [Line(tag, text)];
    Appended(body, Line(tag, text));
  }

  /** A listing as a patch of one hunk, or of none when it changes nothing. */
  lemma PatchOf(body: seq<Line>, left: seq<string>, right: seq<string>) returns (hunks: seq<Printed>)
    requires LeftSide(body) == left && RightSide(body) == right
    ensures Patch(hunks, left) == Some(right) && Changed(hunks) == Count(body, '-') + Count(body, '+')
  {
    hide LeftSide, RightSide, Count;
    if Edited(body) {
      var h := Printed(if Count(body, '-') > 0 then Some(Range(1, |left|)) else None,
        if Count(body, '+') > 0 then Some(Range(1, |right|)) else None, body);
      hunks := [h];
      assert left[0..|left|] == left && right[0..|right|] == right && right[..0] == [];
      HunkApplies(h, left, right, 0, 0, 0, 0, |left|, |right|);
      assert hunks[..0] == [] && Apply([], left) == Some(Position(0, []));
      assert Apply(hunks, left) == ApplyHunk(h, left, Position(0, []));
      Patched(hunks, left, right, |left|, |right|);
    } else {
      hunks := [];
      UneditedSame(body);
      Unpatched(left);
    }
  }

  lemma {:induction false} UneditedSame(body: seq<Line>)
    requires !Edited(body)
    ensures LeftSide(body) == RightSide(body)
  {
    if |body| > 0 {
      UneditedSame(body[..|body| - 1]);
    }
  }

  /** The fewest lines any patch changes are what the plain recurrence gives when a replacement counts two. */
  lemma FewestLinesIff(left: seq<string>, right: seq<string>, n: nat)
    ensures FewestLines(left, right, n) <==> n <= LeastWeight(LINES, left, right, |left|, |right|)
  {
    hide Patch, Apply, Listing, Count, Total, LeastWeight, ValidScript, Weighted, LeftSide, RightSide;
    assert left[..|left|] == left && right[..|right|] == right;
    var least := LeastWeight(LINES, left, right, |left|, |right|);
    forall hunks: seq<Printed> | Patch(hunks, left) == Some(right)
      ensures least <= Changed(hunks)
    {
      PatchedByHunks(hunks, left);
      ListingSides(hunks, left);
      ListingCounted(hunks, left, '-');
      ListingCounted(hunks, left, '+');
      var edits := ScriptOf(Listing(hunks, left));
      NoScriptBelow(LINES, left, right, |left|, |right|, edits);
    }
    var best := LeastReached(LINES, left, right, |left|, |right|);
    var body := BodyOf(best, left, right);
    var hunks := PatchOf(body, left, right);
  }

  lemma PatchedByHunks(hunks: seq<Printed>, left: seq<string>)
    requires Patch(hunks, left).Some?
    ensures Apply(hunks, left).Some?
  {
  }

  /**
    The diff changes one line for every edit and one more for every replacement, and no patch
    changes fewer exactly when this is what the plain recurrence gives.
   */
  lemma DiffFewestIff(hunks: seq<Printed>, left: seq<string>, right: seq<string>, context: nat)
    requires DiffOf(hunks, left, right, context)
    ensures var path := PathTo(left, right, |left|, |right|);
      && Changed(hunks) == EditCount(path) + Replaces(path)
      && (FewestLines(left, right, Changed(hunks)) <==>
          EditCount(path) + Replaces(path) == LeastWeight(LINES, left, right, |left|, |right|))
  {
    hide Patch, Apply, Listing, Count, Total, LeastWeight, Weighted, PathTo, Tells, AllShaped, Tally, EditCount,
      Replaces, FewestLines, ValidScript;
    var path := PathTo(left, right, |left|, |right|);
    assert left[..|left|] == left && right[..|right|] == right;
    LinesCounted(hunks, left, right, context);
    LinesOfScript(path);
    PathIsValid(left, right, |left|, |right|);
    NoScriptBelow(LINES, left, right, |left|, |right|, path);
    FewestLinesIff(left, right, Changed(hunks));
  }

  /**
    The fewest edits are not always the fewest lines: two lines swapped are two replacements, as few
    edits as any, and four lines of diff where two would do.
   */
  lemma SwappedLines(hunks: seq<Printed>, context: nat)
    requires DiffOf(hunks, ["a", "b"], ["b", "a"], context)
    ensures FewestEdits(["a", "b"], ["b", "a"], PathTo(["a", "b"], ["b", "a"], 2, 2))
    ensures Changed(hunks) == 4 && !FewestLines(["a", "b"], ["b", "a"], 4)
  {
    hide DiffOf, PathTo, LeastWeight, CellAt, FewestLines, Changed, FewestEdits, Weighted;
    var left, right := ["a", "b"], ["b", "a"];
    assert "a" != "b";
    SwappedFewest(left, right);
    SwappedPath(left, right);
    SwappedWeights(LINES, left, right);
    DiffFewestIff(hunks, left, right, context);
    assert Replaces([Replace]) == 1;
    assert [Replace, Replace][..1] == [Replace];
  }
}
