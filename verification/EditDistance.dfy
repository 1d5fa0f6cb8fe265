/**
  The edit-distance table of external_libs/googletest/src/gtest.cc: its traced path is
  a valid edit script whose cost is the table's last cell. What is promised of the script, the
  fewest edits and among those the fewest replaces, holds exactly when it weighs what the plain
  three-way minimum gives; and of the whole table exactly when its replace branch is never taken
  on a tie.
 */
module EditDistance {

  datatype EditType = Match | Add | Remove | Replace

  // Costs in units of 0.00001, exactly: an add or a remove is 1, a replace 1.00001.
  const UNIT := 100000
  const REPLACE_COST := 100001

  // ---------- edit scripts ----------

  /** `edits` turns left into right, one line at a time from the front. */
  predicate ValidScript<T(==)>(edits: seq<EditType>, left: seq<T>, right: seq<T>) {
    if |edits| == 0 then |left| == 0 && |right| == 0
    else
      var n, l, r := |edits| - 1, |left| - 1, |right| - 1;
      match edits[n]
      case Match => l >= 0 && r >= 0 && left[l] == right[r] && ValidScript(edits[..n], left[..l], right[..r])
      case Replace => l >= 0 && r >= 0 && left[l] != right[r] && ValidScript(edits[..n], left[..l], right[..r])
      case Remove => l >= 0 && ValidScript(edits[..n], left[..l], right)
      case Add => r >= 0 && ValidScript(edits[..n], left, right[..r])
  }

  /** What a script is judged by: so much for each edit, and so much on top for a replace. */
  datatype Weights = Weights(unit: nat, extra: nat)

  function WeightOf(w: Weights, e: EditType): nat {
    match e
    case Match => 0
    case Replace => w.unit + w.extra
    case _ => w.unit
  }

  function Weighted(w: Weights, edits: seq<EditType>): nat {
    if |edits| == 0 then 0 else Weighted(w, edits[..|edits| - 1]) + WeightOf(w, edits[|edits| - 1])
  }

  /** The source's own weights. */
  const COSTS := Weights(UNIT, REPLACE_COST - UNIT)

  function Cost(edits: seq<EditType>): nat {
    Weighted(COSTS, edits)
  }

  /** The moves that are edits, each counted the same. */
  function EditCount(edits: seq<EditType>): nat {
    if |edits| == 0 then 0 else EditCount(edits[..|edits| - 1]) + if edits[|edits| - 1] == Match then 0 else 1
  }

  function Replaces(edits: seq<EditType>): nat {
    if |edits| == 0 then 0 else Replaces(edits[..|edits| - 1]) + if edits[|edits| - 1] == Replace then 1 else 0
  }

  /** An edit costs 1 and a replace 1.00001, in hundred-thousandths; costs add up. */
  lemma CostsAre(path: seq<EditType>)
    ensures Cost(path + [Match]) == Cost(path)
    ensures Cost(path + [Add]) == Cost(path + [Remove]) == Cost(path) + 100000
    ensures Cost(path + [Replace]) == Cost(path) + 100001
  {
    assert forall e :: (path + [e])[..|path|] == path;
  }

  // ---------- the table ----------

  datatype Cell = Cell(cost: nat, move: EditType)

  /** The branch that fills a cell whose lines differ. */
  function Choose(add: nat, remove: nat, replace: nat): Cell {
    if add < remove && add < replace then Cell(add + UNIT, Add)
    else if remove < add && remove < replace then Cell(remove + UNIT, Remove)
    else Cell(replace + REPLACE_COST, Replace)
  }

  function CellAt<T(==)>(left: seq<T>, right: seq<T>, l: nat, r: nat): Cell
    requires l <= |left| && r <= |right|
  {
    if r == 0 then Cell(l * UNIT, Remove)
    else if l == 0 then Cell(r * UNIT, Add)
    else if left[l - 1] == right[r - 1] then Cell(CellAt(left, right, l - 1, r - 1).cost, Match)
    else Choose(CellAt(left, right, l, r - 1).cost, CellAt(left, right, l - 1, r).cost,
      CellAt(left, right, l - 1, r - 1).cost)
  }

  /** The moves traced back from a cell, in forward order. */
  function PathTo<T(==)>(left: seq<T>, right: seq<T>, l: nat, r: nat): seq<EditType>
    requires l <= |left| && r <= |right|
    decreases l + r
  {
    if l == 0 && r == 0 then []
    else
      var move := CellAt(left, right, l, r).move;
      PathTo(left, right, LeftFrom(move, l), RightFrom(move, r)) + [move]
  }

  /** How many lines of left there are before a move that leads to l, and of right before one that leads to r. */
  function LeftFrom(move: EditType, l: nat): int {
    if move == Add then l else l - 1
  }

  function RightFrom(move: EditType, r: nat): int {
    if move == Remove then r else r - 1
  }

  lemma EdgeCells<T>(left: seq<T>, right: seq<T>, l: nat, r: nat)
    requires l <= |left| && r <= |right|
    ensures r == 0 ==> CellAt(left, right, l, r) == Cell(l * UNIT, Remove)
    ensures l == 0 && r > 0 ==> CellAt(left, right, l, r) == Cell(r * UNIT, Add)
  {
  }

  lemma InnerCell<T>(left: seq<T>, right: seq<T>, l: nat, r: nat)
    requires 0 < l <= |left| && 0 < r <= |right|
    ensures CellAt(left, right, l, r) ==
      if left[l - 1] == right[r - 1] then Cell(CellAt(left, right, l - 1, r - 1).cost, Match)
      else Choose(CellAt(left, right, l, r - 1).cost, CellAt(left, right, l - 1, r).cost,
        CellAt(left, right, l - 1, r - 1).cost)
  {
  }

  /** One more move behind a script. */
  lemma MoveAppended<T>(path: seq<EditType>, move: EditType, left: seq<T>, right: seq<T>, l: nat, r: nat)
    requires l <= |left| && r <= |right| && LeftFrom(move, l) >= 0 && RightFrom(move, r) >= 0
    requires ValidScript(path, left[..LeftFrom(move, l)], right[..RightFrom(move, r)])
    requires move == Match ==> left[l - 1] == right[r - 1]
    requires move == Replace ==> left[l - 1] != right[r - 1]
    ensures ValidScript(path + [move], left[..l], right[..r])
  {
    assert (path + [move])[..|path|] == path;
    PrefixEnds(left, l);
    PrefixEnds(right, r);
  }

  lemma WeightAppended(w: Weights, path: seq<EditType>, move: EditType)
    ensures Weighted(w, path + [move]) == Weighted(w, path) + WeightOf(w, move)
    ensures EditCount(path + [move]) == EditCount(path) + if move == Match then 0 else 1
  {
    assert (path + [move])[..|path|] == path;
  }

  /** The traced path is a valid script between the two prefixes and costs what the cell says. */
  lemma {:induction false} PathIsValid<T>(left: seq<T>, right: seq<T>, l: nat, r: nat)
    requires l <= |left| && r <= |right|
    ensures ValidScript(PathTo(left, right, l, r), left[..l], right[..r])
    ensures Cost(PathTo(left, right, l, r)) == CellAt(left, right, l, r).cost
    decreases l + r
  {
    if l == 0 && r == 0 {
      NoMoves(left, right);
    } else {
      hide CellAt, PathTo, ValidScript, Weighted, WeightOf;
      MovesChosen(left, right, l, r);
      var move := CellAt(left, right, l, r).move;
      LastMove(left, right, l, r);
      PathIsValid(left, right, LeftFrom(move, l), RightFrom(move, r));
      var front := PathTo(left, right, LeftFrom(move, l), RightFrom(move, r));
      MoveAppended(front, move, left, right, l, r);
      WeightAppended(COSTS, front, move);
    }
  }

  lemma NoMoves<T>(left: seq<T>, right: seq<T>)
    ensures ValidScript(PathTo(left, right, 0, 0), left[..0], right[..0])
    ensures Cost(PathTo(left, right, 0, 0)) == CellAt(left, right, 0, 0).cost
  {
  }

  /** Each cell's move, and what it adds to the cell it comes from. */
  lemma MovesChosen<T>(left: seq<T>, right: seq<T>, l: nat, r: nat)
    requires l <= |left| && r <= |right| && l + r > 0
    ensures var cell := CellAt(left, right, l, r);
      && LeftFrom(cell.move, l) >= 0 && RightFrom(cell.move, r) >= 0
      && cell.cost == CellAt(left, right, LeftFrom(cell.move, l), RightFrom(cell.move, r)).cost
        + WeightOf(COSTS, cell.move)
      && (cell.move == Match ==> left[l - 1] == right[r - 1])
      && (cell.move == Replace ==> left[l - 1] != right[r - 1])
  {
    hide CellAt;
    EdgeCells(left, right, l, r);
    if r == 0 {
      EdgeCells(left, right, l - 1, r);
    } else if l == 0 {
      EdgeCells(left, right, l, r - 1);
    } else {
      InnerCell(left, right, l, r);
    }
  }

  lemma LastMove<T>(left: seq<T>, right: seq<T>, l: nat, r: nat)
    requires l <= |left| && r <= |right| && l + r > 0
    ensures var move := CellAt(left, right, l, r).move;
      && LeftFrom(move, l) >= 0 && RightFrom(move, r) >= 0
      && PathTo(left, right, l, r) == PathTo(left, right, LeftFrom(move, l), RightFrom(move, r)) + [move]
  {
  }

  lemma PrefixEnds<T>(s: seq<T>, n: nat)
    requires n <= |s|
    ensures n > 0 ==> s[..n][..n - 1] == s[..n - 1] && s[..n][n - 1] == s[n - 1]
  {
  }

  // ---------- when the table is optimal ----------

  ghost predicate Least<T>(left: seq<T>, right: seq<T>, cost: nat) {
    forall edits :: ValidScript(edits, left, right) ==> cost <= Cost(edits)
  }

  /** Every pair of prefixes has its least cost in the table. */
  ghost predicate OptimalTable<T>(left: seq<T>, right: seq<T>) {
    forall l, r :: 0 <= l <= |left| && 0 <= r <= |right| ==>
      Least(left[..l], right[..r], CellAt(left, right, l, r).cost)
  }

  /** The cell takes Replace although Add or Remove does not start from a dearer cell. */
  predicate Tied<T(==)>(left: seq<T>, right: seq<T>, l: nat, r: nat)
    requires 0 < l <= |left| && 0 < r <= |right|
  {
    && left[l - 1] != right[r - 1]
    && CellAt(left, right, l, r).move == Replace
    && var replace := CellAt(left, right, l - 1, r - 1).cost;
       CellAt(left, right, l, r - 1).cost <= replace || CellAt(left, right, l - 1, r).cost <= replace
  }

  ghost predicate TieFree<T>(left: seq<T>, right: seq<T>) {
    forall l, r :: 0 < l <= |left| && 0 < r <= |right| ==> !Tied(left, right, l, r)
  }

  // ---------- the least cost of all ----------

  function Min3(a: nat, b: nat, c: nat): nat {
    if a <= b && a <= c then a else if b <= c then b else c
  }

  /** The plain recurrence: the cheapest of an add, a remove and a match or replace. */
  function LeastWeight<T(==)>(w: Weights, left: seq<T>, right: seq<T>, l: nat, r: nat): nat
    requires l <= |left| && r <= |right|
  {
    if l == 0 && r == 0 then 0
    else if l == 0 then LeastWeight(w, left, right, l, r - 1) + w.unit
    else if r == 0 then LeastWeight(w, left, right, l - 1, r) + w.unit
    else Min3(LeastWeight(w, left, right, l, r - 1) + w.unit, LeastWeight(w, left, right, l - 1, r) + w.unit,
              LeastWeight(w, left, right, l - 1, r - 1) + WeightOf(w, Pairing(left, right, l, r)))
  }

  /** The move that pairs the last lines of two prefixes. */
  function Pairing<T(==)>(left: seq<T>, right: seq<T>, l: nat, r: nat): EditType
    requires 0 < l <= |left| && 0 < r <= |right|
  {
    if left[l - 1] == right[r - 1] then Match else Replace
  }

  lemma LeastEdge<T>(w: Weights, left: seq<T>, right: seq<T>, l: nat, r: nat)
    requires l <= |left| && r <= |right|
    ensures l == 0 && r == 0 ==> LeastWeight(w, left, right, l, r) == 0
    ensures l == 0 && r > 0 ==> LeastWeight(w, left, right, l, r) == LeastWeight(w, left, right, l, r - 1) + w.unit
    ensures l > 0 && r == 0 ==> LeastWeight(w, left, right, l, r) == LeastWeight(w, left, right, l - 1, r) + w.unit
  {
  }

  lemma LeastInner<T>(w: Weights, left: seq<T>, right: seq<T>, l: nat, r: nat)
    requires 0 < l <= |left| && 0 < r <= |right|
    ensures var least := LeastWeight(w, left, right, l, r);
      var add, remove := LeastWeight(w, left, right, l, r - 1) + w.unit, LeastWeight(w, left, right, l - 1, r) + w.unit;
      var pair := LeastWeight(w, left, right, l - 1, r - 1) + WeightOf(w, Pairing(left, right, l, r));
      && least <= add && least <= remove && least <= pair
      && (least == add || least == remove || least == pair)
  {
  }

  /** One line less on a side saves at most one add or remove. */
  lemma {:induction false} LeastNeighbours<T>(w: Weights, left: seq<T>, right: seq<T>, l: nat, r: nat)
    requires l <= |left| && r <= |right|
    ensures r > 0 ==> LeastWeight(w, left, right, l, r - 1) <= LeastWeight(w, left, right, l, r) + w.unit
    ensures l > 0 ==> LeastWeight(w, left, right, l - 1, r) <= LeastWeight(w, left, right, l, r) + w.unit
    decreases l + r
  {
    hide LeastWeight;
    LeastEdge(w, left, right, l, r);
    if l > 0 && r > 0 {
      LeastInner(w, left, right, l, r);
      LeastNeighbours(w, left, right, l, r - 1);
      LeastNeighbours(w, left, right, l - 1, r);
      LeastSteps(w, left, right, l - 1, r);
      LeastSteps(w, left, right, l, r - 1);
    }
  }

  /** One line more on a side costs at most one add or remove. */
  lemma LeastSteps<T>(w: Weights, left: seq<T>, right: seq<T>, l: nat, r: nat)
    requires l <= |left| && r <= |right|
    ensures r > 0 ==> LeastWeight(w, left, right, l, r) <= LeastWeight(w, left, right, l, r - 1) + w.unit
    ensures l > 0 ==> LeastWeight(w, left, right, l, r) <= LeastWeight(w, left, right, l - 1, r) + w.unit
  {
    hide LeastWeight;
    LeastEdge(w, left, right, l, r);
    if l > 0 && r > 0 {
      LeastInner(w, left, right, l, r);
    }
  }

  /** No script weighs less than the plain recurrence. */
  lemma {:induction false} NoScriptBelow<T>(
      w: Weights, left: seq<T>, right: seq<T>, l: nat, r: nat, edits: seq<EditType>)
    requires l <= |left| && r <= |right| && ValidScript(edits, left[..l], right[..r])
    ensures LeastWeight(w, left, right, l, r) <= Weighted(w, edits)
    decreases |edits|
  {
    hide LeastWeight;
    if |edits| == 0 {
      LeastEdge(w, left, right, l, r);
    } else {
      var front := edits[..|edits| - 1];
      PrefixEnds(left, l);
      PrefixEnds(right, r);
      LeastSteps(w, left, right, l, r);
      if l > 0 && r > 0 {
        LeastInner(w, left, right, l, r);
      }
      match edits[|edits| - 1] {
        case Match => NoScriptBelow(w, left, right, l - 1, r - 1, front);
        case Replace => NoScriptBelow(w, left, right, l - 1, r - 1, front);
        case Remove => NoScriptBelow(w, left, right, l - 1, r, front);
        case Add => NoScriptBelow(w, left, right, l, r - 1, front);
      }
    }
  }

  /** Some script weighs just that. */
  lemma {:induction false} LeastReached<T>(w: Weights, left: seq<T>, right: seq<T>, l: nat, r: nat)
    returns (edits: seq<EditType>)
    requires l <= |left| && r <= |right|
    ensures ValidScript(edits, left[..l], right[..r]) && Weighted(w, edits) == LeastWeight(w, left, right, l, r)
    decreases l + r
  {
    if l == 0 && r == 0 {
      return [];
    }
    hide LeastWeight, ValidScript, Weighted;
    var move := LeastMove(w, left, right, l, r);
    var front := LeastReached(w, left, right, LeftFrom(move, l), RightFrom(move, r));
    MoveAppended(front, move, left, right, l, r);
    WeightAppended(w, front, move);
    edits := front + [move];
  }

  /** The move of the plain recurrence. */
  lemma LeastMove<T>(w: Weights, left: seq<T>, right: seq<T>, l: nat, r: nat) returns (move: EditType)
    requires l <= |left| && r <= |right| && l + r > 0
    ensures LeftFrom(move, l) >= 0 && RightFrom(move, r) >= 0
    ensures LeastWeight(w, left, right, l, r)
      == LeastWeight(w, left, right, LeftFrom(move, l), RightFrom(move, r)) + WeightOf(w, move)
    ensures move == Match ==> left[l - 1] == right[r - 1]
    ensures move == Replace ==> left[l - 1] != right[r - 1]
  {
    hide LeastWeight;
    LeastEdge(w, left, right, l, r);
    if l == 0 {
      return Add;
    }
    if r == 0 {
      return Remove;
    }
    LeastInner(w, left, right, l, r);
    var least := LeastWeight(w, left, right, l, r);
    if least == LeastWeight(w, left, right, l, r - 1) + w.unit {
      return Add;
    }
    if least == LeastWeight(w, left, right, l - 1, r) + w.unit {
      return Remove;
    }
    return Pairing(left, right, l, r);
  }

  /** No script weighs less than n. */
  ghost predicate LeastBy<T>(w: Weights, left: seq<T>, right: seq<T>, n: nat) {
    forall edits :: ValidScript(edits, left, right) ==> n <= Weighted(w, edits)
  }

  /** A script weighs at least what the plain recurrence gives, and is a lightest one exactly when it weighs that. */
  lemma LightestIff<T>(w: Weights, left: seq<T>, right: seq<T>, l: nat, r: nat, path: seq<EditType>)
    requires l <= |left| && r <= |right| && ValidScript(path, left[..l], right[..r])
    ensures LeastWeight(w, left, right, l, r) <= Weighted(w, path)
    ensures LeastBy(w, left[..l], right[..r], Weighted(w, path)) <==>
      Weighted(w, path) == LeastWeight(w, left, right, l, r)
  {
    hide LeastWeight, ValidScript, Weighted;
    NoScriptBelow(w, left, right, l, r, path);
    var best := LeastReached(w, left, right, l, r);
    forall edits | ValidScript(edits, left[..l], right[..r])
      ensures LeastWeight(w, left, right, l, r) <= Weighted(w, edits)
    {
      NoScriptBelow(w, left, right, l, r, edits);
    }
  }

  lemma LeastIsLeastBy<T>(left: seq<T>, right: seq<T>, n: nat)
    ensures Least(left, right, n) <==> LeastBy(COSTS, left, right, n)
  {
    hide ValidScript, Weighted;
    if LeastBy(COSTS, left, right, n) {
      forall edits | ValidScript(edits, left, right)
        ensures n <= Cost(edits)
      {
        assert n <= Weighted(COSTS, edits);
      }
    } else {
      var edits :| ValidScript(edits, left, right) && Weighted(COSTS, edits) < n;
      assert Cost(edits) < n;
    }
  }

  /** A cell is never below the least cost, and is least exactly when it is the least cost. */
  lemma CellLeastIff<T>(left: seq<T>, right: seq<T>, l: nat, r: nat)
    requires l <= |left| && r <= |right|
    ensures LeastWeight(COSTS, left, right, l, r) <= CellAt(left, right, l, r).cost
    ensures Least(left[..l], right[..r], CellAt(left, right, l, r).cost) <==>
      CellAt(left, right, l, r).cost == LeastWeight(COSTS, left, right, l, r)
  {
    hide LeastWeight, CellAt, PathTo, ValidScript, Weighted, Least, LeastBy;
    PathIsValid(left, right, l, r);
    LightestIff(COSTS, left, right, l, r, PathTo(left, right, l, r));
    LeastIsLeastBy(left[..l], right[..r], CellAt(left, right, l, r).cost);
  }

  /** The returned script is a cheapest one exactly when the last cell is what the plain recurrence gives. */
  lemma ResultOptimalIff<T>(left: seq<T>, right: seq<T>)
    ensures var path, least := PathTo(left, right, |left|, |right|), LeastWeight(COSTS, left, right, |left|, |right|);
      && least <= Cost(path)
      && (Least(left, right, Cost(path)) <==> CellAt(left, right, |left|, |right|).cost == least)
  {
    hide LeastWeight, CellAt, PathTo, ValidScript, Cost, Least;
    assert left[..|left|] == left && right[..|right|] == right;
    PathIsValid(left, right, |left|, |right|);
    CellLeastIff(left, right, |left|, |right|);
  }

  // ---------- what is promised of the script ----------

  /** No script has fewer edits. */
  ghost predicate FewestEdits<T>(left: seq<T>, right: seq<T>, path: seq<EditType>) {
    forall edits :: ValidScript(edits, left, right) ==> EditCount(path) <= EditCount(edits)
  }

  /**
    All edits count the same, with replace coming behind add and remove: no script has fewer edits,
    nor as many with fewer replaces.
   */
  ghost predicate Promised<T>(left: seq<T>, right: seq<T>, path: seq<EditType>) {
    forall edits :: ValidScript(edits, left, right) ==> NoBetter(edits, path)
  }

  predicate NoBetter(edits: seq<EditType>, path: seq<EditType>) {
    EditCount(path) < EditCount(edits) || (EditCount(path) == EditCount(edits) && Replaces(path) <= Replaces(edits))
  }

  lemma {:induction false} WeightSplits(w: Weights, edits: seq<EditType>)
    ensures Weighted(w, edits) == w.unit * EditCount(edits) + w.extra * Replaces(edits)
    decreases |edits|
  {
    if |edits| > 0 {
      var front, move := edits[..|edits| - 1], edits[|edits| - 1];
      WeightSplits(w, front);
      OneMore(w.unit, EditCount(front));
      OneMore(w.extra, Replaces(front));
    }
  }

  lemma OneMore(a: nat, n: nat)
    ensures a * (n + 1) == a * n + a
  {
  }

  /** Each replace takes a line of each side. */
  lemma {:induction false} ReplacesBound<T>(edits: seq<EditType>, left: seq<T>, right: seq<T>)
    requires ValidScript(edits, left, right)
    ensures Replaces(edits) <= |left| && Replaces(edits) <= |right|
    decreases |edits|
  {
    if |edits| > 0 {
      var front, l, r := edits[..|edits| - 1], |left| - 1, |right| - 1;
      match edits[|edits| - 1] {
        case Match => ReplacesBound(front, left[..l], right[..r]);
        case Replace => ReplacesBound(front, left[..l], right[..r]);
        case Remove => ReplacesBound(front, left[..l], right);
        case Add => ReplacesBound(front, left, right[..r]);
      }
    }
  }

  lemma TwoDigits(unit: nat, a: nat, b: nat, c: nat, d: nat)
    requires b < unit && d < unit
    ensures unit * a + b <= unit * c + d <==> a < c || (a == c && b <= d)
  {
    if a < c {
      Scaled(unit, a, c);
    } else if a > c {
      Scaled(unit, c, a);
    }
  }

  lemma Scaled(unit: nat, a: nat, c: nat)
    requires a < c
    ensures unit * a + unit <= unit * c
  {
    var k := c - a - 1;
    assert unit * c == unit * a + unit + unit * k;
  }

  /** Comparing weights is comparing edits and then replaces when no script has enough replaces to make up an edit. */
  lemma WeighsLess<T>(unit: nat, left: seq<T>, right: seq<T>, path: seq<EditType>, edits: seq<EditType>)
    requires ValidScript(path, left, right) && ValidScript(edits, left, right) && (|left| < unit || |right| < unit)
    ensures Weighted(Weights(unit, 1), path) <= Weighted(Weights(unit, 1), edits) <==> NoBetter(edits, path)
  {
    hide ValidScript, Weighted, EditCount, Replaces;
    var w := Weights(unit, 1);
    WeightSplits(w, path);
    WeightSplits(w, edits);
    ReplacesBound(path, left, right);
    ReplacesBound(edits, left, right);
    TwoDigits(unit, EditCount(path), Replaces(path), EditCount(edits), Replaces(edits));
  }

  lemma PromisedIffLightest<T>(unit: nat, left: seq<T>, right: seq<T>, path: seq<EditType>)
    requires ValidScript(path, left, right) && (|left| < unit || |right| < unit)
    ensures Promised(left, right, path) <==>
      LeastBy(Weights(unit, 1), left, right, Weighted(Weights(unit, 1), path))
  {
    hide ValidScript, Weighted, NoBetter;
    forall edits | ValidScript(edits, left, right)
      ensures Weighted(Weights(unit, 1), path) <= Weighted(Weights(unit, 1), edits) <==> NoBetter(edits, path)
    {
      WeighsLess(unit, left, right, path, edits);
    }
  }

  /** For every input: the script is what is promised exactly when it weighs what the plain recurrence gives. */
  lemma ResultPromisedIff<T>(left: seq<T>, right: seq<T>)
    ensures var path, w := PathTo(left, right, |left|, |right|), Weights(|left| + 1, 1);
      Promised(left, right, path) <==> Weighted(w, path) == LeastWeight(w, left, right, |left|, |right|)
  {
    hide LeastWeight, CellAt, PathTo, ValidScript, Weighted, Promised, LeastBy;
    assert left[..|left|] == left && right[..|right|] == right;
    PathIsValid(left, right, |left|, |right|);
    var path := PathTo(left, right, |left|, |right|);
    PromisedIffLightest(|left| + 1, left, right, path);
    LightestIff(Weights(|left| + 1, 1), left, right, |left|, |right|, path);
  }

  /** And has the fewest edits exactly when it has as many as the plain recurrence that only counts them. */
  lemma ResultFewestIff<T>(left: seq<T>, right: seq<T>)
    ensures var path, w := PathTo(left, right, |left|, |right|), Weights(1, 0);
      FewestEdits(left, right, path) <==> EditCount(path) == LeastWeight(w, left, right, |left|, |right|)
  {
    hide LeastWeight, CellAt, PathTo, ValidScript, Weighted, EditCount;
    assert left[..|left|] == left && right[..|right|] == right;
    PathIsValid(left, right, |left|, |right|);
    var path, w := PathTo(left, right, |left|, |right|), Weights(1, 0);
    forall edits
      ensures Weighted(w, edits) == EditCount(edits)
    {
      WeightSplits(w, edits);
    }
    LightestIff(w, left, right, |left|, |right|, path);
  }

  /** With fewer than 100000 lines on a side the source's costs decide what is promised. */
  lemma PromisedIffLeast<T>(left: seq<T>, right: seq<T>, path: seq<EditType>)
    requires ValidScript(path, left, right) && (|left| < UNIT || |right| < UNIT)
    ensures Promised(left, right, path) <==> Least(left, right, Cost(path))
  {
    hide ValidScript, Weighted, Promised, LeastBy, Least;
    PromisedIffLightest(UNIT, left, right, path);
    LeastIsLeastBy(left, right, Cost(path));
  }

  /** Every pair of prefixes has a script as promised. */
  ghost predicate PromisedTable<T>(left: seq<T>, right: seq<T>) {
    forall l, r :: 0 <= l <= |left| && 0 <= r <= |right| ==>
      Promised(left[..l], right[..r], PathTo(left, right, l, r))
  }

  // ---------- ties ----------

  /** Without ties every cell is what the plain recurrence gives. */
  lemma {:induction false} TieFreeIsLeast<T>(left: seq<T>, right: seq<T>, l: nat, r: nat)
    requires TieFree(left, right) && l <= |left| && r <= |right|
    ensures CellAt(left, right, l, r).cost == LeastWeight(COSTS, left, right, l, r)
    decreases l + r
  {
    hide CellAt, LeastWeight, TieFree;
    EdgeCells(left, right, l, r);
    LeastEdge(COSTS, left, right, l, r);
    if l > 0 && r > 0 {
      TieFreeIsLeast(left, right, l, r - 1);
      TieFreeIsLeast(left, right, l - 1, r);
      TieFreeIsLeast(left, right, l - 1, r - 1);
      InnerCell(left, right, l, r);
      LeastInner(COSTS, left, right, l, r);
      LeastNeighbours(COSTS, left, right, l, r - 1);
      LeastNeighbours(COSTS, left, right, l - 1, r);
      NotTied(left, right, l, r);
    } else if l > 0 {
      EdgeCells(left, right, l - 1, r);
      TieFreeIsLeast(left, right, l - 1, r);
    } else if r > 0 {
      EdgeCells(left, right, l, r - 1);
      TieFreeIsLeast(left, right, l, r - 1);
    }
  }

  lemma NotTied<T>(left: seq<T>, right: seq<T>, l: nat, r: nat)
    requires TieFree(left, right) && 0 < l <= |left| && 0 < r <= |right|
    ensures !Tied(left, right, l, r)
  {
  }

  /** Without ties no script between two prefixes costs less than their cell. */
  lemma NoCheaperScript<T>(left: seq<T>, right: seq<T>, l: nat, r: nat, edits: seq<EditType>)
    requires TieFree(left, right) && l <= |left| && r <= |right|
    requires ValidScript(edits, left[..l], right[..r])
    ensures CellAt(left, right, l, r).cost <= Cost(edits)
  {
    hide CellAt, LeastWeight, TieFree, ValidScript, Weighted;
    TieFreeIsLeast(left, right, l, r);
    NoScriptBelow(COSTS, left, right, l, r, edits);
  }

  lemma ExtendByAdd<T>(left: seq<T>, right: seq<T>, l: nat, r: nat)
    requires l <= |left| && 0 < r <= |right|
    ensures ValidScript(PathTo(left, right, l, r - 1) + [Add], left[..l], right[..r])
    ensures Cost(PathTo(left, right, l, r - 1) + [Add]) == CellAt(left, right, l, r - 1).cost + UNIT
  {
    hide PathTo, CellAt, ValidScript, Weighted;
    PathIsValid(left, right, l, r - 1);
    MoveAppended(PathTo(left, right, l, r - 1), Add, left, right, l, r);
    WeightAppended(COSTS, PathTo(left, right, l, r - 1), Add);
  }

  lemma ExtendByRemove<T>(left: seq<T>, right: seq<T>, l: nat, r: nat)
    requires 0 < l <= |left| && r <= |right|
    ensures ValidScript(PathTo(left, right, l - 1, r) + [Remove], left[..l], right[..r])
    ensures Cost(PathTo(left, right, l - 1, r) + [Remove]) == CellAt(left, right, l - 1, r).cost + UNIT
  {
    hide PathTo, CellAt, ValidScript, Weighted;
    PathIsValid(left, right, l - 1, r);
    MoveAppended(PathTo(left, right, l - 1, r), Remove, left, right, l, r);
    WeightAppended(COSTS, PathTo(left, right, l - 1, r), Remove);
  }

  /** A tie costs: the script through the cheaper neighbour beats the cell. */
  lemma TieIsNotLeast<T>(left: seq<T>, right: seq<T>, l: nat, r: nat)
    requires 0 < l <= |left| && 0 < r <= |right| && Tied(left, right, l, r)
    ensures !Least(left[..l], right[..r], CellAt(left, right, l, r).cost)
  {
    InnerCell(left, right, l, r);
    hide CellAt, PathTo, ValidScript, Cost;
    ExtendByAdd(left, right, l, r);
    ExtendByRemove(left, right, l, r);
  }

  /** The table is optimal for all pairs of prefixes exactly when the replace branch is never taken on a tie. */
  lemma OptimalIffTieFree<T>(left: seq<T>, right: seq<T>)
    ensures OptimalTable(left, right) <==> TieFree(left, right)
  {
    if TieFree(left, right) {
      forall l, r, edits | 0 <= l <= |left| && 0 <= r <= |right| && ValidScript(edits, left[..l], right[..r])
        ensures CellAt(left, right, l, r).cost <= Cost(edits)
      {
        NoCheaperScript(left, right, l, r, edits);
      }
    } else {
      var l, r :| 0 < l <= |left| && 0 < r <= |right| && Tied(left, right, l, r);
      TieIsNotLeast(left, right, l, r);
    }
  }

  /** With fewer than 100000 lines on a side, all scripts of the table are as promised exactly without such a tie. */
  lemma PromisedIffTieFree<T>(left: seq<T>, right: seq<T>)
    requires |left| < UNIT || |right| < UNIT
    ensures PromisedTable(left, right) <==> TieFree(left, right)
  {
    hide TieFree, Promised, Least, CellAt, PathTo, Cost, ValidScript;
    OptimalIffTieFree(left, right);
    forall l, r | 0 <= l <= |left| && 0 <= r <= |right|
      ensures Promised(left[..l], right[..r], PathTo(left, right, l, r)) <==>
        Least(left[..l], right[..r], CellAt(left, right, l, r).cost)
    {
      PathIsValid(left, right, l, r);
      PromisedIffLeast(left[..l], right[..r], PathTo(left, right, l, r));
    }
  }

  /**
    Fewest edits alone can survive a tie: between a, b and b, a two replaces are as few edits as
    a remove and an add, but these have fewer replaces.
   */
  lemma FewestDespiteTie()
    ensures var left, right := [0, 1], [1, 0];
      && Tied(left, right, 2, 2)
      && FewestEdits(left, right, PathTo(left, right, 2, 2)) && !Promised(left, right, PathTo(left, right, 2, 2))
  {
    hide PathTo, ValidScript, Cost, EditCount, Promised, FewestEdits, CellAt, LeastWeight;
    var left, right := [0, 1], [1, 0];
    SwappedCells(left, right);
    SwappedFewest(left, right);
    SwappedNotPromised(left, right);
  }

  /** The same two lines in the other order. */
  predicate Swapped<T(==)>(left: seq<T>, right: seq<T>) {
    |left| == |right| == 2 && left[0] == right[1] && left[1] == right[0] && left[0] != left[1]
  }

  lemma SwappedFewest<T>(left: seq<T>, right: seq<T>)
    requires Swapped(left, right)
    ensures FewestEdits(left, right, PathTo(left, right, 2, 2))
  {
    hide PathTo, ValidScript, EditCount, FewestEdits, CellAt, LeastWeight;
    SwappedPath(left, right);
    SwappedLeast(left, right);
    ResultFewestIff(left, right);
  }

  lemma SwappedNotPromised<T>(left: seq<T>, right: seq<T>)
    requires Swapped(left, right)
    ensures !Promised(left, right, PathTo(left, right, 2, 2))
  {
    hide PathTo, ValidScript, Cost, Least, Promised, CellAt, LeastWeight;
    SwappedCells(left, right);
    SwappedLeast(left, right);
    ResultOptimalIff(left, right);
    assert left[..2] == left && right[..2] == right;
    PathIsValid(left, right, 2, 2);
    PromisedIffLeast(left, right, PathTo(left, right, 2, 2));
  }

  lemma SwappedCells<T>(left: seq<T>, right: seq<T>)
    requires Swapped(left, right)
    ensures CellAt(left, right, 1, 1) == Cell(REPLACE_COST, Replace)
    ensures CellAt(left, right, 2, 1).cost == CellAt(left, right, 1, 2).cost == UNIT
    ensures CellAt(left, right, 2, 2) == Cell(2 * REPLACE_COST, Replace)
  {
    assert CellAt(left, right, 1, 1) == Cell(REPLACE_COST, Replace);
    assert CellAt(left, right, 2, 1).cost == UNIT && CellAt(left, right, 1, 2).cost == UNIT;
  }

  lemma SwappedPath<T>(left: seq<T>, right: seq<T>)
    requires Swapped(left, right)
    ensures PathTo(left, right, 2, 2) == [Replace, Replace]
    ensures EditCount(PathTo(left, right, 2, 2)) == 2
  {
    hide CellAt, EditCount, Weighted;
    SwappedCells(left, right);
    assert PathTo(left, right, 1, 1) == [Replace];
    assert PathTo(left, right, 2, 2) == [Replace] + [Replace];
    NoEdits();
    assert [] + [Replace] == [Replace];
    WeightAppended(COSTS, [], Replace);
    WeightAppended(COSTS, [Replace], Replace);
  }

  lemma SwappedLeast<T>(left: seq<T>, right: seq<T>)
    requires Swapped(left, right)
    ensures LeastWeight(Weights(1, 0), left, right, 2, 2) == 2
    ensures LeastWeight(COSTS, left, right, 2, 2) == 2 * UNIT
  {
    SwappedWeights(Weights(1, 0), left, right);
    SwappedWeights(COSTS, left, right);
  }

  lemma SwappedWeights<T>(w: Weights, left: seq<T>, right: seq<T>)
    requires Swapped(left, right) && w.extra <= w.unit
    ensures LeastWeight(w, left, right, 2, 2) == 2 * w.unit
  {
    assert LeastWeight(w, left, right, 1, 0) == LeastWeight(w, left, right, 0, 1) == w.unit;
    assert LeastWeight(w, left, right, 1, 1) == w.unit + w.extra;
    assert LeastWeight(w, left, right, 2, 1) == LeastWeight(w, left, right, 1, 2) == w.unit;
  }

  /**
    The tie happens: between a, b, a and b, a, b the path replaces all three where a remove
    and an add would do. It is not least by cost, nor by the mere number of edits.
   */
  lemma NotAlwaysOptimal()
    ensures var left, right := [0, 1, 0], [1, 0, 1];
      && !Least(left, right, CellAt(left, right, 3, 3).cost)
      && PathTo(left, right, 3, 3) == [Replace, Replace, Replace]
      && !FewestEdits(left, right, PathTo(left, right, 3, 3)) && !Promised(left, right, PathTo(left, right, 3, 3))
  {
    hide CellAt, PathTo, ValidScript, Cost, EditCount;
    var left, right := [0, 1, 0], [1, 0, 1];
    assert left[..3] == left && right[..3] == right;
    FirstCells(left, right);
    TieIsNotLeast(left, right, 3, 3);
    FirstPath(left, right);
    CheaperScript(left, right);
  }

  /** A tie beside the way does no harm: with one line more on the left the tied cell is not passed. */
  lemma TieElsewhere()
    ensures var left, right := [0, 1, 0, 2], [1, 0, 1];
      Tied(left, right, 3, 3) && Least(left, right, Cost(PathTo(left, right, 4, 3)))
  {
    hide PathTo, ValidScript, Cost, Least;
    var left, right := [0, 1, 0, 2], [1, 0, 1];
    TiedBeside(left, right);
    LeastBeside(left, right);
    hide CellAt, LeastWeight;
    ResultOptimalIff(left, right);
  }

  lemma TiedBeside(left: seq<int>, right: seq<int>)
    requires left == [0, 1, 0, 2] && right == [1, 0, 1]
    ensures CellAt(left, right, 3, 3) == Cell(3 * REPLACE_COST, Replace)
    ensures CellAt(left, right, 3, 2).cost == CellAt(left, right, 2, 3).cost == UNIT
    ensures CellAt(left, right, 2, 2).cost == 2 * REPLACE_COST
    ensures CellAt(left, right, 4, 3).cost == UNIT + REPLACE_COST
  {
    assert CellAt(left, right, 1, 1).cost == REPLACE_COST;
    assert CellAt(left, right, 2, 1).cost == CellAt(left, right, 1, 2).cost == UNIT;
    assert CellAt(left, right, 2, 2) == Cell(2 * REPLACE_COST, Replace);
    assert CellAt(left, right, 3, 1).cost == 2 * UNIT;
    assert CellAt(left, right, 3, 2).cost == CellAt(left, right, 2, 3).cost == UNIT;
    assert CellAt(left, right, 4, 1).cost == 3 * UNIT;
    assert CellAt(left, right, 4, 2).cost == 2 * UNIT;
  }

  lemma LeastBeside(left: seq<int>, right: seq<int>)
    requires left == [0, 1, 0, 2] && right == [1, 0, 1]
    ensures LeastWeight(COSTS, left, right, 4, 3) == UNIT + REPLACE_COST
  {
    assert LeastWeight(COSTS, left, right, 1, 0) == LeastWeight(COSTS, left, right, 0, 1) == UNIT;
    assert LeastWeight(COSTS, left, right, 2, 0) == LeastWeight(COSTS, left, right, 0, 2) == 2 * UNIT;
    assert LeastWeight(COSTS, left, right, 2, 1) == LeastWeight(COSTS, left, right, 1, 2) == UNIT;
    assert LeastWeight(COSTS, left, right, 3, 1) == 2 * UNIT;
    assert LeastWeight(COSTS, left, right, 3, 2) == LeastWeight(COSTS, left, right, 2, 3) == UNIT;
    assert LeastWeight(COSTS, left, right, 3, 3) == 2 * UNIT;
    assert LeastWeight(COSTS, left, right, 4, 2) == 2 * UNIT;
  }

  /** The cells on and next to the diagonal of that example. */
  lemma FirstCells(left: seq<int>, right: seq<int>)
    requires left == [0, 1, 0] && right == [1, 0, 1]
    ensures CellAt(left, right, 1, 1) == Cell(REPLACE_COST, Replace)
    ensures CellAt(left, right, 2, 2) == Cell(2 * REPLACE_COST, Replace)
    ensures CellAt(left, right, 3, 3) == Cell(3 * REPLACE_COST, Replace)
    ensures CellAt(left, right, 3, 2).cost == CellAt(left, right, 2, 3).cost == UNIT
  {
    assert CellAt(left, right, 1, 1) == Cell(REPLACE_COST, Replace);
    assert CellAt(left, right, 2, 1).cost == UNIT && CellAt(left, right, 1, 2).cost == UNIT;
    assert CellAt(left, right, 3, 2).cost == CellAt(left, right, 2, 1).cost;
    assert CellAt(left, right, 2, 3).cost == CellAt(left, right, 1, 2).cost;
  }

  lemma FirstPath(left: seq<int>, right: seq<int>)
    requires left == [0, 1, 0] && right == [1, 0, 1]
    ensures PathTo(left, right, 3, 3) == [Replace, Replace, Replace]
    ensures EditCount(PathTo(left, right, 3, 3)) == 3
  {
    hide CellAt, EditCount, Weighted;
    FirstCells(left, right);
    assert PathTo(left, right, 1, 1) == [Replace];
    assert PathTo(left, right, 2, 2) == [Replace, Replace];
    NoEdits();
    assert [] + [Replace] == [Replace] && [Replace] + [Replace] == [Replace, Replace]
        && [Replace, Replace] + [Replace] == [Replace, Replace, Replace];
    WeightAppended(COSTS, [], Replace);
    WeightAppended(COSTS, [Replace], Replace);
    WeightAppended(COSTS, [Replace, Replace], Replace);
  }

  lemma NoEdits()
    ensures EditCount([]) == 0 && ValidScript<int>([], [], [])
  {
  }

  lemma CheaperScript(left: seq<int>, right: seq<int>)
    requires left == [0, 1, 0] && right == [1, 0, 1]
    ensures ValidScript([Remove, Match, Match, Add], left, right) && EditCount([Remove, Match, Match, Add]) == 2
  {
    hide ValidScript, EditCount;
    ScriptPieces();
    NoEdits();
    assert left[..0] == [] && right[..0] == [] && left[..3] == left && right[..3] == right;
    MoveAppended([], Remove, left, right, 1, 0);
    MoveAppended([Remove], Match, left, right, 2, 1);
    MoveAppended([Remove, Match], Match, left, right, 3, 2);
    MoveAppended([Remove, Match, Match], Add, left, right, 3, 3);
    TwoEdits();
  }

  lemma ScriptPieces()
    ensures [] + [Remove] == [Remove] && [Remove] + [Match] == [Remove, Match]
      && [Remove, Match] + [Match] == [Remove, Match, Match]
    ensures [Remove, Match, Match] + [Add] == [Remove, Match, Match, Add]
  {
  }

  lemma TwoEdits()
    ensures EditCount([Remove, Match, Match, Add]) == 2
  {
    hide EditCount, Weighted;
    ScriptPieces();
    NoEdits();
    WeightAppended(COSTS, [], Remove);
    WeightAppended(COSTS, [Remove], Match);
    WeightAppended(COSTS, [Remove, Match], Match);
    WeightAppended(COSTS, [Remove, Match, Match], Add);
  }

  // ---------- CalculateOptimalEdits on ids ----------

  function Reversed<T>(s: seq<T>): (r: seq<T>)
    ensures |r| == |s| && forall i :: 0 <= i < |s| ==> r[i] == s[|s| - 1 - i]
  {
    seq(|s|, i requires 0 <= i < |s| => s[|s| - 1 - i])
  }

  method FillTable(left: seq<nat>, right: seq<nat>) returns (costs: array2<nat>, best_move: array2<EditType>)
    ensures costs.Length0 == best_move.Length0 == |left| + 1 && costs.Length1 == best_move.Length1 == |right| + 1
    ensures forall l, r :: 0 <= l <= |left| && 0 <= r <= |right| ==>
      Cell(costs[l, r], best_move[l, r]) == CellAt(left, right, l, r)
  {
    hide CellAt, Choose;
    costs := new nat[|left| + 1, |right| + 1];
    best_move := new EditType[|left| + 1, |right| + 1];
    for l := 0 to |left| + 1
      invariant forall i :: 0 <= i < l ==> Cell(costs[i, 0], best_move[i, 0]) == CellAt(left, right, i, 0)
    {
      costs[l, 0] := l * UNIT;
      best_move[l, 0] := Remove;
      EdgeCells(left, right, l, 0);
    }
    for r := 1 to |right| + 1
      invariant forall i :: 0 <= i <= |left| ==> Cell(costs[i, 0], best_move[i, 0]) == CellAt(left, right, i, 0)
      invariant forall j :: 0 <= j < r ==> Cell(costs[0, j], best_move[0, j]) == CellAt(left, right, 0, j)
    {
      costs[0, r] := r * UNIT;
      best_move[0, r] := Add;
      EdgeCells(left, right, 0, r);
    }
    for l := 0 to |left|
      invariant forall i :: 0 <= i <= |left| ==> Cell(costs[i, 0], best_move[i, 0]) == CellAt(left, right, i, 0)
      invariant forall i, j :: 0 <= i <= l && 0 <= j <= |right| ==>
        Cell(costs[i, j], best_move[i, j]) == CellAt(left, right, i, j)
    {
      ghost var row := l + 1;
      for r := 0 to |right|
        invariant forall i :: 0 <= i <= |left| ==> Cell(costs[i, 0], best_move[i, 0]) == CellAt(left, right, i, 0)
        invariant forall i, j :: 0 <= i <= l && 0 <= j <= |right| ==>
          Cell(costs[i, j], best_move[i, j]) == CellAt(left, right, i, j)
        invariant forall j :: 0 <= j <= r ==> Cell(costs[row, j], best_move[row, j]) == CellAt(left, right, row, j)
      {
        InnerCell(left, right, l + 1, r + 1);
        if left[l] == right[r] {
          costs[l + 1, r + 1] := costs[l, r];
          best_move[l + 1, r + 1] := Match;
          continue;
        }
        var cost, move := ChooseMove(costs[l + 1, r], costs[l, r + 1], costs[l, r]);
        costs[l + 1, r + 1] := cost;
        best_move[l + 1, r + 1] := move;
      }
    }
  }

  /** The branches for lines that differ. */
  method ChooseMove(add: nat, remove: nat, replace: nat) returns (cost: nat, move: EditType)
    ensures Cell(cost, move) == Choose(add, remove, replace)
  {
    if add < remove && add < replace {
      return add + UNIT, Add;
    } else if remove < add && remove < replace {
      return remove + UNIT, Remove;
    } else {
      return replace + REPLACE_COST, Replace;
    }
  }

  /** The table filled, then the best path traced back from its last cell and reversed. */
  method CalculateOptimalEdits(left: seq<nat>, right: seq<nat>) returns (path: seq<EditType>)
    ensures path == PathTo(left, right, |left|, |right|)
    ensures ValidScript(path, left, right)
    ensures Cost(path) == CellAt(left, right, |left|, |right|).cost
  {
    var costs, best_move := FillTable(left, right);
    var best_path: seq<EditType> := [];
    var l, r := |left|, |right|;
    assert Reversed(best_path) == [];
    while l > 0 || r > 0
      invariant 0 <= l <= |left| && 0 <= r <= |right|
      invariant PathTo(left, right, |left|, |right|) == PathTo(left, right, l, r) + Reversed(best_path)
      decreases l + r
    {
      var move := best_move[l, r];
      assert move == CellAt(left, right, l, r).move;
      assert Reversed(best_path + [move]) == [move] + Reversed(best_path);
      best_path := best_path + [move];
      l := if move != Add then l - 1 else l;
      r := if move != Remove then r - 1 else r;
    }
    path := Reversed(best_path);
    PathIsValid(left, right, |left|, |right|);
    assert left[..|left|] == left && right[..|right|] == right;
  }
}
