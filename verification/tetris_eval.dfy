/**
 The autoplay board evaluator of the main game: a weighted sum of column
 heights, row and column transitions, holes and the cells stacked over them,
 wells (with the "13+1" rule that keeps the rightmost column as the one
 well), left-side flatness, row fill, a stack-building penalty, a line
 bonus and a landing-depth term. Also the hysteresis that switches the
 evaluator between its normal and high-risk modes.

 The weights are whole numbers in the program, where they are kept as
 floating point; every intermediate value stays far below 2^53, so the
 floating-point sums are exact and integers model them faithfully.
 */
module TetrisEval {
  import opened Wrappers
  import opened Grid

  /** A board the evaluator accepts: at least one row, at least two columns,
      rectangular. */
  predicate Shaped(b: Board, cols: nat) {
    |b| > 0 && cols >= 2 && IsBoard(b, |b|, cols)
  }

  /** Column `x` read from top to bottom. */
  function Column(b: Board, x: nat): (c: seq<int>)
    requires forall y :: 0 <= y < |b| ==> x < |b[y]|
    ensures |c| == |b| && forall y :: 0 <= y < |b| ==> c[y] == b[y][x]
  {
    seq(|b|, y requires 0 <= y < |b| => b[y][x])
  }

  // ---------------------------------------------------------------------
  // Small sequence helpers
  // ---------------------------------------------------------------------

  function Sum(s: seq<int>): int {
    if s == [] then 0 else s[0] + Sum(s[1..])
  }

  function Max(s: seq<int>): (m: int)
    requires s != []
    ensures m in s && forall i :: 0 <= i < |s| ==> s[i] <= m
  {
    if |s| == 1 then s[0]
    else
      var t := Max(s[1..]);
      assert forall i :: 1 <= i < |s| ==> s[i] == s[1..][i - 1];
      if s[0] >= t then s[0] else t
  }

  /** A position holding the maximum. */
  lemma MaxAt(s: seq<int>) returns (i: nat)
    requires s != []
    ensures i < |s| && s[i] == Max(s)
  {
    i :| 0 <= i < |s| && s[i] == Max(s);
  }

  function Min(s: seq<int>): (m: int)
    requires s != []
    ensures m in s && forall i :: 0 <= i < |s| ==> m <= s[i]
  {
    if |s| == 1 then s[0]
    else
      var t := Min(s[1..]);
      assert forall i :: 1 <= i < |s| ==> s[i] == s[1..][i - 1];
      if s[0] <= t then s[0] else t
  }

  function Square(d: int): int {
    d * d
  }

  // ---------------------------------------------------------------------
  // Column heights
  // ---------------------------------------------------------------------

  /** Height of a column: the number of rows from its topmost non-empty
      cell down to the floor, 0 for an empty column. */
  function Height(c: seq<int>): (h: nat)
    ensures h <= |c|
    ensures h > 0 ==> c[|c| - h] != 0
    ensures forall y :: 0 <= y < |c| - h ==> c[y] == 0
  {
    if c == [] then 0
    else if c[0] != 0 then |c|
    else
      var h := Height(c[1..]);
      assert forall y :: 1 <= y < |c| ==> c[y] == c[1..][y - 1];
      h
  }

  function Heights(b: Board, cols: nat): (hs: seq<int>)
    requires IsBoard(b, |b|, cols)
    ensures |hs| == cols
    ensures forall x :: 0 <= x < cols ==> 0 <= hs[x] <= |b|
  {
    seq(cols, x requires 0 <= x < cols => Height(Column(b, x)))
  }

  /** The tallest column is as high as the topmost non-empty row is from
      the floor: the stack height used by the mode switch is the largest
      column height. */
  lemma StackHeightIsMaxHeight(b: Board, cols: nat)
    requires Shaped(b, cols)
    ensures StackHeight(b) == Max(Heights(b, cols))
  {
    StackWithinMax(b, cols);
    MaxWithinStack(b, cols);
  }

  /** The column through a cell of the topmost occupied row is as high as
      the stack. */
  lemma StackWithinMax(b: Board, cols: nat)
    requires Shaped(b, cols)
    ensures StackHeight(b) <= Max(Heights(b, cols))
  {
    var hs := Heights(b, cols);
    var s := StackHeight(b);
    if s > 0 {
      var y := |b| - s;
      assert Occupied(b[y]);
      var x :| 0 <= x < cols && b[y][x] != 0;
      assert Column(b, x)[y] != 0;
      assert hs[x] >= s;
    }
  }

  /** The top cell of the tallest column lies in an occupied row. */
  lemma MaxWithinStack(b: Board, cols: nat)
    requires Shaped(b, cols)
    ensures Max(Heights(b, cols)) <= StackHeight(b)
  {
    var x := MaxAt(Heights(b, cols));
    HeightWithinStack(b, cols, x);
  }

  lemma HeightWithinStack(b: Board, cols: nat, x: nat)
    requires Shaped(b, cols) && x < cols
    ensures Heights(b, cols)[x] <= StackHeight(b)
  {
    var h := Heights(b, cols)[x];
    if h > 0 {
      ColumnTop(b, cols, x);
      BelowStack(b, |b| - h, x);
    }
  }

  /** A column of height h has a non-empty cell h rows above the floor. */
  lemma ColumnTop(b: Board, cols: nat, x: nat)
    requires Shaped(b, cols) && x < cols && Heights(b, cols)[x] > 0
    ensures b[|b| - Heights(b, cols)[x]][x] != 0
  {
    var c := Column(b, x);
    assert Heights(b, cols)[x] == Height(c);
    assert c[|b| - Height(c)] != 0;
  }

  /** A non-empty cell lies within the stack. */
  lemma BelowStack(b: Board, y: nat, x: nat)
    requires y < |b| && x < |b[y]| && b[y][x] != 0
    ensures |b| - y <= StackHeight(b)
  {
  }

  // ---------------------------------------------------------------------
  // Transitions
  // ---------------------------------------------------------------------

  function Filled(v: int): bool {
    v > 0
  }

  /** Adjacent pairs whose filled-ness differs. */
  function Changes(c: seq<int>): nat {
    if |c| < 2 then 0
    else (if Filled(c[0]) != Filled(c[1]) then 1 else 0) + Changes(c[1..])
  }

  /** Per row: filled-ness changes along the row, plus one for an empty
      cell at each wall. */
  function RowTransitions(b: Board): nat
    requires forall y :: 0 <= y < |b| ==> |b[y]| > 0
  {
    if b == [] then 0
    else
      var row := b[0];
      Changes(row) + (if row[0] == 0 then 1 else 0) + (if row[|row| - 1] == 0 then 1 else 0)
      + RowTransitions(b[1..])
  }

  /** Per column from `x` on: filled-ness changes down the column, plus
      one for an empty bottom cell. */
  function ColTransitions(b: Board, cols: nat, x: nat): nat
    requires |b| > 0 && IsBoard(b, |b|, cols) && x <= cols
    decreases cols - x
  {
    if x == cols then 0
    else Changes(Column(b, x)) + (if b[|b| - 1][x] == 0 then 1 else 0) + ColTransitions(b, cols, x + 1)
  }

  // ---------------------------------------------------------------------
  // Holes
  // ---------------------------------------------------------------------

  /** Holes of a column and, for each hole, the filled cells above it. */
  datatype HoleStats = HoleStats(holes: nat, covered: nat)

  /** Walk down a column having seen `above` filled cells so far: an empty
      cell under at least one filled cell is a hole. */
  function ColumnHoles(c: seq<int>, above: nat): HoleStats {
    if c == [] then HoleStats(0, 0)
    else if Filled(c[0]) then ColumnHoles(c[1..], above + 1)
    else if above > 0 then
      var r := ColumnHoles(c[1..], above);
      HoleStats(r.holes + 1, r.covered + above)
    else ColumnHoles(c[1..], 0)
  }

  function FilledCount(c: seq<int>): nat {
    if c == [] then 0 else (if Filled(c[0]) then 1 else 0) + FilledCount(c[1..])
  }

  predicate NonNegative(c: seq<int>) {
    forall i :: 0 <= i < |c| ==> c[i] >= 0
  }

  /** Under a filled cell every empty cell is a hole. */
  lemma {:induction false} HolesUnderCover(c: seq<int>, above: nat)
    requires above > 0
    ensures ColumnHoles(c, above).holes + FilledCount(c) == |c|
  {
    if c != [] {
      HolesUnderCover(c[1..], if Filled(c[0]) then above + 1 else above);
    }
  }

  /** The holes of a column are exactly its empty cells below its top: the
      column height minus the filled cells. */
  lemma {:induction false} HolesAreEmptyCellsBelowTop(c: seq<int>)
    requires NonNegative(c)
    ensures ColumnHoles(c, 0).holes == Height(c) - FilledCount(c)
  {
    if c != [] {
      if Filled(c[0]) {
        HolesUnderCover(c[1..], 1);
      } else {
        assert c[0] == 0;
        assert NonNegative(c[1..]) by {
          forall i | 0 <= i < |c[1..]|
            ensures c[1..][i] >= 0
          {
            assert c[1..][i] == c[i + 1];
          }
        }
        HolesAreEmptyCellsBelowTop(c[1..]);
      }
    }
  }

  function HoleTotals(b: Board, cols: nat, x: nat): HoleStats
    requires IsBoard(b, |b|, cols) && x <= cols
    decreases cols - x
  {
    if x == cols then HoleStats(0, 0)
    else
      var here := ColumnHoles(Column(b, x), 0);
      var rest := HoleTotals(b, cols, x + 1);
      HoleStats(here.holes + rest.holes, here.covered + rest.covered)
  }

  // ---------------------------------------------------------------------
  // Wells
  // ---------------------------------------------------------------------

  /** How far column `x` lies below the lower of its neighbours (a wall
      counts as `rows` high); positive for a well. */
  function WellDepth(hs: seq<int>, rows: int, x: nat): int
    requires x < |hs|
  {
    var l := if x > 0 then hs[x - 1] else rows;
    var r := if x < |hs| - 1 then hs[x + 1] else rows;
    (if l <= r then l else r) - hs[x]
  }

  /** Sum of the depths of all wells from column `x` on. */
  function WellDepths(hs: seq<int>, rows: int, x: nat): int
    requires x <= |hs|
    decreases |hs| - x
  {
    if x == |hs| then 0
    else
      var d := WellDepth(hs, rows, x);
      (if d > 0 then d else 0) + WellDepths(hs, rows, x + 1)
  }

  /** Sum of squared depths of the wells from column `x` on, leaving out
      the rightmost column. */
  function SideWells(hs: seq<int>, rows: int, x: nat): int
    requires x <= |hs|
    decreases |hs| - x
  {
    if x == |hs| then 0
    else
      var d := WellDepth(hs, rows, x);
      (if d > 0 && x != |hs| - 1 then Square(d) else 0) + SideWells(hs, rows, x + 1)
  }

  // ---------------------------------------------------------------------
  // The left thirteen columns
  // ---------------------------------------------------------------------

  /** Rows whose cells left of the rightmost column are all non-empty. */
  function LeftFullRows(b: Board, cols: nat): nat
    requires cols >= 1 && IsBoard(b, |b|, cols)
  {
    if b == [] then 0
    else (if Full(b[0][..cols - 1]) then 1 else 0) + LeftFullRows(b[1..], cols)
  }

  /** Per row, the square of its filled cells left of the rightmost column,
      times 1000. */
  function RowIntegrity(b: Board, cols: nat): int
    requires cols >= 1 && IsBoard(b, |b|, cols)
  {
    if b == [] then 0
    else Square(FilledCount(b[0][..cols - 1])) * 1000 + RowIntegrity(b[1..], cols)
  }

  /** Penalty for an uneven left side: the spread beyond one row, and the
      squared gap of every column below the tallest. */
  function LowPointPenalty(left: seq<int>): int
    requires left != []
  {
    var mx := Max(left);
    var mn := Min(left);
    (if mx - mn > 1 then (mx - mn) * 50000 else 0) + GapSquares(left, mx) * 30000
  }

  function GapSquares(left: seq<int>, mx: int): int {
    if left == [] then 0
    else (if left[0] < mx then Square(mx - left[0]) else 0) + GapSquares(left[1..], mx)
  }

  /** Squared height differences of neighbouring columns. */
  function Bumpiness(hs: seq<int>): int {
    if |hs| < 2 then 0
    else Square(hs[0] - hs[1]) + Bumpiness(hs[1..])
  }

  // ---------------------------------------------------------------------
  // Line and landing terms
  // ---------------------------------------------------------------------

  /** The line bonus table of each mode. */
  function LineBonus(lines: nat, highRisk: bool): int
    requires lines <= 4
  {
    if highRisk then [0, 20000, 50000, 120000, 400000][lines]
    else [0, -5000, 5000, 20000, 1000000][lines]
  }

  /** The 800000 fine on clearing one to three lines while the left side
      has fewer than three complete rows, in normal mode and when no column
      is above 6. */
  function StackBuildingPenalty(lines: nat, leftFull: nat, highRisk: bool, maxH: int): int {
    if 0 < lines < 4 && leftFull < 3 && !highRisk && !(maxH > 6) then 800000 else 0
  }

  function LandingPenalty(rows: int, landing: Option<int>): int {
    if landing.Some? then (rows - landing.value) * 200 else 0
  }

  // ---------------------------------------------------------------------
  // Well reward and penalty
  // ---------------------------------------------------------------------

  datatype WellTerms = WellTerms(reward: int, penalty: int)

  /** In high-risk mode every well is penalised. In normal mode the
      rightmost column is meant to be the one well: a lower rightmost column
      is rewarded, a higher one penalised while the left side is low and
      unprepared (and otherwise rewarded heavily), other wells are penalised
      by their squared depth, and a rightmost column rising above the lowest
      left column by more than two is penalised. */
  function WellScore(hs: seq<int>, rows: int, highRisk: bool, leftFull: nat): WellTerms
    requires |hs| >= 2
  {
    if highRisk then WellTerms(0, WellDepths(hs, rows, 0) * 1000)
    else
      var cols := |hs|;
      var left := hs[..cols - 1];
      var leftMax := Max(left);
      var leftMin := Min(left);
      var h13 := hs[cols - 2];
      var h14 := hs[cols - 1];
      var emergency := leftMax > 6;
      var rightReward :=
        if h13 > h14 then
          var depth := h13 - h14;
          var eff := if depth <= leftMax + 1 then depth else leftMax + 1;
          Square(eff) * 20000 + 100000
        else if h14 > h13 && !(leftFull < 6 && !emergency) then (h14 - h13) * 200000 + 5000000
        else 0;
      var rightPenalty := if h14 > h13 && leftFull < 6 && !emergency then (h14 - h13) * 400000 else 0;
      var blocked :=
        if h14 > leftMin + 2 then (h14 - leftMin) * (if emergency then 1000 else 10000) else 0;
      WellTerms(rightReward, rightPenalty + SideWells(hs, rows, 0) * 100000 + blocked)
  }

  // ---------------------------------------------------------------------
  // The evaluator
  // ---------------------------------------------------------------------

  /** High-risk mode weighs the height terms and holes 60 times more. */
  function HeightWeight(v: int, highRisk: bool): int {
    if highRisk then v * 60 else v
  }

  /** Score of a board after a placement that cleared `lines` lines and
      landed at row `landing`. */
  function Evaluate(b: Board, cols: nat, lines: nat, highRisk: bool, landing: Option<int>): int
    requires Shaped(b, cols) && lines <= 4
  {
    var rows := |b|;
    var hs := Heights(b, cols);
    var left := hs[..cols - 1];
    var leftFull := LeftFullRows(b, cols);
    var wells := WellScore(hs, rows, highRisk, leftFull);
    var holes := HoleTotals(b, cols, 0);
    var maxH := Max(hs);
    LineBonus(lines, highRisk)
    + wells.reward
    + RowIntegrity(b, cols)
    - HeightWeight(Sum(hs) * 60, highRisk)
    - RowTransitions(b) * 3000
    - ColTransitions(b, cols, 0) * 3000
    - Bumpiness(left) * 300
    - LowPointPenalty(left)
    - StackBuildingPenalty(lines, leftFull, highRisk, maxH)
    - HeightWeight(holes.holes * 5000000, highRisk)
    - holes.covered * 500000
    - wells.penalty
    - HeightWeight(maxH * 800, highRisk)
    - LandingPenalty(rows, landing)
  }

  /** The landing row enters the score only through its distance to the
      floor, at 200 per row: every other term is the same as with no
      landing row at all. */
  lemma LandingOnlyShiftsScore(b: Board, cols: nat, lines: nat, highRisk: bool, y: int)
    requires Shaped(b, cols) && lines <= 4
    ensures Evaluate(b, cols, lines, highRisk, Some(y)) == Evaluate(b, cols, lines, highRisk, None) - (|b| - y) * 200
  {
  }

  /** Landing one row lower scores exactly 200 more. */
  lemma LowerLandingScoresMore(b: Board, cols: nat, lines: nat, highRisk: bool, y: int)
    requires Shaped(b, cols) && lines <= 4
    ensures Evaluate(b, cols, lines, highRisk, Some(y + 1)) == Evaluate(b, cols, lines, highRisk, Some(y)) + 200
  {
  }

  /** In high-risk mode, on the same resulting board, clearing more lines
      always scores more. */
  lemma HighRiskPrefersMoreLines(b: Board, cols: nat, n1: nat, n2: nat, landing: Option<int>)
    requires Shaped(b, cols) && n1 < n2 <= 4
    ensures Evaluate(b, cols, n1, true, landing) < Evaluate(b, cols, n2, true, landing)
  {
    assert LineBonus(n1, true) < LineBonus(n2, true);
  }

  /** In normal mode, on the same resulting board, four lines beat any
      smaller clear. */
  lemma NormalModePrefersFourLines(b: Board, cols: nat, n: nat, landing: Option<int>)
    requires Shaped(b, cols) && n < 4
    ensures Evaluate(b, cols, n, false, landing) < Evaluate(b, cols, 4, false, landing)
  {
    NormalBonusBelowFour(n);
  }

  /** In normal mode a single line scores below no clear at all on the
      same resulting board. */
  lemma NormalModeAvoidsSingles(b: Board, cols: nat, landing: Option<int>)
    requires Shaped(b, cols)
    ensures Evaluate(b, cols, 1, false, landing) < Evaluate(b, cols, 0, false, landing)
  {
    SingleBelowNone(LeftFullRows(b, cols), Max(Heights(b, cols)));
  }

  lemma SingleBelowNone(leftFull: nat, maxH: int)
    ensures LineBonus(1, false) - StackBuildingPenalty(1, leftFull, false, maxH)
            < LineBonus(0, false) - StackBuildingPenalty(0, leftFull, false, maxH)
  {
  }

  lemma NormalBonusBelowFour(n: nat)
    requires n < 4
    ensures LineBonus(n, false) <= 20000
  {
  }

  // ---------------------------------------------------------------------
  // Mode hysteresis
  // ---------------------------------------------------------------------

  /** The row holds some non-empty cell. */
  predicate Occupied(row: Row) {
    exists x :: 0 <= x < |row| && row[x] != 0
  }

  /** Height of the stack: rows from the topmost row holding any non-empty
      cell down to the floor; 0 for an empty board. */
  function StackHeight(b: Board): (h: nat)
    ensures h <= |b|
    ensures h > 0 ==> Occupied(b[|b| - h])
    ensures forall y, x :: 0 <= y < |b| - h && 0 <= x < |b[y]| ==> b[y][x] == 0
  {
    if b == [] then 0
    else if Occupied(b[0]) then |b|
    else
      var h := StackHeight(b[1..]);
      assert forall y :: 1 <= y < |b| ==> b[y] == b[1..][y - 1];
      h
  }

  /** The evaluator switches to high-risk mode when the stack is above
      half of the 30 rows, back to normal below 6, and otherwise keeps its
      mode. */
  function NextMode(b: Board, highRisk: bool): (r: bool)
    ensures StackHeight(b) > 15 ==> r
    ensures StackHeight(b) < 6 ==> !r
    ensures 6 <= StackHeight(b) <= 15 ==> r == highRisk
  {
    var h := StackHeight(b);
    if h > 15 then true else if h < 6 then false else highRisk
  }
}
