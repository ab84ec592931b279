/**
 The playfield shared by both games: a grid of small integers (0 = empty),
 piece matrices, the collision oracle, rotation, the downward landing probe,
 stamping a piece into the grid and removing full rows.

 Row 0 is the top of the board; rows above it (negative rows) are open sky.
 Sizes are parameters, so the 30x14 main board and the 20x10 LCD board use
 the same definitions.
 */
module Grid {
  import opened Wrappers

  type Row = seq<int>
  type Board = seq<Row>
  type Matrix = seq<seq<int>>

  datatype Pos = Pos(x: int, y: int)

  function Shift(p: Pos, d: Pos): Pos {
    Pos(p.x + d.x, p.y + d.y)
  }

  predicate IsBoard(b: Board, rows: nat, cols: nat) {
    |b| == rows && forall r :: 0 <= r < |b| ==> |b[r]| == cols
  }

  /** Every cell of `g` lies in `lo..hi`. */
  predicate CellsWithin(g: seq<seq<int>>, lo: int, hi: int) {
    forall r, c :: 0 <= r < |g| && 0 <= c < |g[r]| ==> lo <= g[r][c] <= hi
  }

  /** A non-empty rectangular matrix. */
  predicate IsMatrix(m: Matrix) {
    |m| > 0 && |m[0]| > 0 && forall r :: 0 <= r < |m| ==> |m[r]| == |m[0]|
  }

  /** The matrix has at least one non-empty cell. */
  predicate HasCell(m: Matrix) {
    exists r, c :: 0 <= r < |m| && 0 <= c < |m[r]| && m[r][c] != 0
  }

  function EmptyRow(cols: nat): Row {
    seq(cols, _ => 0)
  }

  function EmptyBoard(rows: nat, cols: nat): (b: Board)
    ensures IsBoard(b, rows, cols)
  {
    seq(rows, _ => EmptyRow(cols))
  }

  // ---------------------------------------------------------------------
  // Collision
  // ---------------------------------------------------------------------

  /** A board cell that a piece cell may not occupy: at or below the floor,
      outside the side walls, or an occupied cell at row >= 0. Cells above
      the top row are never blocked. */
  predicate Blocked(b: Board, rows: nat, cols: nat, ay: int, ax: int)
    requires IsBoard(b, rows, cols)
  {
    ay >= rows || ax < 0 || ax >= cols || (ay >= 0 && b[ay][ax] != 0)
  }

  /** Some non-empty cell of `m`, placed with its top-left corner at `p`,
      lands on a blocked board cell. */
  predicate Collides(b: Board, rows: nat, cols: nat, p: Pos, m: Matrix)
    requires IsBoard(b, rows, cols)
  {
    exists r, c :: 0 <= r < |m| && 0 <= c < |m[r]| && m[r][c] != 0 && Blocked(b, rows, cols, p.y + r, p.x + c)
  }

  /** The row-by-row scan of the game's collision test, which returns at
      the first blocked cell. */
  method CheckCollision(b: Board, rows: nat, cols: nat, p: Pos, m: Matrix) returns (hit: bool)
    requires IsBoard(b, rows, cols)
    ensures hit <==> Collides(b, rows, cols, p, m)
  {
    var y := 0;
    while y < |m|
      invariant 0 <= y <= |m|
      invariant forall r, c :: 0 <= r < y && 0 <= c < |m[r]| && m[r][c] != 0 ==> !Blocked(b, rows, cols, p.y + r, p.x + c)
    {
      var x := 0;
      while x < |m[y]|
        invariant 0 <= x <= |m[y]|
        invariant forall r, c :: 0 <= r < y && 0 <= c < |m[r]| && m[r][c] != 0 ==> !Blocked(b, rows, cols, p.y + r, p.x + c)
        invariant forall c :: 0 <= c < x && m[y][c] != 0 ==> !Blocked(b, rows, cols, p.y + y, p.x + c)
      {
        if m[y][x] != 0 {
          var ay, ax := y + p.y, x + p.x;
          if ay >= rows || ax < 0 || ax >= cols || (ay >= 0 && b[ay][ax] != 0) {
            return true;
          }
        }
        x := x + 1;
      }
      y := y + 1;
    }
    return false;
  }

  /** A piece pushed to or below the floor always collides. */
  lemma FloorCollides(b: Board, rows: nat, cols: nat, p: Pos, m: Matrix)
    requires IsBoard(b, rows, cols) && HasCell(m) && p.y >= rows
    ensures Collides(b, rows, cols, p, m)
  {
    var r, c :| 0 <= r < |m| && 0 <= c < |m[r]| && m[r][c] != 0;
    assert Blocked(b, rows, cols, p.y + r, p.x + c);
  }

  /** Every non-empty cell of the piece is inside the side walls and above
      the floor (it may stick out above the top). */
  predicate WithinWalls(rows: nat, cols: nat, p: Pos, m: Matrix) {
    forall r, c :: 0 <= r < |m| && 0 <= c < |m[r]| && m[r][c] != 0 ==> p.y + r < rows && 0 <= p.x + c < cols
  }

  /** A piece that does not collide is within the walls. */
  lemma FreeWithinWalls(b: Board, rows: nat, cols: nat, p: Pos, m: Matrix)
    requires IsBoard(b, rows, cols) && !Collides(b, rows, cols, p, m)
    ensures WithinWalls(rows, cols, p, m)
  {
    forall r, c | 0 <= r < |m| && 0 <= c < |m[r]| && m[r][c] != 0
      ensures p.y + r < rows && 0 <= p.x + c < cols
    {
      assert !Blocked(b, rows, cols, p.y + r, p.x + c);
    }
  }

  /** Above the top row only the walls block, so a piece entirely above the
      board collides one row higher exactly when it collides where it is.
      Hence when a piece collides but fits one row up, one of its rows
      reaches the board: the raised piece starts at most `|m|` rows above
      row 0. */
  lemma RaiseNeedsBoard(b: Board, rows: nat, cols: nat, p: Pos, m: Matrix)
    requires IsBoard(b, rows, cols)
    requires Collides(b, rows, cols, p, m) && !Collides(b, rows, cols, Pos(p.x, p.y - 1), m)
    ensures p.y - 1 >= -|m|
  {
  }

  /** A piece within the side walls one row up that collides where it is
      has a cell on or below row 0 there: above the board nothing but a
      wall blocks. So one row up it starts at most `|m|` rows above row 0. */
  lemma WalledHitReachesBoard(b: Board, rows: nat, cols: nat, p: Pos, m: Matrix)
    requires IsBoard(b, rows, cols)
    requires WithinWalls(rows, cols, Pos(p.x, p.y - 1), m) && Collides(b, rows, cols, p, m)
    ensures p.y - 1 >= -|m|
  {
    var r, c :| 0 <= r < |m| && 0 <= c < |m[r]| && m[r][c] != 0 && Blocked(b, rows, cols, p.y + r, p.x + c);
    assert 0 <= p.x + c < cols;
  }

  // ---------------------------------------------------------------------
  // Rotation
  // ---------------------------------------------------------------------

  function Transpose(m: Matrix): (t: Matrix)
    requires IsMatrix(m)
    ensures IsMatrix(t) && |t| == |m[0]| && |t[0]| == |m|
  {
    seq(|m[0]|, i requires 0 <= i < |m[0]| => seq(|m|, j requires 0 <= j < |m| => m[j][i]))
  }

  function Reverse<T>(s: seq<T>): (r: seq<T>)
    ensures |r| == |s|
  {
    seq(|s|, i requires 0 <= i < |s| => s[|s| - 1 - i])
  }

  function ReverseEachRow(m: Matrix): (r: Matrix)
    ensures |r| == |m|
  {
    seq(|m|, i requires 0 <= i < |m| => Reverse(m[i]))
  }

  /** Transpose, then reverse every row when `dir > 0` (a clockwise quarter
      turn) or reverse the row order otherwise (counter-clockwise). */
  function Rotate(m: Matrix, dir: int): (r: Matrix)
    requires IsMatrix(m)
    ensures IsMatrix(r) && |r| == |m[0]| && |r[0]| == |m|
  {
    var t := Transpose(m);
    if dir > 0 then ReverseEachRow(t) else Reverse(t)
  }

  /** Where each cell of a turned matrix comes from. */
  lemma RotateAt(m: Matrix, dir: int)
    requires IsMatrix(m)
    ensures var r := Rotate(m, dir);
      dir > 0 ==> forall i, j :: 0 <= i < |r| && 0 <= j < |r[i]| ==> r[i][j] == m[|m| - 1 - j][i]
    ensures var r := Rotate(m, dir);
      dir <= 0 ==> forall i, j :: 0 <= i < |r| && 0 <= j < |r[i]| ==> r[i][j] == m[j][|m[0]| - 1 - i]
  {
  }

  /** A counter-clockwise turn undoes a clockwise one. */
  lemma RotateRoundTrip(m: Matrix)
    requires IsMatrix(m)
    ensures Rotate(Rotate(m, 1), -1) == m
  {
    var r := Rotate(Rotate(m, 1), -1);
    assert |r| == |m|;
    forall i | 0 <= i < |m|
      ensures r[i] == m[i]
    {
      assert |r[i]| == |m[i]|;
    }
  }

  /** Two clockwise turns map cell (i, j) to the point-mirrored cell. */
  lemma HalfTurn(m: Matrix)
    requires IsMatrix(m)
    ensures var h := Rotate(Rotate(m, 1), 1);
      IsMatrix(h) && |h| == |m| && |h[0]| == |m[0]| &&
      forall i, j :: 0 <= i < |h| && 0 <= j < |h[i]| ==> h[i][j] == m[|m| - 1 - i][|m[0]| - 1 - j]
  {
  }

  /** Four clockwise turns give the original matrix back. */
  lemma RotateFourTimes(m: Matrix)
    requires IsMatrix(m)
    ensures Rotate(Rotate(Rotate(Rotate(m, 1), 1), 1), 1) == m
  {
    var h := Rotate(Rotate(m, 1), 1);
    HalfTurn(m);
    HalfTurn(h);
    var r4 := Rotate(Rotate(h, 1), 1);
    forall i | 0 <= i < |m|
      ensures r4[i] == m[i]
    {
      assert |r4[i]| == |m[i]|;
    }
  }

  /** The search's `zip(*m[::-1])` (reverse the rows, then transpose) is the
      same clockwise turn. */
  lemma ZipRotationIsClockwise(m: Matrix)
    requires IsMatrix(m)
    ensures IsMatrix(Reverse(m)) && Transpose(Reverse(m)) == Rotate(m, 1)
  {
    var rv := Reverse(m);
    assert forall r :: 0 <= r < |rv| ==> |rv[r]| == |m[0]|;
    var t := Transpose(rv);
    var c := Rotate(m, 1);
    forall i | 0 <= i < |t|
      ensures t[i] == c[i]
    {
      assert |t[i]| == |c[i]|;
    }
  }

  /** Turning a matrix keeps its non-empty cells (so a turned piece still has one). */
  lemma RotateKeepsCell(m: Matrix, dir: int)
    requires IsMatrix(m) && HasCell(m)
    ensures HasCell(Rotate(m, dir))
  {
    var r, c :| 0 <= r < |m| && 0 <= c < |m[r]| && m[r][c] != 0;
    var t := Rotate(m, dir);
    if dir > 0 {
      assert t[c][|m| - 1 - r] == m[r][c];
    } else {
      assert t[|m[0]| - 1 - c][r] == m[r][c];
    }
  }

  /** Turning a matrix keeps every cell inside `lo..hi`. */
  lemma RotateKeepsCells(m: Matrix, dir: int, lo: int, hi: int)
    requires IsMatrix(m) && CellsWithin(m, lo, hi)
    ensures CellsWithin(Rotate(m, dir), lo, hi)
  {
  }

  // ---------------------------------------------------------------------
  // Kicks and landing
  // ---------------------------------------------------------------------

  /** Index of the first offset at which the matrix fits, trying the offsets
      in order. */
  function FirstFit(b: Board, rows: nat, cols: nat, p: Pos, m: Matrix, offsets: seq<Pos>): (k: Option<nat>)
    requires IsBoard(b, rows, cols)
    ensures k.Some? ==> k.value < |offsets| && !Collides(b, rows, cols, Shift(p, offsets[k.value]), m)
    ensures k.Some? ==> forall j :: 0 <= j < k.value ==> Collides(b, rows, cols, Shift(p, offsets[j]), m)
    ensures k.None? ==> forall j :: 0 <= j < |offsets| ==> Collides(b, rows, cols, Shift(p, offsets[j]), m)
  {
    if offsets == [] then None
    else if !Collides(b, rows, cols, Shift(p, offsets[0]), m) then Some(0)
    else
      match FirstFit(b, rows, cols, p, m, offsets[1..])
      case None => None
      case Some(k) => Some(k + 1)
  }

  /** The downward probe used by hard drop, the ghost piece and the search:
      step down from row `y` while the piece fits, and report the last row
      before the first collision (`y - 1` when row `y` already collides). */
  function LandingRow(b: Board, rows: nat, cols: nat, x: int, y: int, m: Matrix): (ly: int)
    requires IsBoard(b, rows, cols) && HasCell(m)
    ensures ly >= y - 1
    ensures Collides(b, rows, cols, Pos(x, ly + 1), m)
    ensures forall k :: y <= k <= ly ==> !Collides(b, rows, cols, Pos(x, k), m)
    decreases rows - y
  {
    if Collides(b, rows, cols, Pos(x, y), m) then y - 1
    else
      if y >= rows then FloorCollides(b, rows, cols, Pos(x, y), m); y - 1
      else LandingRow(b, rows, cols, x, y + 1, m)
  }

  // ---------------------------------------------------------------------
  // Stamping a piece into the board
  // ---------------------------------------------------------------------

  /** The non-empty matrix cell of a piece at `p` that covers board cell (y, x). */
  predicate Covers(m: Matrix, p: Pos, y: int, x: int) {
    0 <= y - p.y < |m| && 0 <= x - p.x < |m[y - p.y]| && m[y - p.y][x - p.x] != 0
  }

  /** Every non-empty cell of the piece lies on the board. */
  predicate InsideBoard(rows: nat, cols: nat, p: Pos, m: Matrix) {
    forall r, c :: 0 <= r < |m| && 0 <= c < |m[r]| && m[r][c] != 0 ==> 0 <= p.y + r < rows && 0 <= p.x + c < cols
  }

  /** Write the non-empty cells of `m` at `p` into a copy of the board;
      cells that fall outside the board are dropped. */
  function Place(b: Board, rows: nat, cols: nat, p: Pos, m: Matrix): (r: Board)
    requires IsBoard(b, rows, cols)
    ensures IsBoard(r, rows, cols)
    ensures forall i, j :: 0 <= i < |m| && 0 <= j < |m[i]| && m[i][j] != 0 && 0 <= p.y + i < rows && 0 <= p.x + j < cols ==>
      r[p.y + i][p.x + j] == m[i][j]
    ensures forall y, x :: 0 <= y < rows && 0 <= x < cols && !Covers(m, p, y, x) ==> r[y][x] == b[y][x]
  {
    seq(rows, y requires 0 <= y < rows =>
      seq(cols, x requires 0 <= x < cols =>
        if Covers(m, p, y, x) then m[y - p.y][x - p.x] else b[y][x]))
  }

  /** Stamping keeps the cell range when the matrix is within it. */
  lemma PlaceKeepsCells(b: Board, rows: nat, cols: nat, p: Pos, m: Matrix, lo: int, hi: int)
    requires IsBoard(b, rows, cols) && CellsWithin(b, lo, hi) && CellsWithin(m, lo, hi)
    ensures CellsWithin(Place(b, rows, cols, p, m), lo, hi)
  {
    var r := Place(b, rows, cols, p, m);
    forall y, x | 0 <= y < |r| && 0 <= x < |r[y]|
      ensures lo <= r[y][x] <= hi
    {
      if Covers(m, p, y, x) {
        assert r[y][x] == m[y - p.y][x - p.x];
      }
    }
  }

  /** The non-empty matrix cell at row `i`, column `j`. */
  predicate Filled(m: Matrix, i: int, j: int) {
    0 <= i < |m| && 0 <= j < |m[i]| && m[i][j] != 0
  }

  /** An index a Python list of length `n` accepts: `-n <= k < n`. */
  predicate PyIndex(k: int, n: nat) {
    0 <= k + n && k < n
  }

  /** The element a Python index reaches: a negative index counts from the end. */
  function Wrap(k: int, n: nat): (w: nat)
    requires PyIndex(k, n)
    ensures w < n && (w == k || w == k + n)
  {
    if k < 0 then k + n else k
  }

  /** Every non-empty cell of the piece has a row and a column index that a
      Python list of the board's size accepts. */
  predicate Lockable(rows: nat, cols: nat, p: Pos, m: Matrix) {
    forall i, j :: 0 <= i < |m| && 0 <= j < |m[i]| && m[i][j] != 0 ==> PyIndex(p.y + i, rows) && PyIndex(p.x + j, cols)
  }

  /** A non-empty matrix cell whose Python index is board cell (y, x): its
      row index is y or y - rows and its column index x or x - cols. */
  predicate StampHits(rows: nat, cols: nat, p: Pos, m: Matrix, y: int, x: int) {
    || Filled(m, y - p.y, x - p.x) || Filled(m, y - p.y, x - cols - p.x)
    || Filled(m, y - rows - p.y, x - p.x) || Filled(m, y - rows - p.y, x - cols - p.x)
  }

  /** The value board cell (y, x) ends with. The writes go in row-major
      order, so of the matrix cells that reach (y, x) the one with the
      larger row offset wins, then the one with the larger column offset. */
  function StampedCell(b: Board, rows: nat, cols: nat, p: Pos, m: Matrix, y: nat, x: nat): int
    requires IsBoard(b, rows, cols) && y < rows && x < cols
  {
    var i1, i2 := y - p.y, y - rows - p.y;
    var j1, j2 := x - p.x, x - cols - p.x;
    if Filled(m, i1, j1) then m[i1][j1]
    else if Filled(m, i1, j2) then m[i1][j2]
    else if Filled(m, i2, j1) then m[i2][j1]
    else if Filled(m, i2, j2) then m[i2][j2]
    else b[y][x]
  }

  /** Write the non-empty cells of `m` at `p` into a copy of the board the
      way a Python `board[y][x] = v` does: a negative row or column index
      counts from the far end. A cell whose index Python would reject (more
      than a board height above the top, or a board width off a side)
      reaches no board cell. */
  function Stamp(b: Board, rows: nat, cols: nat, p: Pos, m: Matrix): (r: Board)
    requires IsBoard(b, rows, cols)
    ensures IsBoard(r, rows, cols)
    ensures forall y, x :: 0 <= y < rows && 0 <= x < cols && !StampHits(rows, cols, p, m, y, x) ==> r[y][x] == b[y][x]
  {
    seq(rows, y requires 0 <= y < rows =>
      seq(cols, x requires 0 <= x < cols => StampedCell(b, rows, cols, p, m, y, x)))
  }

  /** When the matrix is no larger than the board, every non-empty cell
      with accepted indices lands at its wrapped position: a cell in row -1
      lands in the bottom row. */
  lemma StampWrites(b: Board, rows: nat, cols: nat, p: Pos, m: Matrix, i: int, j: int)
    requires IsBoard(b, rows, cols) && |m| <= rows && forall k :: 0 <= k < |m| ==> |m[k]| <= cols
    requires Filled(m, i, j) && PyIndex(p.y + i, rows) && PyIndex(p.x + j, cols)
    ensures Stamp(b, rows, cols, p, m)[Wrap(p.y + i, rows)][Wrap(p.x + j, cols)] == m[i][j]
  {
    var y, x := Wrap(p.y + i, rows), Wrap(p.x + j, cols);
    assert Stamp(b, rows, cols, p, m)[y][x] == StampedCell(b, rows, cols, p, m, y, x);
    if p.y + i >= 0 {
      assert !Filled(m, y - p.y + rows, 0);
    }
  }

  /** For a piece inside the board no index wraps, and the Python-style
      stamp is the plain one. */
  lemma StampInside(b: Board, rows: nat, cols: nat, p: Pos, m: Matrix)
    requires IsBoard(b, rows, cols) && InsideBoard(rows, cols, p, m)
    ensures Stamp(b, rows, cols, p, m) == Place(b, rows, cols, p, m)
  {
    var s, q := Stamp(b, rows, cols, p, m), Place(b, rows, cols, p, m);
    forall y | 0 <= y < rows
      ensures s[y] == q[y]
    {
      forall x | 0 <= x < cols
        ensures s[y][x] == q[y][x]
      {
        assert s[y][x] == StampedCell(b, rows, cols, p, m, y, x);
        assert !Filled(m, y - p.y, x - cols - p.x);
        assert !Filled(m, y - rows - p.y, x - p.x);
        assert !Filled(m, y - rows - p.y, x - cols - p.x);
      }
    }
  }

  /** The Python-style stamp keeps the cell range when the matrix is within it. */
  /** The stamp writes only filled cells, so an occupied cell stays
      occupied and a full row stays full. */
  lemma StampKeepsFull(b: Board, rows: nat, cols: nat, p: Pos, m: Matrix, y: nat)
    requires IsBoard(b, rows, cols) && y < rows && Full(b[y])
    ensures Full(Stamp(b, rows, cols, p, m)[y])
  {
    var r := Stamp(b, rows, cols, p, m);
    forall x | 0 <= x < |r[y]|
      ensures r[y][x] != 0
    {
      assert r[y][x] == StampedCell(b, rows, cols, p, m, y, x);
    }
  }

  lemma StampKeepsCells(b: Board, rows: nat, cols: nat, p: Pos, m: Matrix, lo: int, hi: int)
    requires IsBoard(b, rows, cols) && CellsWithin(b, lo, hi) && CellsWithin(m, lo, hi)
    ensures CellsWithin(Stamp(b, rows, cols, p, m), lo, hi)
  {
    var r := Stamp(b, rows, cols, p, m);
    forall y, x | 0 <= y < |r| && 0 <= x < |r[y]|
      ensures lo <= r[y][x] <= hi
    {
      assert r[y][x] == StampedCell(b, rows, cols, p, m, y, x);
    }
  }

  // ---------------------------------------------------------------------
  // Full rows
  // ---------------------------------------------------------------------

  /** A row with no empty cell. */
  predicate Full(row: Row) {
    forall c :: 0 <= c < |row| ==> row[c] != 0
  }

  predicate NoFullRows(b: Board) {
    forall y :: 0 <= y < |b| ==> !Full(b[y])
  }

  /** The rows that are not full, in their original order. */
  function KeepRows(b: Board): (k: Board)
    ensures |k| <= |b|
    ensures forall i :: 0 <= i < |k| ==> !Full(k[i]) && k[i] in b
  {
    if b == [] then [] else (if Full(b[0]) then [] else [b[0]]) + KeepRows(b[1..])
  }

  function CountFull(b: Board): nat {
    if b == [] then 0 else (if Full(b[0]) then 1 else 0) + CountFull(b[1..])
  }

  lemma {:induction false} KeepCount(b: Board)
    ensures |KeepRows(b)| + CountFull(b) == |b|
  {
    if b != [] {
      KeepCount(b[1..]);
    }
  }

  lemma {:induction false} KeepAppend(a: Board, b: Board)
    ensures KeepRows(a + b) == KeepRows(a) + KeepRows(b)
    ensures CountFull(a + b) == CountFull(a) + CountFull(b)
  {
    if a != [] {
      assert (a + b)[1..] == a[1..] + b;
      KeepAppend(a[1..], b);
    } else {
      assert a + b == b;
    }
  }

  /** A board without full rows keeps every row. */
  lemma {:induction false} KeepAllWhenNoneFull(b: Board)
    requires NoFullRows(b)
    ensures KeepRows(b) == b && CountFull(b) == 0
  {
    if b != [] {
      KeepAllWhenNoneFull(b[1..]);
    }
  }

  /** Number of indices of `0..n` inside `[lo, hi)`. */
  function Span(lo: int, hi: int, n: int): nat {
    var a := if lo > 0 then lo else 0;
    var z := if hi < n then hi else n;
    if z > a then z - a else 0
  }

  /** When full rows can only occur in rows [lo, hi), there are at most
      as many of them as that window has rows. */
  lemma {:induction false} CountFullWithin(b: Board, lo: int, hi: int)
    requires forall y :: 0 <= y < |b| && Full(b[y]) ==> lo <= y < hi
    ensures CountFull(b) <= Span(lo, hi, |b|)
  {
    if b != [] {
      forall y | 0 <= y < |b[1..]| && Full(b[1..][y])
        ensures lo - 1 <= y < hi - 1
      {
        assert b[1..][y] == b[y + 1];
      }
      CountFullWithin(b[1..], lo - 1, hi - 1);
    }
  }

  /** The same for two windows: at most as many full rows as the two
      windows have rows together. */
  lemma {:induction false} CountFullWithinTwo(b: Board, lo1: int, hi1: int, lo2: int, hi2: int)
    requires forall y :: 0 <= y < |b| && Full(b[y]) ==> lo1 <= y < hi1 || lo2 <= y < hi2
    ensures CountFull(b) <= Span(lo1, hi1, |b|) + Span(lo2, hi2, |b|)
  {
    if b != [] {
      forall y | 0 <= y < |b[1..]| && Full(b[1..][y])
        ensures lo1 - 1 <= y < hi1 - 1 || lo2 - 1 <= y < hi2 - 1
      {
        assert b[1..][y] == b[y + 1];
      }
      CountFullWithinTwo(b[1..], lo1 - 1, hi1 - 1, lo2 - 1, hi2 - 1);
      SpanStep(lo1, hi1, |b|);
      SpanStep(lo2, hi2, |b|);
    }
  }

  /** A window over `0..n` is row 0 (when inside it) plus the window
      shifted up by one over `0..n-1`. */
  lemma SpanStep(lo: int, hi: int, n: int)
    requires n > 0
    ensures Span(lo, hi, n) == Span(lo - 1, hi - 1, n - 1) + (if lo <= 0 < hi then 1 else 0)
  {
  }

  /** Stamping a piece no taller than the board into a board without full
      rows completes at most as many rows as the piece is tall: a full row
      must hold a piece cell, so it is one of the piece's rows, taken
      directly or wrapped round from above the top. */
  lemma StampedFullRowsWithinPiece(b: Board, rows: nat, cols: nat, p: Pos, m: Matrix)
    requires IsBoard(b, rows, cols) && NoFullRows(b) && |m| <= rows
    ensures CountFull(Stamp(b, rows, cols, p, m)) <= |m|
  {
    var sb := Stamp(b, rows, cols, p, m);
    forall y | 0 <= y < |sb| && Full(sb[y])
      ensures p.y <= y < p.y + |m| || p.y + rows <= y < p.y + rows + |m|
    {
      assert !Full(b[y]);
      var x :| 0 <= x < cols && b[y][x] == 0;
      assert sb[y][x] != 0;
      assert StampHits(rows, cols, p, m, y, x);
    }
    CountFullWithinTwo(sb, p.y, p.y + |m|, p.y + rows, p.y + rows + |m|);
  }

  function EmptyRows(k: nat, cols: nat): (e: Board)
    ensures |e| == k
    ensures forall i :: 0 <= i < k ==> e[i] == EmptyRow(cols)
  {
    seq(k, _ => EmptyRow(cols))
  }

  datatype Cleared = Cleared(board: Board, count: nat)

  /** Remove every full row and put as many empty rows on top. */
  function ClearFull(b: Board, cols: nat): (r: Cleared)
    requires forall y :: 0 <= y < |b| ==> |b[y]| == cols
    ensures IsBoard(r.board, |b|, cols)
    ensures r.count == CountFull(b) && r.count + |KeepRows(b)| == |b|
    ensures r.board == EmptyRows(r.count, cols) + KeepRows(b)
    ensures cols > 0 ==> NoFullRows(r.board)
  {
    KeepCount(b);
    var nb := EmptyRows(CountFull(b), cols) + KeepRows(b);
    assert forall y :: 0 <= y < |nb| ==> |nb[y]| == cols by {
      forall y | 0 <= y < |nb|
        ensures |nb[y]| == cols
      {
        if y >= CountFull(b) {
          assert nb[y] == KeepRows(b)[y - CountFull(b)];
        }
      }
    }
    assert cols > 0 ==> NoFullRows(nb) by {
      if cols > 0 {
        forall y | 0 <= y < |nb|
          ensures !Full(nb[y])
        {
          if y < CountFull(b) {
            assert nb[y][0] == 0;
          } else {
            assert nb[y] == KeepRows(b)[y - CountFull(b)];
          }
        }
      }
    }
    Cleared(nb, CountFull(b))
  }

  /** Clearing a board that has no full row removes nothing and changes
      nothing; in particular a second clear right after a clear is a no-op. */
  lemma ClearIdempotent(b: Board, cols: nat)
    requires forall y :: 0 <= y < |b| ==> |b[y]| == cols
    requires NoFullRows(b)
    ensures ClearFull(b, cols) == Cleared(b, 0)
  {
    KeepAllWhenNoneFull(b);
    assert EmptyRows(0, cols) + b == b;
  }

  lemma ClearTwice(b: Board, cols: nat)
    requires forall y :: 0 <= y < |b| ==> |b[y]| == cols
    requires cols > 0
    ensures var c := ClearFull(b, cols).board; ClearFull(c, cols) == Cleared(c, 0)
  {
    ClearIdempotent(ClearFull(b, cols).board, cols);
  }
}
