/**
 The LCD variant of the game: a 20x10 board of 0/1 cells, uniformly random
 spawns (no bag, no hold), a rotation that searches a widening band of
 sideways offsets, and a line clear split into a sweep (which only marks
 the full rows, while an animation plays) and a finishing step that removes
 them, scores 100, 200, 400, ... per row and levels up at level * 500.
 */
module TetrisLcd {
  import opened Wrappers
  import opened Grid
  import opened Shapes
  import Sorting

  const ROWS: nat := 20
  const COLS: nat := 10

  /** A falling piece of the LCD game: square, at most 4x4, cells 0/1, not empty. */
  predicate LcdPiece(m: Matrix) {
    IsMatrix(m) && |m[0]| == |m| && |m| <= 4 && CellsWithin(m, 0, 1) && HasCell(m)
  }

  /** The LCD shape table: the outline of the main game's table, drawn in
      ones instead of colour ids. */
  function ShapeBits(s: Shape): (m: Matrix)
    ensures LcdPiece(m)
  {
    var m := match s
      case I => [[0,1,0,0],[0,1,0,0],[0,1,0,0],[0,1,0,0]]
      case L => [[0,1,0],[0,1,0],[0,1,1]]
      case J => [[0,1,0],[0,1,0],[1,1,0]]
      case O => [[1,1],[1,1]]
      case Z => [[1,1,0],[0,1,1],[0,0,0]]
      case S => [[0,1,1],[1,1,0],[0,0,0]]
      case T => [[0,1,0],[1,1,1],[0,0,0]];
    assert m[0][1] != 0;
    m
  }

  /** The LCD table has the main table's outline: the same size and the
      same filled cells. */
  lemma ShapeBitsOutline(s: Shape)
    ensures |ShapeBits(s)| == |ShapeMatrix(s)|
    ensures forall i, j :: 0 <= i < |ShapeBits(s)| && 0 <= j < |ShapeBits(s)| ==>
      (ShapeBits(s)[i][j] != 0 <==> ShapeMatrix(s)[i][j] != 0)
  {
    match s
    case I => case L => case J => case O => case Z => case S => case T =>
  }

  datatype Lcd = Lcd(
    arena: Board,
    score: int,
    level: int,
    lines: nat,
    nextType: Shape,
    curType: Shape,
    curMat: Matrix,
    pos: Pos,
    paused: bool,
    gameOver: bool,
    onGround: bool,
    lockTimer: nat,
    /** Rows marked by the last sweep and not yet removed. */
    toClear: seq<int>)

  /** The shapes every operation relies on. */
  predicate Live(s: Lcd) {
    IsBoard(s.arena, ROWS, COLS) && LcdPiece(s.curMat)
  }

  /** The state invariant: cells are 0/1; the marked rows are exactly the
      full rows; the piece is within the side walls and above the floor;
      and while the game runs with no clear pending, the piece sits at or
      below the top and overlaps nothing. (While a clear is pending the
      keys still act on the piece that was just stamped, so it may overlap
      its own cells and stand above the top.) */
  predicate Inv(s: Lcd) {
    && Live(s) && CellsWithin(s.arena, 0, 1)
    && s.toClear == Sweep(s.arena)
    && WithinWalls(ROWS, COLS, s.pos, s.curMat)
    && (!s.gameOver && s.toClear == [] ==> s.pos.y >= 0 && !Collides(s.arena, ROWS, COLS, s.pos, s.curMat))
  }

  // ---------------------------------------------------------------------
  // Spawning
  // ---------------------------------------------------------------------

  /** Spawn the previewed kind at the top, horizontally centred, and draw
      the new preview (`pick` is the uniformly random choice). The game is
      over when the new piece overlaps the stack. */
  function PlayerReset(s: Lcd, pick: Shape): (r: Lcd)
    requires IsBoard(s.arena, ROWS, COLS)
    ensures Live(r) && r.arena == s.arena && r.toClear == s.toClear
    ensures r.curType == s.nextType && r.nextType == pick && r.curMat == ShapeBits(s.nextType)
    ensures r.pos.y == 0 && 0 <= r.pos.x && r.pos.x + |r.curMat| <= COLS
    ensures r.gameOver <==> s.gameOver || Collides(s.arena, ROWS, COLS, r.pos, r.curMat)
  {
    var m := ShapeBits(s.nextType);
    var p := Pos(COLS / 2 - |m[0]| / 2, 0);
    s.(curType := s.nextType, nextType := pick, curMat := m, pos := p,
       gameOver := s.gameOver || Collides(s.arena, ROWS, COLS, p, m))
  }

  /** A new game: empty board, score 0 at level 1, a random preview
      (`first`) which then spawns, and a random new preview (`second`). */
  function NewGame(s: Lcd, first: Shape, second: Shape): (r: Lcd)
    ensures Inv(r) && !r.gameOver && r.toClear == []
    ensures r.arena == EmptyBoard(ROWS, COLS) && r.score == 0 && r.level == 1 && r.lines == 0
    ensures r.curType == first && r.nextType == second
  {
    var e := EmptyBoard(ROWS, COLS);
    var s0 := s.(arena := e, score := 0, level := 1, lines := 0, nextType := first, paused := false,
                 gameOver := false, onGround := false, lockTimer := 0, toClear := []);
    var r := PlayerReset(s0, second);
    EmptyBoardIsClear();
    EmptyBoardIsFree(r.pos, r.curMat);
    r
  }

  lemma EmptyBoardIsClear()
    ensures Sweep(EmptyBoard(ROWS, COLS)) == [] && CellsWithin(EmptyBoard(ROWS, COLS), 0, 1)
  {
    var e := EmptyBoard(ROWS, COLS);
    forall y | 0 <= y < ROWS
      ensures !Full(e[y])
    {
      assert e[y][0] == 0;
    }
    NoFullNoSweep(e);
  }

  /** On an empty board a piece within the side walls and above the floor
      touches nothing. */
  lemma EmptyBoardIsFree(p: Pos, m: Matrix)
    requires IsMatrix(m) && 0 <= p.x && p.x + |m[0]| <= COLS && p.y + |m| <= ROWS
    ensures !Collides(EmptyBoard(ROWS, COLS), ROWS, COLS, p, m)
  {
  }

  // ---------------------------------------------------------------------
  // Rotation with a widening kick search
  // ---------------------------------------------------------------------

  /** The i-th sideways offset tried: 0, +1, -1, +2, -2, ... */
  function Alternate(i: nat): int {
    if i % 2 == 1 then (i + 1) / 2 else -(i / 2)
  }

  function LcdKicks(w: nat): (ks: seq<Pos>)
    ensures |ks| == w && forall i :: 0 <= i < w ==> ks[i] == Pos(Alternate(i), 0)
  {
    seq(w, i requires 0 <= i < w => Pos(Alternate(i), 0))
  }

  /** The rotation's probing loop as written: step x by a growing,
      sign-alternating amount while the turned matrix collides, and give up
      once the step would exceed the matrix width. It tries exactly the
      first `width` offsets of 0, +1, -1, +2, -2, ... and reports the first
      that fits. */
  method RotateProbe(b: Board, p: Pos, m: Matrix) returns (k: Option<nat>)
    requires IsBoard(b, ROWS, COLS) && IsMatrix(m)
    ensures k == FirstFit(b, ROWS, COLS, p, m, LcdKicks(|m[0]|))
    ensures k.Some? ==> k.value < |m[0]| && !Collides(b, ROWS, COLS, Pos(p.x + Alternate(k.value), p.y), m)
    ensures k.None? ==> forall j :: 0 <= j < |m[0]| ==> Collides(b, ROWS, COLS, Pos(p.x + Alternate(j), p.y), m)
  {
    var w := |m[0]|;
    var x := p.x;
    var off := 1;
    var i: nat := 0;
    while Collides(b, ROWS, COLS, Pos(x, p.y), m)
      invariant 0 <= i < w
      invariant x == p.x + Alternate(i) && off == Stride(i)
      invariant forall j :: 0 <= j < i ==> Collides(b, ROWS, COLS, Pos(p.x + Alternate(j), p.y), m)
      decreases w - i
    {
      TriedNext(b, p, m, i);
      StrideNext(i);
      x := x + off;
      off := -(off + (if off > 0 then 1 else -1));
      i := i + 1;
      if (if off < 0 then -off else off) > w {
        ProbeExhausted(b, p, m, i);
        return None;
      }
    }
    ProbeFound(b, p, m, i);
    return Some(i);
  }

  /** One more colliding offset extends the run of failed tries. */
  lemma TriedNext(b: Board, p: Pos, m: Matrix, i: nat)
    requires IsBoard(b, ROWS, COLS)
    requires forall j :: 0 <= j < i ==> Collides(b, ROWS, COLS, Pos(p.x + Alternate(j), p.y), m)
    requires Collides(b, ROWS, COLS, Pos(p.x + Alternate(i), p.y), m)
    ensures forall j :: 0 <= j < i + 1 ==> Collides(b, ROWS, COLS, Pos(p.x + Alternate(j), p.y), m)
  {
  }

  /** Every offset of the search collides: the search finds nothing. */
  lemma ProbeExhausted(b: Board, p: Pos, m: Matrix, i: nat)
    requires IsBoard(b, ROWS, COLS) && IsMatrix(m) && |m[0]| <= i
    requires forall j :: 0 <= j < i ==> Collides(b, ROWS, COLS, Pos(p.x + Alternate(j), p.y), m)
    ensures FirstFit(b, ROWS, COLS, p, m, LcdKicks(|m[0]|)) == None
  {
    var ks := LcdKicks(|m[0]|);
    forall j | 0 <= j < |ks|
      ensures Collides(b, ROWS, COLS, Shift(p, ks[j]), m)
    {
      KickShift(p, |m[0]|, j);
    }
  }

  /** The i-th offset is the first that fits: the search finds it. */
  lemma ProbeFound(b: Board, p: Pos, m: Matrix, i: nat)
    requires IsBoard(b, ROWS, COLS) && IsMatrix(m) && i < |m[0]|
    requires forall j :: 0 <= j < i ==> Collides(b, ROWS, COLS, Pos(p.x + Alternate(j), p.y), m)
    requires !Collides(b, ROWS, COLS, Pos(p.x + Alternate(i), p.y), m)
    ensures FirstFit(b, ROWS, COLS, p, m, LcdKicks(|m[0]|)) == Some(i)
  {
    var ks := LcdKicks(|m[0]|);
    forall j | 0 <= j <= i
      ensures Shift(p, ks[j]) == Pos(p.x + Alternate(j), p.y)
    {
      KickShift(p, |m[0]|, j);
    }
    var f := FirstFit(b, ROWS, COLS, p, m, ks);
    assert f.Some? ==> f.value >= i;
  }

  /** The step the probing loop adds to x after its i-th try. */
  function Stride(i: nat): int {
    if i % 2 == 0 then i + 1 else -(i + 1)
  }

  /** Adding the i-th stride moves from the i-th offset to the next; the
      loop's update of the stride gives the next one, one larger in size. */
  lemma StrideNext(i: nat)
    ensures Alternate(i + 1) == Alternate(i) + Stride(i)
    ensures Stride(i + 1) == -(Stride(i) + (if Stride(i) > 0 then 1 else -1))
    ensures (if Stride(i + 1) < 0 then -Stride(i + 1) else Stride(i + 1)) == i + 2
  {
  }

  /** A quarter turn (clockwise for `d > 0`) that moves the piece sideways
      to the first fitting offset of the widening search; if none fits the
      piece stays as it was. Only x can change, and a successful turn on the
      ground restarts the lock timer. */
  function PlayerRotate(s: Lcd, d: int): (r: Lcd)
    requires Live(s)
    ensures Live(r)
    ensures r.arena == s.arena
    ensures r == s || (r.curMat == Rotate(s.curMat, d) && r.pos.y == s.pos.y && !Collides(s.arena, ROWS, COLS, r.pos, r.curMat))
  {
    var m := Rotate(s.curMat, d);
    RotateKeepsCell(s.curMat, d);
    RotateKeepsCells(s.curMat, d, 0, 1);
    var ks := LcdKicks(|m[0]|);
    match FirstFit(s.arena, ROWS, COLS, s.pos, m, ks)
    case None => s
    case Some(k) =>
      var q := Pos(s.pos.x + Alternate(k), s.pos.y);
      assert q == Shift(s.pos, ks[k]);
      s.(curMat := m, pos := q, lockTimer := TimerAfterMove(s))
  }

  /** The lock timer after a successful move or turn: restarted for a
      grounded piece, kept otherwise. */
  function TimerAfterMove(s: Lcd): nat {
    if s.onGround then 0 else s.lockTimer
  }

  /** A turn moves the piece only sideways, touches nothing but the
      matrix, the column and the lock timer, and resets the timer only for
      a grounded piece. */
  lemma RotateFrame(s: Lcd, d: int)
    requires Live(s)
    ensures var r := PlayerRotate(s, d);
      && r.pos.y == s.pos.y
      && r == s.(curMat := r.curMat, pos := r.pos, lockTimer := r.lockTimer)
      && (r.lockTimer == s.lockTimer || (s.onGround && r.lockTimer == 0))
  {
  }

  /** The turned matrix `m` fits at the `j`-th offset of the search. */
  predicate TurnFits(s: Lcd, m: Matrix, j: nat)
    requires IsBoard(s.arena, ROWS, COLS)
  {
    !Collides(s.arena, ROWS, COLS, Pos(s.pos.x + Alternate(j), s.pos.y), m)
  }

  lemma KickShift(p: Pos, w: nat, j: nat)
    requires j < w
    ensures Shift(p, LcdKicks(w)[j]) == Pos(p.x + Alternate(j), p.y)
  {
  }

  /** When none of the first `width` offsets fits, the turn is refused and
      nothing changes. */
  lemma RotateRefused(s: Lcd, d: int)
    requires Live(s)
    requires var m := Rotate(s.curMat, d); forall j :: 0 <= j < |m[0]| ==> !TurnFits(s, m, j)
    ensures PlayerRotate(s, d) == s
  {
    var m := Rotate(s.curMat, d);
    var ks := LcdKicks(|m[0]|);
    forall j | 0 <= j < |m[0]|
      ensures Collides(s.arena, ROWS, COLS, Shift(s.pos, ks[j]), m)
    {
      KickShift(s.pos, |m[0]|, j);
      assert !TurnFits(s, m, j);
    }
  }

  /** When some of the first `width` offsets fits, the piece takes the
      turned matrix at the first offset of 0, +1, -1, +2, ... that fits. */
  lemma RotateAccepted(s: Lcd, d: int, j: nat)
    requires Live(s)
    requires var m := Rotate(s.curMat, d); j < |m[0]| && TurnFits(s, m, j)
    ensures var m := Rotate(s.curMat, d);
      var r := PlayerRotate(s, d);
      var k := FitIndex(s, m);
      && k.Some? && k.value <= j
      && r.curMat == m && r.pos.x == s.pos.x + Alternate(k.value)
      && TurnFits(s, m, k.value) && forall i :: 0 <= i < k.value ==> !TurnFits(s, m, i)
  {
    var m := Rotate(s.curMat, d);
    FirstFitIsEarliest(s, m, j);
    RotateTakesFit(s, d);
  }

  /** Which of the first `width` offsets the turn settles on, if any. */
  function FitIndex(s: Lcd, m: Matrix): Option<nat>
    requires IsBoard(s.arena, ROWS, COLS) && IsMatrix(m)
  {
    FirstFit(s.arena, ROWS, COLS, s.pos, m, LcdKicks(|m[0]|))
  }

  /** The search picks the earliest fitting offset. */
  lemma FirstFitIsEarliest(s: Lcd, m: Matrix, j: nat)
    requires IsBoard(s.arena, ROWS, COLS) && IsMatrix(m) && j < |m[0]| && TurnFits(s, m, j)
    ensures var f := FirstFit(s.arena, ROWS, COLS, s.pos, m, LcdKicks(|m[0]|));
      && f.Some? && f.value <= j && TurnFits(s, m, f.value)
      && forall i :: 0 <= i < f.value ==> !TurnFits(s, m, i)
  {
    var ks := LcdKicks(|m[0]|);
    var f := FirstFit(s.arena, ROWS, COLS, s.pos, m, ks);
    KickShift(s.pos, |m[0]|, j);
    assert f.Some?;
    var k := f.value;
    KickShift(s.pos, |m[0]|, k);
    forall i | 0 <= i < k
      ensures !TurnFits(s, m, i)
    {
      KickShift(s.pos, |m[0]|, i);
    }
    assert !Collides(s.arena, ROWS, COLS, Shift(s.pos, ks[j]), m);
  }

  lemma RotateTakesFit(s: Lcd, d: int)
    requires Live(s)
    ensures var m := Rotate(s.curMat, d);
      var f := FirstFit(s.arena, ROWS, COLS, s.pos, m, LcdKicks(|m[0]|));
      f.Some? ==> PlayerRotate(s, d).curMat == m && PlayerRotate(s, d).pos.x == s.pos.x + Alternate(f.value)
  {
  }

  // ---------------------------------------------------------------------
  // Moves and drops
  // ---------------------------------------------------------------------

  /** One row down; on a collision the piece stays and is marked grounded,
      otherwise a grounded piece leaves the ground with its timer reset. */
  function PlayerDrop(s: Lcd): (r: Lcd)
    requires Live(s)
    ensures Live(r) && r.pos.x == s.pos.x && r.curMat == s.curMat && r.arena == s.arena
    ensures var below := Collides(s.arena, ROWS, COLS, Pos(s.pos.x, s.pos.y + 1), s.curMat);
      && (below ==> r.pos == s.pos && r.onGround)
      && (!below ==> r.pos.y == s.pos.y + 1 && !r.onGround && (s.onGround ==> r.lockTimer == 0))
  {
    var p := Pos(s.pos.x, s.pos.y + 1);
    if Collides(s.arena, ROWS, COLS, p, s.curMat) then s.(onGround := true)
    else if s.onGround then s.(pos := p, onGround := false, lockTimer := 0)
    else s.(pos := p)
  }

  /** A sideways step by `dx`; refused (state unchanged, result false) when
      the new column collides, otherwise the piece moves and a grounded
      piece has its lock timer restarted. */
  function MovePlayer(s: Lcd, dx: int): (r: (Lcd, bool))
    requires Live(s)
    ensures r.1 <==> !Collides(s.arena, ROWS, COLS, Pos(s.pos.x + dx, s.pos.y), s.curMat)
    ensures !r.1 ==> r.0 == s
    ensures r.1 ==> r.0 == s.(pos := Pos(s.pos.x + dx, s.pos.y), lockTimer := TimerAfterMove(s))
  {
    var p := Pos(s.pos.x + dx, s.pos.y);
    if Collides(s.arena, ROWS, COLS, p, s.curMat) then (s, false)
    else (s.(pos := p, lockTimer := TimerAfterMove(s)), true)
  }

  /** The ghost piece: the same column, at the last row of the downward scan
      from the current row before the first collision. */
  function GhostPos(s: Lcd): (p: Pos)
    requires Live(s)
    ensures p.x == s.pos.x && p.y >= s.pos.y - 1
    ensures Collides(s.arena, ROWS, COLS, Pos(p.x, p.y + 1), s.curMat)
    ensures forall k :: s.pos.y <= k <= p.y ==> !Collides(s.arena, ROWS, COLS, Pos(p.x, k), s.curMat)
  {
    Pos(s.pos.x, LandingRow(s.arena, ROWS, COLS, s.pos.x, s.pos.y, s.curMat))
  }

  // ---------------------------------------------------------------------
  // Locking, sweeping and finishing a clear
  // ---------------------------------------------------------------------

  /** Indices from `j` on of the rows without an empty cell, ascending. */
  function FullFrom(b: Board, j: nat): (ys: seq<int>)
    requires j <= |b|
    ensures forall i :: 0 <= i < |ys| ==> j <= ys[i] < |b| && Full(b[ys[i]])
    ensures forall i, k :: 0 <= i < k < |ys| ==> ys[i] < ys[k]
    ensures forall y :: j <= y < |b| && Full(b[y]) ==> y in ys
    decreases |b| - j
  {
    if j == |b| then [] else (if Full(b[j]) then [j] else []) + FullFrom(b, j + 1)
  }

  /** The sweep: every full row, in ascending order, and nothing else. */
  function Sweep(b: Board): (ys: seq<int>)
    ensures forall i :: 0 <= i < |ys| ==> 0 <= ys[i] < |b| && Full(b[ys[i]])
    ensures forall i, k :: 0 <= i < k < |ys| ==> ys[i] < ys[k]
    ensures forall y :: 0 <= y < |b| && Full(b[y]) ==> y in ys
  {
    FullFrom(b, 0)
  }

  lemma NoFullNoSweep(b: Board)
    requires NoFullRows(b)
    ensures Sweep(b) == []
  {
    SweepCounts(b);
    KeepAllWhenNoneFull(b);
  }

  /** Stamp the piece into the board and sweep. With no full row the next
      piece spawns at once; otherwise the rows are only marked and the spawn
      waits for the clear to finish. The game's merge writes without a
      bounds check, so the stamp goes through Python indices: a cell above
      the top row lands that many rows up from the bottom. */
  function LockPiece(s: Lcd, pick: Shape): (r: Lcd)
    requires Live(s)
    ensures Live(r)
    ensures var merged := Stamp(s.arena, ROWS, COLS, s.pos, s.curMat);
      && r.arena == merged && r.toClear == Sweep(merged) && !r.onGround && r.lockTimer == 0
      && (r.toClear == [] ==> r.curType == s.nextType && r.nextType == pick)
      && (r.toClear != [] ==> r.curType == s.curType && r.curMat == s.curMat && r.pos == s.pos && r.nextType == s.nextType)
  {
    var merged := Stamp(s.arena, ROWS, COLS, s.pos, s.curMat);
    var s1 := s.(arena := merged, onGround := false, lockTimer := 0, toClear := Sweep(merged));
    if s1.toClear == [] then PlayerReset(s1, pick) else s1
  }

  /** The spawn waits exactly when the lock completed a row. */
  lemma LockSpawnsUnlessRowsComplete(s: Lcd, pick: Shape)
    requires Live(s)
    ensures var merged := Stamp(s.arena, ROWS, COLS, s.pos, s.curMat);
      LockPiece(s, pick).toClear == [] <==> NoFullRows(merged)
  {
    var merged := Stamp(s.arena, ROWS, COLS, s.pos, s.curMat);
    if NoFullRows(merged) {
      NoFullNoSweep(merged);
    }
  }

  /** Drop straight to the ghost row and lock there. The key is read even
      while a clear is pending, when the piece already sits in its own
      stamped cells: the ghost is then one row up, and the piece is stamped
      again there. */
  function PlayerHardDrop(s: Lcd, pick: Shape): (r: Lcd)
    requires Live(s)
    ensures Live(r) && r.arena == Stamp(s.arena, ROWS, COLS, GhostPos(s), s.curMat)
    ensures r.toClear == Sweep(r.arena)
    ensures r.toClear != [] ==> r.pos == GhostPos(s) && r.curMat == s.curMat
  {
    LockPiece(s.(pos := GhostPos(s)), pick)
  }

  /** Pop row `y` and push an empty row on top. */
  function RemoveRow(b: Board, y: int): (r: Board)
    requires 0 <= y < |b|
    ensures |r| == |b|
    ensures IsBoard(b, |b|, COLS) ==> IsBoard(r, |b|, COLS)
  {
    [EmptyRow(COLS)] + (b[..y] + b[y + 1..])
  }

  /** Remove the listed rows one after another, each by index in the board
      as it is at that moment. */
  function RemoveRows(b: Board, ys: seq<int>): (r: Board)
    requires forall i :: 0 <= i < |ys| ==> 0 <= ys[i] < |b|
    ensures |r| == |b|
    ensures IsBoard(b, |b|, COLS) ==> IsBoard(r, |b|, COLS)
    decreases |ys|
  {
    if ys == [] then b else RemoveRows(RemoveRow(b, ys[0]), ys[1..])
  }

  function Pow2(k: nat): (p: nat)
    ensures p >= 1
  {
    if k == 0 then 1 else 2 * Pow2(k - 1)
  }

  /** The finishing loop as written: pop each listed row and push an empty
      one on top, counting a line per row and paying 100 for the first
      row, doubling for each further row; in all 100 * (2^k - 1) for k rows. */
  method FinishClearLoop(b: Board, ys: seq<int>, score: int, lines: nat) returns (nb: Board, nscore: int, nlines: nat)
    requires forall i :: 0 <= i < |ys| ==> 0 <= ys[i] < |b|
    ensures nb == RemoveRows(b, ys)
    ensures nscore == score + 100 * (Pow2(|ys|) - 1) && nlines == lines + |ys|
  {
    nb, nscore, nlines := b, score, lines;
    var rc := 1;
    var i := 0;
    while i < |ys|
      invariant 0 <= i <= |ys| && |nb| == |b|
      invariant RemoveRows(nb, ys[i..]) == RemoveRows(b, ys)
      invariant rc == Pow2(i) && nscore == score + 100 * (Pow2(i) - 1) && nlines == lines + i
    {
      assert ys[i..][0] == ys[i] && ys[i..][1..] == ys[i + 1..];
      nb := [EmptyRow(COLS)] + (nb[..ys[i]] + nb[ys[i] + 1..]);
      nlines := nlines + 1;
      nscore := nscore + rc * 100;
      rc := rc * 2;
      i := i + 1;
    }
    assert ys[i..] == [];
  }

  function IntLe(a: int, b: int): bool {
    a <= b
  }

  /** Every listed row is a row of the board. */
  predicate RowsOf(ys: seq<int>) {
    forall i :: 0 <= i < |ys| ==> 0 <= ys[i] < ROWS
  }

  lemma SortKeepsRows(ys: seq<int>)
    requires RowsOf(ys)
    ensures Sorting.TotalPreorderOn(ys, IntLe)
    ensures var zs := Sorting.InsertionSort(ys, IntLe); RowsOf(zs) && |zs| == |ys|
  {
    var zs := Sorting.InsertionSort(ys, IntLe);
    assert |zs| == |multiset(zs)| == |multiset(ys)| == |ys|;
    forall i | 0 <= i < |zs|
      ensures 0 <= zs[i] < ROWS
    {
      assert zs[i] in multiset(ys);
    }
  }

  /** Finish a pending clear: remove the marked rows in ascending order,
      add the lines and the doubling row score, go up one level when the
      score reaches level * 500, and spawn the next piece. */
  function FinishClear(s: Lcd, pick: Shape): (r: Lcd)
    requires Live(s) && RowsOf(s.toClear)
    ensures Live(r) && r.toClear == []
    ensures r.lines == s.lines + |s.toClear| && r.score == s.score + 100 * (Pow2(|s.toClear|) - 1)
    ensures s.level <= r.level <= s.level + 1 && (r.level == s.level + 1 <==> r.score >= s.level * 500)
    ensures r.curType == s.nextType && r.nextType == pick
  {
    SortKeepsRows(s.toClear);
    var ys := Sorting.InsertionSort(s.toClear, IntLe);
    var score := s.score + 100 * (Pow2(|ys|) - 1);
    var level := if score >= s.level * 500 then s.level + 1 else s.level;
    PlayerReset(s.(arena := RemoveRows(s.arena, ys), lines := s.lines + |ys|, score := score,
                   level := level, toClear := []), pick)
  }

  /** The board before row `j` already processed: the full rows among the
      first `j` replaced by empty rows on top, the rest unchanged. */
  function Partial(b: Board, j: nat): Board
    requires j <= |b|
  {
    Done(b, j) + b[j..]
  }

  lemma OneRow(x: Row)
    ensures KeepRows([x]) == (if Full(x) then [] else [x])
    ensures CountFull([x]) == (if Full(x) then 1 else 0)
  {
    assert [x][1..] == [];
  }

  /** The first `j + 1` rows split into the first `j` and row `j`. */
  lemma PrefixStep(b: Board, j: nat)
    requires j < |b|
    ensures CountFull(b[..j + 1]) == CountFull(b[..j]) + (if Full(b[j]) then 1 else 0)
    ensures KeepRows(b[..j + 1]) == KeepRows(b[..j]) + (if Full(b[j]) then [] else [b[j]])
    ensures |Partial(b, j)| == |b| && |EmptyRows(CountFull(b[..j]), COLS) + KeepRows(b[..j])| == j
  {
    assert b[..j + 1] == b[..j] + [b[j]];
    KeepAppend(b[..j], [b[j]]);
    OneRow(b[j]);
    KeepCount(b[..j]);
  }

  /** Removing a full row `j` from the partly processed board processes it. */
  lemma RemoveFullStep(b: Board, j: nat)
    requires j < |b| && Full(b[j])
    ensures |Partial(b, j)| == |b|
    ensures RemoveRow(Partial(b, j), j) == Partial(b, j + 1)
  {
    PartialAround(b, j);
    RemoveMiddle(Done(b, j), b[j], b[j + 1..]);
  }

  /** The processed rows below `j`. */
  function Done(b: Board, j: nat): Board
    requires j <= |b|
  {
    EmptyRows(CountFull(b[..j]), COLS) + KeepRows(b[..j])
  }

  /** Around a full row `j`: the board before and after processing it. */
  lemma PartialAround(b: Board, j: nat)
    requires j < |b| && Full(b[j])
    ensures |Done(b, j)| == j
    ensures Partial(b, j) == Done(b, j) + [b[j]] + b[j + 1..]
    ensures Partial(b, j + 1) == [EmptyRow(COLS)] + Done(b, j) + b[j + 1..]
  {
    PrefixStep(b, j);
    assert b[j..] == [b[j]] + b[j + 1..];
    DoneFull(b, j);
  }

  /** Processing a full row adds an empty row on top of the processed ones. */
  lemma DoneFull(b: Board, j: nat)
    requires j < |b| && Full(b[j])
    ensures Done(b, j + 1) == [EmptyRow(COLS)] + Done(b, j)
  {
    PrefixStep(b, j);
    var c := CountFull(b[..j]);
    assert CountFull(b[..j + 1]) == c + 1;
    assert KeepRows(b[..j + 1]) == KeepRows(b[..j]);
    assert EmptyRows(c + 1, COLS) == [EmptyRow(COLS)] + EmptyRows(c, COLS);
  }

  /** Removing the row after `front` leaves `front` and `back` below a new
      empty row. */
  lemma RemoveMiddle(front: Board, x: Row, back: Board)
    ensures RemoveRow(front + [x] + back, |front|) == [EmptyRow(COLS)] + front + back
  {
    var s := front + [x] + back;
    assert s[..|front|] == front && s[|front| + 1..] == back;
  }

  /** A row that is not full is simply passed over. */
  lemma KeepStep(b: Board, j: nat)
    requires j < |b| && !Full(b[j])
    ensures Partial(b, j) == Partial(b, j + 1)
  {
    assert b[j..] == [b[j]] + b[j + 1..];
    DoneKeep(b, j);
  }

  /** Processing a row that is not full appends it to the processed ones. */
  lemma DoneKeep(b: Board, j: nat)
    requires j < |b| && !Full(b[j])
    ensures Done(b, j + 1) == Done(b, j) + [b[j]]
  {
    PrefixStep(b, j);
    assert CountFull(b[..j + 1]) == CountFull(b[..j]);
    assert KeepRows(b[..j + 1]) == KeepRows(b[..j]) + [b[j]];
  }

  /** Removing a first row, then the rest. */
  lemma RemoveRowsCons(b: Board, y: int, rest: seq<int>)
    requires 0 <= y < |b| && forall i :: 0 <= i < |rest| ==> 0 <= rest[i] < |b|
    ensures RemoveRows(b, [y] + rest) == RemoveRows(RemoveRow(b, y), rest)
  {
    var ys := [y] + rest;
    assert ys[0] == y && ys[1..] == rest;
  }

  /** A full row `j` is the next one removed. */
  lemma RemoveFullNext(b: Board, j: nat, target: Board)
    requires j < |b| && Full(b[j]) && |Partial(b, j + 1)| == |b|
    requires RemoveRows(Partial(b, j + 1), FullFrom(b, j + 1)) == target
    ensures |Partial(b, j)| == |b|
    ensures RemoveRows(Partial(b, j), FullFrom(b, j)) == target
  {
    RemoveFullStep(b, j);
    assert FullFrom(b, j) == [j] + FullFrom(b, j + 1);
    RemoveRowsCons(Partial(b, j), j, FullFrom(b, j + 1));
  }

  /** A row `j` that is not full is not removed. */
  lemma RemoveKeepNext(b: Board, j: nat, target: Board)
    requires j < |b| && !Full(b[j]) && |Partial(b, j + 1)| == |b|
    requires RemoveRows(Partial(b, j + 1), FullFrom(b, j + 1)) == target
    ensures |Partial(b, j)| == |b|
    ensures RemoveRows(Partial(b, j), FullFrom(b, j)) == target
  {
    KeepStep(b, j);
    assert FullFrom(b, j) == FullFrom(b, j + 1);
  }

  /** Removing full rows in ascending order is index-safe: each removal
      only shifts rows above the next full row, so the row indices found by
      the sweep stay valid and exactly the full rows go. */
  lemma {:induction false} RemoveAscending(b: Board, j: nat)
    requires j <= |b|
    ensures |Partial(b, j)| == |b|
    ensures RemoveRows(Partial(b, j), FullFrom(b, j)) == EmptyRows(CountFull(b), COLS) + KeepRows(b)
    decreases |b| - j
  {
    if j == |b| {
      KeepCount(b);
      assert b[..j] == b && b[j..] == [];
    } else {
      RemoveAscending(b, j + 1);
      var target := EmptyRows(CountFull(b), COLS) + KeepRows(b);
      if Full(b[j]) {
        RemoveFullNext(b, j, target);
      } else {
        RemoveKeepNext(b, j, target);
      }
    }
  }

  /** Finishing the clear that the sweep marked removes exactly the full
      rows and keeps 20 rows: the result is the board with its full rows
      taken out and as many empty rows on top. */
  lemma FinishClearRemovesFullRows(s: Lcd, pick: Shape)
    requires Inv(s)
    ensures RowsOf(s.toClear)
    ensures var r := FinishClear(s, pick);
      && r.arena == ClearFull(s.arena, COLS).board
      && |r.arena| == ROWS && NoFullRows(r.arena)
      && r.lines == s.lines + CountFull(s.arena)
  {
    SortKeepsRows(s.toClear);
    forall i, k | 0 <= i < k < |s.toClear|
      ensures IntLe(s.toClear[i], s.toClear[k])
    {
    }
    Sorting.SortedStays(s.toClear, IntLe);
    SweepRemoved(s.arena);
    SweepCounts(s.arena);
    assert FinishClear(s, pick).arena == RemoveRows(s.arena, s.toClear);
  }

  /** Removing the swept rows, in the sweep's ascending order, leaves the
      board with its full rows taken out and as many empty rows on top. */
  lemma SweepRemoved(b: Board)
    ensures RemoveRows(b, Sweep(b)) == EmptyRows(CountFull(b), COLS) + KeepRows(b)
  {
    assert Sweep(b) == FullFrom(b, 0);
    assert b[..0] == [] && b[0..] == b;
    assert Done(b, 0) == [] by {
      assert CountFull(b[..0]) == 0 && KeepRows(b[..0]) == [];
    }
    assert Partial(b, 0) == b;
    RemoveAscending(b, 0);
  }

  /** The sweep lists as many rows as the board has full rows. */
  lemma {:induction false} SweepCounts(b: Board)
    ensures |Sweep(b)| == CountFull(b)
  {
    FullFromCounts(b, 0);
    assert b[0..] == b;
  }

  lemma {:induction false} FullFromCounts(b: Board, j: nat)
    requires j <= |b|
    ensures |FullFrom(b, j)| == CountFull(b[j..])
    decreases |b| - j
  {
    if j < |b| {
      FullFromCounts(b, j + 1);
      assert b[j..][1..] == b[j + 1..];
    }
  }

  // ---------------------------------------------------------------------
  // The lock part of the frame update
  // ---------------------------------------------------------------------

  /** A running piece that overlaps nothing and starts at or below the top
      lies on the board. */
  lemma FreeIsInside(s: Lcd, p: Pos)
    requires Live(s) && p.y >= 0 && !Collides(s.arena, ROWS, COLS, p, s.curMat)
    ensures InsideBoard(ROWS, COLS, p, s.curMat)
  {
    forall r, c | 0 <= r < |s.curMat| && 0 <= c < |s.curMat[r]| && s.curMat[r][c] != 0
      ensures 0 <= p.y + r < ROWS && 0 <= p.x + c < COLS
    {
      assert !Blocked(s.arena, ROWS, COLS, p.y + r, p.x + c);
    }
  }

  /** One frame of the lock delay, `dt` ticks long, with the limit as
      `lockDelay` ticks: nothing happens while a clear is pending (the
      animation timer is not modelled; `FinishClear` ends it), when paused,
      over, or airborne; otherwise the timer runs and the piece locks once
      it reaches the limit. */
  function Tick(s: Lcd, dt: nat, lockDelay: nat, pick: Shape): (r: Lcd)
    requires Inv(s)
    ensures s.toClear != [] || s.paused || s.gameOver || !s.onGround ==> r == s
    ensures r == s || r.lockTimer == s.lockTimer + dt || r.arena == Stamp(s.arena, ROWS, COLS, s.pos, s.curMat)
  {
    if s.toClear != [] || s.paused || s.gameOver || !s.onGround then s
    else if s.lockTimer + dt >= lockDelay then
      LockPiece(s.(lockTimer := s.lockTimer + dt), pick)
    else s.(lockTimer := s.lockTimer + dt)
  }

  // ---------------------------------------------------------------------
  // The invariant
  // ---------------------------------------------------------------------

  lemma ResetKeepsInv(s: Lcd, pick: Shape)
    requires Live(s) && CellsWithin(s.arena, 0, 1) && s.toClear == Sweep(s.arena)
    ensures Inv(PlayerReset(s, pick))
  {
  }

  lemma LockKeepsInv(s: Lcd, pick: Shape)
    requires Inv(s)
    ensures Inv(LockPiece(s, pick))
  {
    StampKeepsCells(s.arena, ROWS, COLS, s.pos, s.curMat, 0, 1);
  }

  /** Key actions of a running game keep the invariant: a turn, ... */
  lemma RotateKeepsInv(s: Lcd, d: int)
    requires Inv(s) && !s.gameOver
    ensures Inv(PlayerRotate(s, d))
  {
    RotateFrame(s, d);
    var r := PlayerRotate(s, d);
    var m := Rotate(s.curMat, d);
    var f := FitIndex(s, m);
    if f.Some? {
      RotateTakesFit(s, d);
      KickShift(s.pos, |m[0]|, f.value);
      assert r.curMat == m && r.pos == Shift(s.pos, LcdKicks(|m[0]|)[f.value]);
      assert !Collides(r.arena, ROWS, COLS, r.pos, r.curMat);
    }
  }

  /** ... a step down, ... */
  lemma DropKeepsInv(s: Lcd)
    requires Inv(s) && !s.gameOver
    ensures Inv(PlayerDrop(s))
  {
  }

  /** ... a sideways step, ... */
  lemma MoveKeepsInv(s: Lcd, dx: int)
    requires Inv(s) && !s.gameOver
    ensures Inv(MovePlayer(s, dx).0)
  {
  }

  /** ... and a hard drop, pending clear or not; with none pending in a
      running game it always lands on the board. */
  lemma HardDropKeepsInv(s: Lcd, pick: Shape)
    requires Inv(s)
    ensures !s.gameOver && s.toClear == [] ==> InsideBoard(ROWS, COLS, GhostPos(s), s.curMat)
    ensures Inv(PlayerHardDrop(s, pick))
  {
    var g := GhostPos(s);
    GhostBounds(s);
    if !s.gameOver && s.toClear == [] {
      assert g.y >= s.pos.y;
      FreeIsInside(s, g);
    }
    LockKeepsInv(s.(pos := g), pick);
  }

  /** The ghost of a piece within the walls is within the walls too, at
      most the piece's height above row 0, because the row below it
      collides. */
  lemma GhostBounds(s: Lcd)
    requires Live(s) && WithinWalls(ROWS, COLS, s.pos, s.curMat)
    ensures WithinWalls(ROWS, COLS, GhostPos(s), s.curMat)
    ensures GhostPos(s).y >= -|s.curMat|
  {
    var g := GhostPos(s);
    if g.y >= s.pos.y {
      FreeWithinWalls(s.arena, ROWS, COLS, g, s.curMat);
    }
    WalledHitReachesBoard(s.arena, ROWS, COLS, Pos(g.x, g.y + 1), s.curMat);
  }

  /** No lock the game performs reaches an index Python rejects: not the
      hard drop's lock at the ghost row, pending clear or not, and not the
      lock-delay lock of a running piece. So the merge never raises
      IndexError. */
  lemma NoIndexError(s: Lcd)
    requires Inv(s)
    ensures Lockable(ROWS, COLS, GhostPos(s), s.curMat)
    ensures !s.gameOver && s.toClear == [] ==> Lockable(ROWS, COLS, s.pos, s.curMat)
  {
    GhostBounds(s);
  }

  /** A hard drop while a clear is pending, with the piece still in its own
      stamped cells, raises the piece one row and stamps it there; the
      marked rows stay full, so the clear stays pending. */
  lemma PendingHardDropClimbs(s: Lcd, pick: Shape)
    requires Inv(s) && s.toClear != [] && Collides(s.arena, ROWS, COLS, s.pos, s.curMat)
    ensures var r := PlayerHardDrop(s, pick);
      r.toClear != [] && r.pos == Pos(s.pos.x, s.pos.y - 1) && r.curMat == s.curMat
  {
    var g := GhostPos(s);
    assert g.y == s.pos.y - 1;
    var y := s.toClear[0];
    StampKeepsFull(s.arena, ROWS, COLS, g, s.curMat, y);
  }

  lemma TickKeepsInv(s: Lcd, dt: nat, lockDelay: nat, pick: Shape)
    requires Inv(s)
    ensures Inv(Tick(s, dt, lockDelay, pick))
  {
    var t := s.(lockTimer := s.lockTimer + dt);
    assert t.arena == s.arena && t.toClear == s.toClear && t.gameOver == s.gameOver;
    assert t.pos == s.pos && t.curMat == s.curMat;
    assert Inv(t);
    if !(s.toClear != [] || s.paused || s.gameOver || !s.onGround) && s.lockTimer + dt >= lockDelay {
      LockKeepsInv(t, pick);
    }
  }

  /** Finishing a clear keeps the invariant: the board has no full row
      left and the new piece is checked against it. */
  lemma FinishKeepsInv(s: Lcd, pick: Shape)
    requires Inv(s)
    ensures Inv(FinishClear(s, pick))
  {
    FinishClearRemovesFullRows(s, pick);
    var r := FinishClear(s, pick);
    NoFullNoSweep(r.arena);
    ClearedCells(s.arena);
  }

  lemma ClearedCells(b: Board)
    requires IsBoard(b, ROWS, COLS) && CellsWithin(b, 0, 1)
    ensures CellsWithin(ClearFull(b, COLS).board, 0, 1)
  {
    var c := ClearFull(b, COLS);
    forall y, x | 0 <= y < |c.board| && 0 <= x < |c.board[y]|
      ensures 0 <= c.board[y][x] <= 1
    {
      if y >= c.count {
        var k := KeepRows(b)[y - c.count];
        assert c.board[y] == k;
        assert k in b;
      }
    }
  }
}
