/**
 The falling-block engine of the main game (class TetrisGame, game logic
 only): 7-bag randomiser, spawn, collision, kicked rotation, soft drop,
 sideways moves, hard drop, ghost, lock, hold, T-spin corner test, line
 clearing with scoring, and the grounded lock-delay timer.

 The game state is an immutable record; every command is a function from
 state to state. Random choices (the bag shuffle and the coin flip that lays
 a new I piece flat) arrive as an `Rng` argument. Time is counted in integer
 ticks.
 */
module Tetris {
  import opened Wrappers
  import opened Grid
  import opened Shapes

  const ROWS: nat := 30
  const COLS: nat := 14
  /** How many moves or turns may restart the lock-delay timer per piece. */
  const MaxLockResets: nat := 15

  /** The outcome of the random draws one command may need: the shuffled
      bag used if the bag must be refilled, and the I-piece coin flip. */
  datatype Rng = Rng(refill: seq<Shape>, horizontalI: bool)

  /** The refill is an ordering of the seven kinds (see `Shapes.ShuffleIsBag`). */
  predicate RngOk(rng: Rng) {
    FullBag(rng.refill)
  }

  /** One step of the autoplay action list. */
  datatype Action = Hold | Turn | Left | Right | Drop

  /** Score, level, total lines and the per-size clear counters. */
  datatype ScoreState = ScoreState(score: int, level: int, lines: nat, stats: map<int, nat>)

  datatype Game = Game(
    arena: Board,
    sc: ScoreState,
    bag: seq<Shape>,
    nextType: Shape,
    nextMatrix: Matrix,
    curType: Shape,
    curMatrix: Matrix,
    pos: Pos,
    holdType: Option<Shape>,
    canHold: bool,
    holdEnabled: bool,
    lockTimer: nat,
    lockMoves: nat,
    lockLimit: nat,
    onGround: bool,
    lastMoveWasRotate: bool,
    tSpin: bool,
    paused: bool,
    gameOver: bool,
    aiConservative: bool,
    aiActions: Option<seq<Action>>,
    aiStep: nat)

  /** What every command needs to be well defined. */
  predicate Playable(g: Game) {
    IsBoard(g.arena, ROWS, COLS) && PieceMatrix(g.curMatrix) && PieceMatrix(g.nextMatrix)
  }

  /** The state invariant kept by every command: colour ids only, no full
      row left on the board, at most 15 timer restarts, no kind twice in
      the bag, and the falling piece within the walls. */
  predicate Inv(g: Game) {
    && Playable(g)
    && CellsWithin(g.arena, 0, 7)
    && NoFullRows(g.arena)
    && g.lockMoves <= MaxLockResets
    && BagOk(g.bag)
    && PieceBounds(g)
  }

  /** The falling piece is inside the side walls and above the floor, and
      starts at most its own height above row 0. (It may overlap the
      stack: clearing lines after the spawn test can move blocks into a
      piece that has just spawned.) */
  predicate PieceBounds(g: Game) {
    g.pos.y >= -|g.curMatrix| && WithinWalls(ROWS, COLS, g.pos, g.curMatrix)
  }

  predicate Hits(g: Game, p: Pos, m: Matrix)
    requires IsBoard(g.arena, ROWS, COLS)
  {
    Collides(g.arena, ROWS, COLS, p, m)
  }

  /** The one-row-down probe: the piece rests on something. */
  predicate Grounded(g: Game)
    requires IsBoard(g.arena, ROWS, COLS)
  {
    Hits(g, Pos(g.pos.x, g.pos.y + 1), g.curMatrix)
  }

  // ---------------------------------------------------------------------
  // 7-bag and spawn
  // ---------------------------------------------------------------------

  /** Take the last kind of the bag, refilling it with `refill` first when
      it is empty: `src` is the bag drawn from, the result is its last
      element and the rest. */
  function Draw(bag: seq<Shape>, refill: seq<Shape>): (r: (Shape, seq<Shape>))
    requires bag != [] || refill != []
    ensures var src := if bag == [] then refill else bag;
      src == r.1 + [r.0] && (BagOk(src) ==> BagOk(r.1))
  {
    var src := if bag == [] then refill else bag;
    (src[|src| - 1], src[..|src| - 1])
  }

  /** The kinds drawn by successive draws, draw `i` offered `refills[i]`. */
  function DrawEach(bag: seq<Shape>, refills: seq<seq<Shape>>): seq<Shape>
    requires forall i :: 0 <= i < |refills| ==> refills[i] != []
    decreases |refills|
  {
    if refills == [] then []
    else
      var d := Draw(bag, refills[0]);
      [d.0] + DrawEach(d.1, refills[1..])
  }

  /** Seven draws starting from an empty bag deal every kind exactly once,
      whatever the later shuffles are: they are the first refill, read from
      its end. */
  lemma {:induction false} SevenBag(refills: seq<seq<Shape>>)
    requires |refills| == 7 && IsShuffle(refills[0]) && forall i :: 0 <= i < 7 ==> refills[i] != []
    ensures DrawEach([], refills) == Reverse(refills[0])
    ensures multiset(DrawEach([], refills)) == multiset(AllShapes)
  {
    var r := refills[0];
    DrainBag(r, refills);
    assert multiset(Reverse(r)) == multiset(r) by {
      ReverseMultiset(r);
    }
  }

  /** While the bag is non-empty, draws read it from its end and ignore
      the refills. */
  lemma {:induction false} DrainBag(bag: seq<Shape>, refills: seq<seq<Shape>>)
    requires |refills| == |bag|
    requires forall i :: 0 <= i < |refills| ==> refills[i] != []
    ensures DrawEach(bag, refills) == Reverse(bag)
  {
    if refills != [] {
      var front := bag[..|bag| - 1];
      var last := bag[|bag| - 1];
      var d := Draw(bag, refills[0]);
      assert bag == front + [last];
      SnocParts(d.1, d.0, front, last);
      DrainBag(front, refills[1..]);
      ReverseSnoc(bag);
    }
  }

  /** Reversing puts the last element first. */
  lemma ReverseSnoc<X>(s: seq<X>)
    requires s != []
    ensures Reverse(s) == [s[|s| - 1]] + Reverse(s[..|s| - 1])
  {
    var r := [s[|s| - 1]] + Reverse(s[..|s| - 1]);
    forall i | 0 <= i < |s|
      ensures Reverse(s)[i] == r[i]
    {
      if i > 0 {
        assert r[i] == Reverse(s[..|s| - 1])[i - 1];
      }
    }
  }

  lemma {:induction false} ReverseMultiset<X>(s: seq<X>)
    ensures multiset(Reverse(s)) == multiset(s)
  {
    if s != [] {
      var front := s[..|s| - 1];
      ReverseMultiset(front);
      ReverseSnoc(s);
      assert s == front + [s[|s| - 1]];
    }
  }

  /** Where a new piece appears: centred on the top row. */
  function SpawnPos(m: Matrix): Pos
    requires IsMatrix(m)
  {
    Pos(COLS / 2 - |m[0]| / 2, 0)
  }

  /** The preview piece becomes the falling piece, a new preview is drawn
      from the bag, the per-piece flags and lock-delay counters restart, and
      the game is over if the new piece already collides. */
  function Spawn(g: Game, rng: Rng): (r: Game)
    requires Playable(g) && RngOk(rng)
    ensures Playable(r)
    ensures r.curType == g.nextType && r.curMatrix == g.nextMatrix && r.pos == SpawnPos(g.nextMatrix)
    ensures (if g.bag == [] then rng.refill else g.bag) == r.bag + [r.nextType]
    ensures r.canHold && !r.lastMoveWasRotate && !r.tSpin && r.lockTimer == 0 && r.lockMoves == 0
    ensures r.gameOver <==> g.gameOver || Hits(g, r.pos, r.curMatrix)
    ensures r.arena == g.arena && r.sc == g.sc && r.holdType == g.holdType
    ensures BagOk(g.bag) ==> BagOk(r.bag)
  {
    var d := Draw(g.bag, rng.refill);
    var p := SpawnPos(g.nextMatrix);
    g.(curType := g.nextType, curMatrix := g.nextMatrix,
       nextType := d.0, nextMatrix := InitialMatrix(d.0, rng.horizontalI), bag := d.1,
       pos := p, lockTimer := 0, lockMoves := 0, canHold := true,
       lastMoveWasRotate := false, tSpin := false,
       gameOver := g.gameOver || Hits(g, p, g.nextMatrix))
  }

  // ---------------------------------------------------------------------
  // Lock delay
  // ---------------------------------------------------------------------

  /** A successful move or turn restarts the lock-delay timer, but only the
      first 15 times per piece. */
  function ResetLockTimer(g: Game): (r: Game)
    ensures g.lockMoves < MaxLockResets ==> r.lockTimer == 0 && r.lockMoves == g.lockMoves + 1
    ensures g.lockMoves >= MaxLockResets ==> r == g
    ensures g.lockMoves <= MaxLockResets ==> r.lockMoves <= MaxLockResets
  {
    if g.lockMoves < MaxLockResets then g.(lockTimer := 0, lockMoves := g.lockMoves + 1) else g
  }

  // ---------------------------------------------------------------------
  // Rotation and the T-spin corner test
  // ---------------------------------------------------------------------

  /** The kick offsets tried in order: none, left, right, up, two left, two right. */
  const Kicks: seq<Pos> := [Pos(0, 0), Pos(-1, 0), Pos(1, 0), Pos(0, -1), Pos(-2, 0), Pos(2, 0)]

  /** The four corners of the 3x3 box of a piece at `p`, counted as
      occupied when blocked (walls and floor count, rows above the top do
      not); a T-spin needs at least three. */
  function OccupiedCorners(b: Board, p: Pos): (n: nat)
    requires IsBoard(b, ROWS, COLS)
    ensures n <= 4
  {
    (if Blocked(b, ROWS, COLS, p.y, p.x) then 1 else 0)
    + (if Blocked(b, ROWS, COLS, p.y, p.x + 2) then 1 else 0)
    + (if Blocked(b, ROWS, COLS, p.y + 2, p.x) then 1 else 0)
    + (if Blocked(b, ROWS, COLS, p.y + 2, p.x + 2) then 1 else 0)
  }

  predicate TSpinCorners(b: Board, p: Pos)
    requires IsBoard(b, ROWS, COLS)
  {
    OccupiedCorners(b, p) >= 3
  }

  /** Filling board cells never lowers the corner count. */
  lemma CornersGrowWithBoard(b1: Board, b2: Board, p: Pos)
    requires IsBoard(b1, ROWS, COLS) && IsBoard(b2, ROWS, COLS)
    requires forall y, x :: 0 <= y < ROWS && 0 <= x < COLS && b1[y][x] != 0 ==> b2[y][x] != 0
    ensures OccupiedCorners(b1, p) <= OccupiedCorners(b2, p)
  {
  }

  /** Above the top row only the walls count: each side of the box adds
      its two corners exactly when that side is past a wall. */
  lemma CornersAboveBoard(b: Board, p: Pos)
    requires IsBoard(b, ROWS, COLS) && p.y + 2 < 0
    ensures OccupiedCorners(b, p)
      == (if p.x < 0 || p.x >= COLS then 2 else 0) + (if p.x + 2 < 0 || p.x + 2 >= COLS then 2 else 0)
  {
  }

  /** A box whose bottom corners are at or below the floor has at least
      those two corners occupied. */
  lemma CornersOnFloor(b: Board, p: Pos)
    requires IsBoard(b, ROWS, COLS) && p.y + 2 >= ROWS
    ensures OccupiedCorners(b, p) >= 2
  {
  }

  /** `r` differs from `g` at most in the falling piece's matrix and
      position, the lock-delay counters and the three motion flags. */
  predicate OnlyMotion(g: Game, r: Game) {
    && r.arena == g.arena && r.sc == g.sc && r.bag == g.bag
    && r.nextType == g.nextType && r.nextMatrix == g.nextMatrix && r.curType == g.curType
    && r.holdType == g.holdType && r.canHold == g.canHold && r.holdEnabled == g.holdEnabled
    && r.lockLimit == g.lockLimit && r.paused == g.paused && r.gameOver == g.gameOver
    && r.aiConservative == g.aiConservative && r.aiActions == g.aiActions && r.aiStep == g.aiStep
  }

  /** Commit a turn to `nm` at kick offset `k`: the rotate flag is set,
      the lock timer restarted, and the T-spin flag re-tested for a T. */
  function Kicked(g: Game, nm: Matrix, k: nat): (r: Game)
    requires IsBoard(g.arena, ROWS, COLS) && k < |Kicks|
    ensures OnlyMotion(g, r) && r.onGround == g.onGround
    ensures r.curMatrix == nm && r.pos == Shift(g.pos, Kicks[k]) && r.lastMoveWasRotate
    ensures r.tSpin == SpinAfter(g, r.pos)
    ensures r.lockTimer == ResetLockTimer(g).lockTimer && r.lockMoves == ResetLockTimer(g).lockMoves
  {
    var p := Shift(g.pos, Kicks[k]);
    var timer := ResetLockTimer(g);
    g.(curMatrix := nm, pos := p, lockTimer := timer.lockTimer, lockMoves := timer.lockMoves,
       lastMoveWasRotate := true, tSpin := SpinAfter(g, p))
  }

  /** The T-spin flag after a turn lands at `p`: re-tested for a T, kept
      for every other kind. */
  function SpinAfter(g: Game, p: Pos): bool
    requires IsBoard(g.arena, ROWS, COLS)
  {
    if g.curType == T then TSpinCorners(g.arena, p) else g.tSpin
  }

  /** Turn the falling piece (clockwise for `dir > 0`), trying the kick
      offsets in order and committing the first that fits. */
  function RotatePiece(g: Game, dir: int): (r: Game)
    requires Playable(g)
    ensures g.gameOver || g.paused ==> r == g
    ensures !g.gameOver && !g.paused ==>
      var nm := Rotate(g.curMatrix, dir);
      match FirstFit(g.arena, ROWS, COLS, g.pos, nm, Kicks)
      case None => r == g
      case Some(k) => r == Kicked(g, nm, k)
  {
    if g.gameOver || g.paused then g
    else
      var nm := Rotate(g.curMatrix, dir);
      RotateKeepsPiece(g.curMatrix, dir);
      match FirstFit(g.arena, ROWS, COLS, g.pos, nm, Kicks)
      case None => g
      case Some(k) => Kicked(g, nm, k)
  }

  /** A turn touches only the matrix, the position, the lock-delay
      counters and the two rotation flags. */
  lemma RotatePieceFrame(g: Game, dir: int)
    requires Playable(g)
    ensures var r := RotatePiece(g, dir);
      OnlyMotion(g, r) && r.onGround == g.onGround
  {
  }

  // ---------------------------------------------------------------------
  // Translations and drops
  // ---------------------------------------------------------------------

  /** Soft drop: one row down if it fits, else stay and mark the piece
      grounded. The lock-delay timer is not touched. */
  function MoveDown(g: Game): (r: Game)
    requires Playable(g)
    ensures Grounded(g) ==> r == g.(onGround := true)
    ensures !Grounded(g) ==> r == g.(pos := Pos(g.pos.x, g.pos.y + 1), lastMoveWasRotate := false, onGround := false)
    ensures OnlyMotion(g, r) && r.curMatrix == g.curMatrix && r.lockMoves == g.lockMoves
  {
    var p := Pos(g.pos.x, g.pos.y + 1);
    if Hits(g, p, g.curMatrix) then g.(onGround := true)
    else g.(pos := p, lastMoveWasRotate := false, onGround := false)
  }

  /** Commit a sideways move to `p`: the rotate flag is cleared, the
      grounded flag re-probed under the new position and the lock timer
      restarted. */
  function Slid(g: Game, p: Pos): (r: Game)
    requires IsBoard(g.arena, ROWS, COLS)
    ensures OnlyMotion(g, r) && r.curMatrix == g.curMatrix && r.tSpin == g.tSpin
    ensures r.pos == p && !r.lastMoveWasRotate
    ensures r.onGround == Hits(g, Pos(p.x, p.y + 1), g.curMatrix)
    ensures r.lockTimer == ResetLockTimer(g).lockTimer && r.lockMoves == ResetLockTimer(g).lockMoves
  {
    var timer := ResetLockTimer(g);
    g.(pos := p, lastMoveWasRotate := false, onGround := Hits(g, Pos(p.x, p.y + 1), g.curMatrix),
       lockTimer := timer.lockTimer, lockMoves := timer.lockMoves)
  }

  /** Move sideways by `dx`; on collision nothing changes and the result is
      false. On success the rotate flag is cleared (the T-spin flag is
      not), the grounded flag is re-probed and the lock timer restarted. */
  function MoveHorizontal(g: Game, dx: int): (r: (Game, bool))
    requires Playable(g)
    ensures var p := Pos(g.pos.x + dx, g.pos.y);
      Hits(g, p, g.curMatrix) ==> r == (g, false)
    ensures var p := Pos(g.pos.x + dx, g.pos.y);
      !Hits(g, p, g.curMatrix) ==>
        && r.1 && r.0.pos == p && !r.0.lastMoveWasRotate
        && r.0.onGround == Hits(g, Pos(p.x, p.y + 1), g.curMatrix)
        && r.0.lockTimer == ResetLockTimer(g).lockTimer && r.0.lockMoves == ResetLockTimer(g).lockMoves
  {
    var p := Pos(g.pos.x + dx, g.pos.y);
    if Hits(g, p, g.curMatrix) then (g, false) else (Slid(g, p), true)
  }

  /** A sideways move touches only the position, the two flags and the
      lock-delay counters. */
  lemma MoveHorizontalFrame(g: Game, dx: int)
    requires Playable(g)
    ensures var r := MoveHorizontal(g, dx).0;
      OnlyMotion(g, r) && r.curMatrix == g.curMatrix && r.tSpin == g.tSpin
  {
  }

  /** The row a hard drop (or the ghost piece) lands on. */
  function DropRow(g: Game): int
    requires Playable(g)
  {
    LandingRow(g.arena, ROWS, COLS, g.pos.x, g.pos.y, g.curMatrix)
  }

  /** The ghost piece: same column, the last row before the downward probe
      first collides; the falling piece itself does not move. */
  function GhostPosition(g: Game): (p: Pos)
    requires Playable(g)
    ensures p.x == g.pos.x && p.y >= g.pos.y - 1
    ensures Hits(g, Pos(p.x, p.y + 1), g.curMatrix)
    ensures forall k :: g.pos.y <= k <= p.y ==> !Hits(g, Pos(p.x, k), g.curMatrix)
  {
    Pos(g.pos.x, DropRow(g))
  }

  /** Move the piece straight down to its landing row and lock it there. */
  function HardDrop(g: Game, rng: Rng): (r: Game)
    requires Playable(g) && RngOk(rng)
    ensures r == LockPiece(g.(pos := GhostPosition(g)), rng)
  {
    LockPiece(g.(pos := GhostPosition(g)), rng)
  }

  // ---------------------------------------------------------------------
  // Line clear and scoring
  // ---------------------------------------------------------------------

  /** Points per cleared line count, before the level multiplier. */
  function LineBonus(n: nat): int {
    if n == 1 then 100 else if n == 2 then 300 else if n == 3 then 500 else if n == 4 then 800 else 0
  }

  /** Points for a cleared line count when the T-spin flag is set; any
      count other than 1..3 gets 400. */
  function SpinBonus(n: nat): int {
    if n == 1 then 800 else if n == 2 then 1200 else if n == 3 then 1600 else 400
  }

  /** What clearing `n` lines adds to the score. */
  function ScoreGain(n: nat, spin: bool, level: int): int {
    if n == 0 then (if spin then 100 else 0)
    else (if spin then SpinBonus(n) else LineBonus(n)) * level
  }

  /** The game's clear loop: scan from the bottom row up; a full row is
      removed and an empty row inserted on top, and the same row index is
      examined again; otherwise move one row up. */
  method ClearLinesScan(b: Board, cols: nat) returns (nb: Board, count: nat)
    requires cols > 0 && forall y :: 0 <= y < |b| ==> |b[y]| == cols
    ensures nb == EmptyRows(count, cols) + KeepRows(b)
    ensures count == CountFull(b)
  {
    nb := b;
    count := 0;
    var y := |b| - 1;
    ghost var j: nat := |b|;
    ScanStart(b, cols);
    while y >= 0
      invariant ScanInv(b, cols, nb, count, y, j)
      decreases y + j
    {
      nb, count, y, j := ScanStep(b, cols, nb, count, y, j);
    }
    ScanEnd(b, cols, nb, count, y, j);
  }

  lemma ScanStart(b: Board, cols: nat)
    ensures ScanInv(b, cols, b, 0, |b| - 1, |b|)
  {
    assert b[..|b|] == b;
    assert b[|b|..] == [];
  }

  /** When the scan runs off the top, every original row has been examined. */
  lemma ScanEnd(b: Board, cols: nat, nb: Board, c: nat, y: int, j: nat)
    requires ScanInv(b, cols, nb, c, y, j) && y < 0
    ensures nb == EmptyRows(c, cols) + KeepRows(b)
    ensures c == CountFull(b)
  {
    assert j == 0;
    assert b[0..] == b;
    assert b[..0] == [];
  }

  /** The loop invariant of the scan: `nb` is the original with `c` rows
      removed among rows `j..`, and `y` is the row to look at next. */
  ghost predicate ScanInv(b: Board, cols: nat, nb: Board, c: nat, y: int, j: nat) {
    && j <= |b| && -1 <= y
    && nb == Scanned(b, cols, c, j)
    && c == CountFull(b[j..])
    && (if j > 0 then y == c + j - 1 else y < c)
  }

  /** One iteration of the scan. */
  method ScanStep(b: Board, cols: nat, nb: Board, c: nat, y: int, ghost j: nat)
    returns (nb': Board, c': nat, y': int, ghost j': nat)
    requires cols > 0 && ScanInv(b, cols, nb, c, y, j) && y >= 0
    ensures ScanInv(b, cols, nb', c', y', j')
    ensures y' + j' < y + j
  {
    ScanRow(b, cols, c, j, y);
    if Full(nb[y]) {
      ScanInvFull(b, cols, nb, c, y, j);
      nb', c', y', j' := [EmptyRow(cols)] + nb[..y] + nb[y + 1..], c + 1, y, j - 1;
    } else {
      ScanInvKeep(b, cols, nb, c, y, j);
      nb', c', y' := nb, c, y - 1;
      j' := if j > 0 then j - 1 else j;
    }
  }

  /** A full row under the scan is one of the original's (the inserted
      rows are empty) and its removal keeps the invariant. */
  lemma ScanInvFull(b: Board, cols: nat, nb: Board, c: nat, y: int, j: nat)
    requires cols > 0 && ScanInv(b, cols, nb, c, y, j) && 0 <= y < |nb| && Full(nb[y])
    ensures j > 0
    ensures ScanInv(b, cols, [EmptyRow(cols)] + nb[..y] + nb[y + 1..], c + 1, y, j - 1)
  {
    ScanRow(b, cols, c, j, y);
    assert j > 0 && y == c + j - 1 && nb[y] == b[j - 1];
    ScanStepFull(b, cols, nb, c, j, y);
  }

  /** Skipping a row that is not full keeps the invariant. */
  lemma ScanInvKeep(b: Board, cols: nat, nb: Board, c: nat, y: int, j: nat)
    requires cols > 0 && ScanInv(b, cols, nb, c, y, j) && 0 <= y < |nb| && !Full(nb[y])
    ensures ScanInv(b, cols, nb, c, y - 1, if j > 0 then j - 1 else j)
  {
    ScanRow(b, cols, c, j, y);
    if j > 0 {
      ScanStepKeep(b, cols, c, j);
    }
  }

  /** The board during the scan when `c` rows have been removed and rows
      `j..` of the original have been examined. */
  ghost function Scanned(b: Board, cols: nat, c: nat, j: nat): Board
    requires j <= |b|
  {
    EmptyRows(c, cols) + b[..j] + KeepRows(b[j..])
  }

  /** The row the scan looks at: the last unexamined row, or an inserted
      empty row once every original row has been examined. */
  lemma ScanRow(b: Board, cols: nat, c: nat, j: nat, y: int)
    requires j <= |b| && cols > 0
    requires if j > 0 then y == c + j - 1 else 0 <= y < c
    ensures y < |Scanned(b, cols, c, j)|
    ensures j > 0 ==> Scanned(b, cols, c, j)[y] == b[j - 1]
    ensures j == 0 ==> !Full(Scanned(b, cols, c, j)[y])
  {
    var nb := Scanned(b, cols, c, j);
    if j == 0 {
      assert nb[y][0] == 0;
    }
  }

  /** One removal step of the scan. */
  lemma ScanStepFull(b: Board, cols: nat, nb: Board, c: nat, j: nat, y: int)
    requires 0 < j <= |b| && Full(b[j - 1])
    requires nb == Scanned(b, cols, c, j) && y == c + j - 1
    ensures [EmptyRow(cols)] + nb[..y] + nb[y + 1..] == Scanned(b, cols, c + 1, j - 1)
    ensures CountFull(b[j - 1..]) == CountFull(b[j..]) + 1
  {
    var e := EmptyRows(c, cols);
    var k := KeepRows(b[j..]);
    assert b[j - 1..][1..] == b[j..];
    assert nb == e + b[..j] + k;
    assert nb[..y] == e + b[..j - 1];
    assert nb[y + 1..] == k;
    assert [EmptyRow(cols)] + e == EmptyRows(c + 1, cols);
  }

  /** One skip step of the scan. */
  lemma ScanStepKeep(b: Board, cols: nat, c: nat, j: nat)
    requires 0 < j <= |b| && !Full(b[j - 1])
    ensures Scanned(b, cols, c, j) == Scanned(b, cols, c, j - 1)
    ensures CountFull(b[j - 1..]) == CountFull(b[j..])
  {
    assert b[j - 1..][1..] == b[j..];
    assert b[..j] == b[..j - 1] + [b[j - 1]];
  }

  /** Remove the full rows and score them: a base table times the level, or
      the T-spin table times the level when `spin` is set; a spin that
      clears nothing still earns 100. The level goes up by one after a
      non-empty clear that brings the score to at least level * 1000. */
  function ClearLines(b: Board, s: ScoreState, spin: bool): (r: (Board, ScoreState))
    requires IsBoard(b, ROWS, COLS)
    ensures var n := CountFull(b);
      && r.0 == EmptyRows(n, COLS) + KeepRows(b)
      && IsBoard(r.0, ROWS, COLS) && NoFullRows(r.0)
      && r.1.score == s.score + ScoreGain(n, spin, s.level)
      && r.1.lines == s.lines + n
      && (r.1.level == s.level + 1 <==> n > 0 && r.1.score >= s.level * 1000)
      && s.level <= r.1.level <= s.level + 1
      && r.1.stats == (if n in s.stats && n > 0 then s.stats[n := s.stats[n] + 1] else s.stats)
  {
    var c := ClearFull(b, COLS);
    var n := c.count;
    if n == 0 then
      (c.board, s.(score := s.score + (if spin then 100 else 0)))
    else
      var stats := if n in s.stats then s.stats[n := s.stats[n] + 1] else s.stats;
      var score := s.score + (if spin then SpinBonus(n) else LineBonus(n)) * s.level;
      var level := if score >= s.level * 1000 then s.level + 1 else s.level;
      (c.board, ScoreState(score, level, s.lines + n, stats))
  }

  /** The T-spin table pays more than the base table for one to three
      lines, and less for four. */
  lemma SpinTablesCompared(n: nat, level: int)
    requires level >= 1
    ensures 1 <= n <= 3 ==> ScoreGain(n, true, level) > ScoreGain(n, false, level)
    ensures n == 4 ==> ScoreGain(n, true, level) < ScoreGain(n, false, level)
  {
  }

  // ---------------------------------------------------------------------
  // Lock
  // ---------------------------------------------------------------------

  /** Stamp the falling piece into the board, spawn the next piece, and
      only then clear lines. The stamp writes through Python indices, so a
      cell above the top row lands that many rows up from the bottom. */
  function LockPiece(g: Game, rng: Rng): (r: Game)
    requires Playable(g) && RngOk(rng)
    ensures Playable(r) && !r.onGround
    ensures var merged := Stamp(g.arena, ROWS, COLS, g.pos, g.curMatrix);
      && r.arena == ClearFull(merged, COLS).board
      && r.sc.score == g.sc.score + ScoreGain(CountFull(merged), false, g.sc.level)
      && (r.gameOver <==> g.gameOver || Collides(merged, ROWS, COLS, SpawnPos(g.nextMatrix), g.nextMatrix))
      && r.curType == g.nextType && !r.tSpin && r.canHold
    ensures r.lockMoves == 0 && (BagOk(g.bag) ==> BagOk(r.bag))
  {
    var merged := Stamp(g.arena, ROWS, COLS, g.pos, g.curMatrix);
    var g1 := Spawn(g.(arena := merged), rng);
    var cl := ClearLines(g1.arena, g1.sc, g1.tSpin);
    g1.(arena := cl.0, sc := cl.1, onGround := false)
  }

  lemma CellsAfterClear(b: Board)
    requires IsBoard(b, ROWS, COLS) && CellsWithin(b, 0, 7)
    ensures CellsWithin(ClearFull(b, COLS).board, 0, 7)
  {
    var c := ClearFull(b, COLS);
    forall y, x | 0 <= y < |c.board| && 0 <= x < |c.board[y]|
      ensures 0 <= c.board[y][x] <= 7
    {
      if y >= c.count {
        var k := KeepRows(b)[y - c.count];
        assert c.board[y] == k;
        assert k in b;
      }
    }
  }

  /** With no full row before the lock, a lock clears at most as many lines
      as the piece is tall (so at most four). */
  lemma LockClearsAtMostPieceHeight(g: Game)
    requires Playable(g) && NoFullRows(g.arena)
    ensures CountFull(Stamp(g.arena, ROWS, COLS, g.pos, g.curMatrix)) <= |g.curMatrix| <= 4
  {
    StampedFullRowsWithinPiece(g.arena, ROWS, COLS, g.pos, g.curMatrix);
  }

  /** Stamping a piece into a board without full rows can complete only
      rows the piece covers. */
  lemma PlacedFullRowsWithinPiece(b: Board, rows: nat, cols: nat, p: Pos, m: Matrix)
    requires IsBoard(b, rows, cols) && NoFullRows(b) && IsMatrix(m)
    ensures CountFull(Place(b, rows, cols, p, m)) <= |m|
  {
    var pb := Place(b, rows, cols, p, m);
    forall y | 0 <= y < |pb| && !(p.y <= y < p.y + |m|)
      ensures !Full(pb[y])
    {
      assert !Full(b[y]);
      var x :| 0 <= x < cols && b[y][x] == 0;
      assert !Covers(m, p, y, x);
      assert pb[y][x] == 0;
    }
    CountFullWithin(pb, p.y, p.y + |m|);
  }

  // ---------------------------------------------------------------------
  // Hold
  // ---------------------------------------------------------------------

  /** Swap the falling piece with the hold slot, once per spawn. With an
      empty slot the piece is stored and the next one spawns; otherwise the
      held kind comes back in its table orientation at the spawn position
      (no collision test). */
  function HoldPiece(g: Game, rng: Rng): (r: Game)
    requires Playable(g) && RngOk(rng)
    ensures !g.holdEnabled || !g.canHold || g.paused || g.gameOver ==> r == g
    ensures g.holdEnabled && g.canHold && !g.paused && !g.gameOver ==>
      && !r.canHold
      && r.holdType == Some(g.curType)
      && (g.holdType.Some? ==> r.curType == g.holdType.value && r.curMatrix == ShapeMatrix(g.holdType.value)
                                && r.pos == SpawnPos(r.curMatrix) && r.arena == g.arena && r.bag == g.bag)
      && (g.holdType.None? ==> r.curType == g.nextType)
    ensures Playable(r)
  {
    if !g.holdEnabled || !g.canHold || g.paused || g.gameOver then g
    else
      var g1 := match g.holdType
        case None => Spawn(g.(holdType := Some(g.curType)), rng)
        case Some(h) =>
          var m := ShapeMatrix(h);
          g.(curType := h, holdType := Some(g.curType), curMatrix := m, pos := SpawnPos(m));
      g1.(canHold := false)
  }

  /** A second hold before the next spawn does nothing. */
  lemma HoldOncePerSpawn(g: Game, r1: Rng, r2: Rng)
    requires Playable(g) && RngOk(r1) && RngOk(r2)
    ensures HoldPiece(HoldPiece(g, r1), r2) == HoldPiece(g, r1)
  {
  }

  // ---------------------------------------------------------------------
  // The lock part of the per-frame update
  // ---------------------------------------------------------------------

  /** This tick locks the piece: the game runs, the piece is grounded and
      the accumulated ground time reaches the limit. */
  predicate LocksOnTick(g: Game, dt: nat)
    requires Playable(g)
  {
    !g.paused && !g.gameOver && Grounded(g) && g.lockTimer + dt >= g.lockLimit
  }

  /** Advance the lock-delay timer by `dt` ticks while grounded and lock
      when it reaches the limit. (Gravity is not modelled.) */
  function Tick(g: Game, dt: nat, rng: Rng): (r: Game)
    requires Playable(g) && RngOk(rng)
    ensures g.paused || g.gameOver || !Grounded(g) ==> r == g
    ensures !g.paused && !g.gameOver && Grounded(g) && !LocksOnTick(g, dt) ==> r == g.(lockTimer := g.lockTimer + dt)
    ensures LocksOnTick(g, dt) ==> r == LockPiece(g.(lockTimer := g.lockTimer + dt), rng)
  {
    if g.paused || g.gameOver || !Grounded(g) then g
    else if g.lockTimer + dt >= g.lockLimit then LockPiece(g.(lockTimer := g.lockTimer + dt), rng)
    else g.(lockTimer := g.lockTimer + dt)
  }

  /** Once the 15 restarts are spent, neither a sideways move nor a turn
      restarts the timer, so a grounded piece locks after at most
      `lockLimit` more ticks of ground time. */
  lemma ResetCapStopsRestarts(g: Game, dx: int, dir: int)
    requires Playable(g) && g.lockMoves == MaxLockResets
    ensures MoveHorizontal(g, dx).0.lockTimer == g.lockTimer
    ensures RotatePiece(g, dir).lockTimer == g.lockTimer
    ensures MoveHorizontal(g, dx).0.lockMoves == MaxLockResets
  {
  }

  // ---------------------------------------------------------------------
  // The state invariant
  // ---------------------------------------------------------------------

  /** A piece at its spawn position is within the walls. */
  lemma SpawnPosBounds(m: Matrix)
    requires PieceMatrix(m)
    ensures SpawnPos(m).y >= -|m| && WithinWalls(ROWS, COLS, SpawnPos(m), m)
  {
  }

  lemma SpawnKeepsInv(g: Game, rng: Rng)
    requires Inv(g) && RngOk(rng)
    ensures Inv(Spawn(g, rng))
  {
    SpawnPosBounds(g.nextMatrix);
  }

  lemma RotateKeepsInv(g: Game, dir: int)
    requires Inv(g)
    ensures Inv(RotatePiece(g, dir))
  {
    RotatePieceFrame(g, dir);
    if !g.gameOver && !g.paused {
      var nm := Rotate(g.curMatrix, dir);
      RotateKeepsPiece(g.curMatrix, dir);
      var k := FirstFit(g.arena, ROWS, COLS, g.pos, nm, Kicks);
      if k.Some? {
        KickedBounds(g, nm, k.value);
        MovedKeepsInv(g, Kicked(g, nm, k.value));
      }
    }
  }

  /** A turn that fits at kick `k` stays within the walls; the upward kick
      is taken only when the unkicked turn collides, which above the board
      only a wall can cause, so the raised piece still reaches the board. */
  lemma KickedBounds(g: Game, nm: Matrix, k: nat)
    requires Inv(g) && k < |Kicks| && |nm| == |g.curMatrix|
    requires !Hits(g, Shift(g.pos, Kicks[k]), nm)
    requires k == 3 ==> Hits(g, Shift(g.pos, Kicks[0]), nm)
    ensures PieceBounds(Kicked(g, nm, k))
  {
    var p := Shift(g.pos, Kicks[k]);
    FreeWithinWalls(g.arena, ROWS, COLS, p, nm);
    if k == 3 {
      RaiseNeedsBoard(g.arena, ROWS, COLS, g.pos, nm);
    }
  }

  lemma MovesKeepInv(g: Game, dx: int)
    requires Inv(g)
    ensures Inv(MoveDown(g)) && Inv(MoveHorizontal(g, dx).0)
  {
    DownKeepsInv(g);
    SideKeepsInv(g, dx);
  }

  lemma DownKeepsInv(g: Game)
    requires Inv(g)
    ensures Inv(MoveDown(g))
  {
    DownBounds(g);
    MovedKeepsInv(g, MoveDown(g));
  }

  /** A soft drop stays put or moves to a free row. */
  lemma DownBounds(g: Game)
    requires Playable(g) && PieceBounds(g)
    ensures PieceBounds(MoveDown(g))
  {
    var p := Pos(g.pos.x, g.pos.y + 1);
    var r := MoveDown(g);
    if Hits(g, p, g.curMatrix) {
      assert r.pos == g.pos && r.curMatrix == g.curMatrix;
    } else {
      assert r.pos == p && r.curMatrix == g.curMatrix;
      FreeBounds(g, r);
    }
  }

  /** A piece moved to a free position no higher than before keeps its bounds. */
  lemma FreeBounds(g: Game, r: Game)
    requires IsBoard(g.arena, ROWS, COLS) && PieceBounds(g) && r.curMatrix == g.curMatrix
    requires !Hits(g, r.pos, r.curMatrix) && r.pos.y >= g.pos.y
    ensures PieceBounds(r)
  {
    FreeWithinWalls(g.arena, ROWS, COLS, r.pos, r.curMatrix);
  }

  /** The invariant speaks only of the board, the matrices, the bag, the
      restart count and the piece's position. */
  lemma SameBoardKeepsInv(g: Game, d: Game)
    requires Inv(g)
    requires d.arena == g.arena && d.bag == g.bag && d.lockMoves == g.lockMoves
    requires d.curMatrix == g.curMatrix && d.nextMatrix == g.nextMatrix && d.pos == g.pos
    ensures Inv(d)
  {
  }

  /** A move keeps the invariant when the new position is within bounds. */
  lemma MovedKeepsInv(g: Game, d: Game)
    requires Inv(g) && OnlyMotion(g, d) && PieceMatrix(d.curMatrix) && d.lockMoves <= MaxLockResets
    requires PieceBounds(d)
    ensures Inv(d)
  {
  }

  lemma SideKeepsInv(g: Game, dx: int)
    requires Inv(g)
    ensures Inv(MoveHorizontal(g, dx).0)
  {
    var p := Pos(g.pos.x + dx, g.pos.y);
    if !Hits(g, p, g.curMatrix) {
      MoveHorizontalFrame(g, dx);
      FreeWithinWalls(g.arena, ROWS, COLS, p, g.curMatrix);
      MovedKeepsInv(g, MoveHorizontal(g, dx).0);
    }
  }

  /** Under the invariant no lock reaches an index Python rejects: neither
      a lock where the piece is nor a hard drop's lock at the landing row
      can raise an IndexError. */
  lemma NoIndexError(g: Game)
    requires Inv(g)
    ensures Lockable(ROWS, COLS, g.pos, g.curMatrix)
    ensures Lockable(ROWS, COLS, GhostPosition(g), g.curMatrix)
  {
    var p := GhostPosition(g);
    if p.y >= g.pos.y {
      FreeWithinWalls(g.arena, ROWS, COLS, p, g.curMatrix);
    }
  }

  lemma LockKeepsInv(g: Game, rng: Rng)
    requires Inv(g) && RngOk(rng)
    ensures Inv(LockPiece(g, rng))
  {
    var merged := Stamp(g.arena, ROWS, COLS, g.pos, g.curMatrix);
    StampKeepsCells(g.arena, ROWS, COLS, g.pos, g.curMatrix, 0, 7);
    CellsAfterClear(merged);
    SpawnPosBounds(g.nextMatrix);
  }

  /** Locking needs only the board, the bag and the preview from the
      invariant, so it holds wherever the piece was. */
  lemma LockAnywhereKeepsInv(g: Game, p: Pos, rng: Rng)
    requires Inv(g) && RngOk(rng)
    ensures Inv(LockPiece(g.(pos := p), rng))
  {
    var merged := Stamp(g.arena, ROWS, COLS, p, g.curMatrix);
    StampKeepsCells(g.arena, ROWS, COLS, p, g.curMatrix, 0, 7);
    CellsAfterClear(merged);
    SpawnPosBounds(g.nextMatrix);
  }

  lemma HardDropKeepsInv(g: Game, rng: Rng)
    requires Inv(g) && RngOk(rng)
    ensures Inv(HardDrop(g, rng))
  {
    LockAnywhereKeepsInv(g, GhostPosition(g), rng);
  }

  lemma HoldKeepsInv(g: Game, rng: Rng)
    requires Inv(g) && RngOk(rng)
    ensures Inv(HoldPiece(g, rng))
  {
    if g.holdEnabled && g.canHold && !g.paused && !g.gameOver {
      if g.holdType.None? {
        SpawnKeepsInv(g.(holdType := Some(g.curType)), rng);
      } else {
        SpawnPosBounds(ShapeMatrix(g.holdType.value));
      }
    }
  }

  lemma TickKeepsInv(g: Game, dt: nat, rng: Rng)
    requires Inv(g) && RngOk(rng)
    ensures Inv(Tick(g, dt, rng))
  {
    if LocksOnTick(g, dt) {
      LockKeepsInv(g.(lockTimer := g.lockTimer + dt), rng);
    }
  }

  // ---------------------------------------------------------------------
  // New game
  // ---------------------------------------------------------------------

  const StartStats: map<int, nat> := map[1 := 0, 2 := 0, 3 := 0, 4 := 0]

  /** Reset: empty board, zero score at `startLevel`, a fresh bag from
      which the preview is drawn, an empty hold slot, the lock-delay limit
      (half a second, as `lockLimit` ticks), then the first spawn. */
  function ResetGame(g: Game, startLevel: int, lockLimit: nat, shuffle: seq<Shape>, flipNext: bool, flipSpawn: bool): (r: Game)
    requires FullBag(shuffle)
    ensures r.arena == EmptyBoard(ROWS, COLS) && r.sc == ScoreState(0, startLevel, 0, StartStats)
    ensures r.curType == shuffle[6] && r.nextType == shuffle[5] && r.bag == shuffle[..5]
    ensures r.holdType.None? && r.canHold && !r.paused && !r.gameOver && r.lockLimit == lockLimit
    ensures Playable(r)
  {
    var d := Draw(shuffle, shuffle);
    assert shuffle == shuffle[..6] + [shuffle[6]];
    SnocParts(d.1, d.0, shuffle[..6], shuffle[6]);
    var m := InitialMatrix(d.0, flipNext);
    var g0 := g.(arena := EmptyBoard(ROWS, COLS), sc := ScoreState(0, startLevel, 0, StartStats),
                 bag := d.1, nextType := d.0, nextMatrix := m, curType := d.0, curMatrix := m,
                 lockTimer := 0, lockLimit := lockLimit, lockMoves := 0, holdType := None, canHold := true,
                 paused := false, gameOver := false, onGround := false);
    var r := Spawn(g0, Rng(shuffle, flipSpawn));
    assert shuffle[..6] == shuffle[..5] + [shuffle[5]];
    SnocParts(r.bag, r.nextType, shuffle[..5], shuffle[5]);
    r
  }

  /** Splitting a sequence at its last element is unique. */
  lemma SnocParts<T>(a: seq<T>, x: T, b: seq<T>, y: T)
    requires a + [x] == b + [y]
    ensures a == b && x == y
  {
    assert |a| == |b|;
    assert (a + [x])[|a|] == x && (b + [y])[|b|] == y;
    assert (a + [x])[..|a|] == a && (b + [y])[..|b|] == b;
  }

  /** A new game satisfies the state invariant. */
  lemma ResetGameInv(g: Game, startLevel: int, lockLimit: nat, shuffle: seq<Shape>, flipNext: bool, flipSpawn: bool)
    requires FullBag(shuffle)
    ensures Inv(ResetGame(g, startLevel, lockLimit, shuffle, flipNext, flipSpawn))
  {
    var r := ResetGame(g, startLevel, lockLimit, shuffle, flipNext, flipSpawn);
    assert BagOk(r.bag);
    forall y | 0 <= y < ROWS
      ensures !Full(r.arena[y])
    {
      assert r.arena[y][0] == 0;
    }
  }
}
