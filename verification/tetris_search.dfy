/**
 The autoplay search of the main game: enumerate every straight-down
 placement of the falling piece and of the hold candidate (four rotations,
 columns -2 .. 15), score the resulting boards, keep the 32 best, look one
 piece further ahead with the preview piece, and pick the placement with the
 best two-ply total.
 */
module TetrisSearch {
  import opened Wrappers
  import opened Grid
  import opened Shapes
  import opened Sorting
  import opened Lists
  import opened Tetris
  import TetrisEval

  /** How many first-ply moves get a second-ply look. */
  const SearchLimit: nat := 32

  /** `k` clockwise quarter turns (each one the zip-of-reversed-rows of the
      search, see `Grid.ZipRotationIsClockwise`). */
  function TurnTimes(m: Matrix, k: nat): (r: Matrix)
    requires PieceMatrix(m)
    ensures PieceMatrix(r)
  {
    if k == 0 then m
    else
      var p := TurnTimes(m, k - 1);
      RotateKeepsPiece(p, 1);
      Rotate(p, 1)
  }

  /** Four quarter turns give back the piece. */
  lemma FourTurnsIdentity(m: Matrix)
    requires PieceMatrix(m)
    ensures TurnTimes(m, 4) == m
  {
    assert TurnTimes(m, 0) == m;
    assert TurnTimes(m, 1) == Rotate(m, 1);
    assert TurnTimes(m, 2) == Rotate(TurnTimes(m, 1), 1);
    assert TurnTimes(m, 3) == Rotate(TurnTimes(m, 2), 1);
    assert TurnTimes(m, 4) == Rotate(TurnTimes(m, 3), 1);
    RotateFourTimes(m);
  }

  // ---------------------------------------------------------------------
  // Candidates and placements
  // ---------------------------------------------------------------------

  /** A piece the first ply may place, and whether placing it needs a hold. */
  datatype Candidate = Candidate(mat: Matrix, hold: bool)

  /** The falling piece; and, when hold is allowed, the held kind (or, with
      an empty slot, the preview kind) in its table orientation. */
  function Candidates(g: Game): (cs: seq<Candidate>)
    requires Playable(g)
    ensures 1 <= |cs| <= 2 && cs[0] == Candidate(g.curMatrix, false)
    ensures |cs| == 2 <==> g.holdEnabled && g.canHold
    ensures |cs| == 2 ==> cs[1].hold && cs[1].mat == ShapeMatrix(g.holdType.GetOr(g.nextType))
    ensures forall i :: 0 <= i < |cs| ==> PieceMatrix(cs[i].mat)
  {
    [Candidate(g.curMatrix, false)]
    + (if g.holdEnabled && g.canHold then [Candidate(ShapeMatrix(g.holdType.GetOr(g.nextType)), true)] else [])
  }

  /** A straight-down placement: rotation count, column, landing row,
      matrix, and whether it uses the hold. */
  datatype Placement = Placement(rot: nat, x: int, y: int, mat: Matrix, hold: bool)

  /** The placement of `m` dropped straight down in column `x`: absent
      when it does not fit at the top row, otherwise at the row it falls
      to. */
  function Drop(b: Board, m: Matrix, rot: nat, hold: bool, x: int): Option<Placement>
    requires IsBoard(b, ROWS, COLS) && HasCell(m)
  {
    if Collides(b, ROWS, COLS, Pos(x, 0), m) then None
    else Some(Placement(rot, x, LandingRow(b, ROWS, COLS, x, 0, m), m, hold))
  }

  /** A dropped placement rests on the board: it fits at every row from the
      top down to its own, and one row lower it collides. */
  lemma DropLands(b: Board, m: Matrix, rot: nat, hold: bool, x: int)
    requires IsBoard(b, ROWS, COLS) && HasCell(m)
    ensures Drop(b, m, rot, hold, x).None? <==> Collides(b, ROWS, COLS, Pos(x, 0), m)
    ensures Drop(b, m, rot, hold, x).Some? ==>
      var p := Drop(b, m, rot, hold, x).value;
      && p.x == x && p.mat == m && p.rot == rot && p.hold == hold && 0 <= p.y < ROWS
      && (forall k :: 0 <= k <= p.y ==> !Collides(b, ROWS, COLS, Pos(x, k), m))
      && Collides(b, ROWS, COLS, Pos(x, p.y + 1), m)
  {
    if !Collides(b, ROWS, COLS, Pos(x, 0), m) {
      var y := LandingRow(b, ROWS, COLS, x, 0, m);
      if y >= ROWS {
        assert !Collides(b, ROWS, COLS, Pos(x, ROWS), m);
        FloorCollides(b, ROWS, COLS, Pos(x, ROWS), m);
      }
    }
  }

  /** A dropped placement records its own column, rotation, matrix and
      hold flag. */
  lemma DropFields(b: Board, m: Matrix, rot: nat, hold: bool, x: int)
    requires IsBoard(b, ROWS, COLS) && HasCell(m)
    ensures Drop(b, m, rot, hold, x).Some? ==>
      var p := Drop(b, m, rot, hold, x).value;
      p.x == x && p.mat == m && p.rot == rot && p.hold == hold
  {
  }

  /** A placement the search considers for candidate `c`: up to three
      quarter turns, a column in -2 .. COLS + 1, and the straight drop
      there. */
  predicate Reachable(b: Board, c: Candidate, p: Placement)
    requires IsBoard(b, ROWS, COLS) && PieceMatrix(c.mat)
  {
    && p.rot < 4 && -2 <= p.x < COLS + 2
    && Drop(b, TurnTimes(c.mat, p.rot), p.rot, c.hold, p.x) == Some(p)
  }

  /** The straight drops of `m` in columns -2 .. COLS + 1, left to right. */
  function Drops(b: Board, m: Matrix, rot: nat, hold: bool): (s: seq<Option<Placement>>)
    requires IsBoard(b, ROWS, COLS) && HasCell(m)
    ensures |s| == COLS + 4
    ensures forall i :: 0 <= i < COLS + 4 ==> s[i] == Drop(b, m, rot, hold, i - 2)
  {
    seq(COLS + 4, i requires 0 <= i < COLS + 4 => Drop(b, m, rot, hold, i - 2))
  }

  /** The fitting placements of `m`, left to right. */
  function Columns(b: Board, m: Matrix, rot: nat, hold: bool): (ps: seq<Placement>)
    requires IsBoard(b, ROWS, COLS) && HasCell(m)
    ensures forall i :: 0 <= i < |ps| ==> ps[i].mat == m
  {
    var s := Drops(b, m, rot, hold);
    var ps := Somes(s);
    assert forall i :: 0 <= i < |ps| ==> ps[i].mat == m by {
      forall i | 0 <= i < |ps|
        ensures ps[i].mat == m
      {
        SomesExactly(s, ps[i]);
      }
    }
    ps
  }

  /** The fitting placements of each of the candidate's four rotations. */
  function RotationLists(b: Board, c: Candidate): (ss: seq<seq<Placement>>)
    requires IsBoard(b, ROWS, COLS) && PieceMatrix(c.mat)
    ensures |ss| == 4
    ensures forall r :: 0 <= r < 4 ==> ss[r] == Columns(b, TurnTimes(c.mat, r), r, c.hold)
  {
    seq(4, r requires 0 <= r < 4 => Columns(b, TurnTimes(c.mat, r), r, c.hold))
  }

  /** The fitting placements of the candidate, rotation by rotation. */
  function Rotations(b: Board, c: Candidate): (ps: seq<Placement>)
    requires IsBoard(b, ROWS, COLS) && PieceMatrix(c.mat)
    ensures forall i :: 0 <= i < |ps| ==> PieceMatrix(ps[i].mat)
  {
    var ss := RotationLists(b, c);
    var ps := Flatten(ss);
    assert forall i :: 0 <= i < |ps| ==> PieceMatrix(ps[i].mat) by {
      forall i | 0 <= i < |ps|
        ensures PieceMatrix(ps[i].mat)
      {
        FlattenExactly(ss, ps[i]);
      }
    }
    ps
  }

  /** The placements of each candidate. */
  function CandidateLists(b: Board, cs: seq<Candidate>): (ss: seq<seq<Placement>>)
    requires IsBoard(b, ROWS, COLS) && forall i :: 0 <= i < |cs| ==> PieceMatrix(cs[i].mat)
    ensures |ss| == |cs|
    ensures forall i :: 0 <= i < |cs| ==> ss[i] == Rotations(b, cs[i])
  {
    seq(|cs|, i requires 0 <= i < |cs| => Rotations(b, cs[i]))
  }

  /** Every fitting placement of every candidate, in the search's order. */
  function Placements(b: Board, cs: seq<Candidate>): (ps: seq<Placement>)
    requires IsBoard(b, ROWS, COLS) && forall i :: 0 <= i < |cs| ==> PieceMatrix(cs[i].mat)
    ensures forall i :: 0 <= i < |ps| ==> PieceMatrix(ps[i].mat)
  {
    var ss := CandidateLists(b, cs);
    var ps := Flatten(ss);
    assert forall i :: 0 <= i < |ps| ==> PieceMatrix(ps[i].mat) by {
      forall i | 0 <= i < |ps|
        ensures PieceMatrix(ps[i].mat)
      {
        FlattenExactly(ss, ps[i]);
      }
    }
    ps
  }

  lemma ColumnsExactly(b: Board, m: Matrix, rot: nat, hold: bool, p: Placement)
    requires IsBoard(b, ROWS, COLS) && HasCell(m)
    ensures p in Columns(b, m, rot, hold) <==> -2 <= p.x < COLS + 2 && Drop(b, m, rot, hold, p.x) == Some(p)
  {
    var s := Drops(b, m, rot, hold);
    SomesExactly(s, p);
    if exists i :: 0 <= i < |s| && s[i] == Some(p) {
      var i :| 0 <= i < |s| && s[i] == Some(p);
      DropFields(b, m, rot, hold, i - 2);
    }
    if -2 <= p.x < COLS + 2 && Drop(b, m, rot, hold, p.x) == Some(p) {
      assert s[p.x + 2] == Some(p);
    }
  }

  lemma RotationsSound(b: Board, c: Candidate, p: Placement)
    requires IsBoard(b, ROWS, COLS) && PieceMatrix(c.mat)
    requires p in Rotations(b, c)
    ensures Reachable(b, c, p)
  {
    var ss := RotationLists(b, c);
    FlattenExactly(ss, p);
    var r :| 0 <= r < 4 && p in ss[r];
    var m := TurnTimes(c.mat, r);
    ColumnsExactly(b, m, r, c.hold, p);
    DropFields(b, m, r, c.hold, p.x);
  }

  lemma RotationsComplete(b: Board, c: Candidate, p: Placement)
    requires IsBoard(b, ROWS, COLS) && PieceMatrix(c.mat)
    requires Reachable(b, c, p)
    ensures p in Rotations(b, c)
  {
    var ss := RotationLists(b, c);
    ColumnsExactly(b, TurnTimes(c.mat, p.rot), p.rot, c.hold, p);
    assert p in ss[p.rot];
    FlattenExactly(ss, p);
  }

  lemma RotationsExactly(b: Board, c: Candidate, p: Placement)
    requires IsBoard(b, ROWS, COLS) && PieceMatrix(c.mat)
    ensures p in Rotations(b, c) <==> Reachable(b, c, p)
  {
    if p in Rotations(b, c) {
      RotationsSound(b, c, p);
    }
    if Reachable(b, c, p) {
      RotationsComplete(b, c, p);
    }
  }

  /** The enumeration lists exactly the reachable placements of the
      candidates. */
  lemma PlacementsExactly(b: Board, cs: seq<Candidate>, p: Placement)
    requires IsBoard(b, ROWS, COLS) && forall i :: 0 <= i < |cs| ==> PieceMatrix(cs[i].mat)
    ensures p in Placements(b, cs) <==> exists i :: 0 <= i < |cs| && Reachable(b, cs[i], p)
  {
    var ss := CandidateLists(b, cs);
    FlattenExactly(ss, p);
    if exists i :: 0 <= i < |cs| && p in ss[i] {
      var i :| 0 <= i < |cs| && p in ss[i];
      RotationsExactly(b, cs[i], p);
    }
    if exists i :: 0 <= i < |cs| && Reachable(b, cs[i], p) {
      var i :| 0 <= i < |cs| && Reachable(b, cs[i], p);
      RotationsExactly(b, cs[i], p);
      assert p in ss[i];
    }
  }

  // ---------------------------------------------------------------------
  // Scoring one ply
  // ---------------------------------------------------------------------

  /** Stamp the placement (cells off the board are dropped) and clear full
      rows. */
  function Simulate(b: Board, p: Placement): (c: Cleared)
    requires IsBoard(b, ROWS, COLS)
    ensures IsBoard(c.board, ROWS, COLS) && NoFullRows(c.board)
    ensures IsMatrix(p.mat) && NoFullRows(b) ==> c.count <= |p.mat|
  {
    var placed := Place(b, ROWS, COLS, Pos(p.x, p.y), p.mat);
    if IsMatrix(p.mat) && NoFullRows(b) then
      PlacedFullRowsWithinPiece(b, ROWS, COLS, Pos(p.x, p.y), p.mat);
      ClearFull(placed, COLS)
    else ClearFull(placed, COLS)
  }

  /** A board evaluator: the score of a board, given the number of lines
      cleared to reach it and the row the piece landed on. */
  type Evaluator = (Board, nat, int) --> int

  /** The evaluator scores every board of the game's size reached by
      clearing at most four lines. */
  ghost predicate Scores(eval: Evaluator) {
    forall b: Board, n: nat, y: int :: IsBoard(b, ROWS, COLS) && n <= 4 ==> eval.requires(b, n, y)
  }

  /** The autoplay evaluator in the given mode. */
  function Evaluation(highRisk: bool): (eval: Evaluator)
    ensures Scores(eval)
  {
    (b: Board, n: nat, y: int) requires TetrisEval.Shaped(b, COLS) && n <= 4 =>
      TetrisEval.Evaluate(b, COLS, n, highRisk, Some(y))
  }

  /** A scored first-ply move; `order` is its position in the enumeration. */
  datatype Move = Move(score: int, place: Placement, board: Board, order: nat)

  /** The move of a placement: the board it leaves, scored with the lines
      that placement cleared and its landing row. */
  function Score(b: Board, p: Placement, eval: Evaluator, order: nat): (mv: Move)
    requires IsBoard(b, ROWS, COLS) && NoFullRows(b) && PieceMatrix(p.mat) && Scores(eval)
    ensures mv.place == p && mv.order == order
    ensures IsBoard(mv.board, ROWS, COLS) && NoFullRows(mv.board)
  {
    var c := Simulate(b, p);
    Move(eval(c.board, c.count, p.y), p, c.board, order)
  }

  /** Score the placements, tagging each with its position. */
  function ScoreFirst(b: Board, ps: seq<Placement>, eval: Evaluator): (ms: seq<Move>)
    requires IsBoard(b, ROWS, COLS) && NoFullRows(b) && Scores(eval)
    requires forall i :: 0 <= i < |ps| ==> PieceMatrix(ps[i].mat)
    ensures |ms| == |ps|
    ensures forall i :: 0 <= i < |ps| ==> ms[i] == Score(b, ps[i], eval, i)
  {
    seq(|ps|, i requires 0 <= i < |ps| => Score(b, ps[i], eval, i))
  }

  /** The ranking of first-ply moves: higher score first, and among equal
      scores the earlier enumerated first — the order a stable descending
      sort on the score produces. */
  predicate Before(a: Move, b: Move) {
    a.score > b.score || (a.score == b.score && a.order <= b.order)
  }

  lemma BeforeIsTotalPreorder(s: seq<Move>)
    ensures TotalPreorderOn(s, Before)
  {
  }

  // ---------------------------------------------------------------------
  // Second ply and the choice
  // ---------------------------------------------------------------------

  /** The largest of the scores; `None` (minus infinity) when there are
      none. */
  function MaxScore(s: seq<int>): (m: Option<int>)
    ensures m.None? <==> s == []
    ensures m.Some? ==> m.value in s && forall i :: 0 <= i < |s| ==> s[i] <= m.value
  {
    if s == [] then None
    else
      var t := MaxScore(s[1..]);
      assert forall i :: 1 <= i < |s| ==> s[i] == s[1..][i - 1];
      if t.None? || s[0] > t.value then Some(s[0]) else t
  }

  /** The scores of the preview piece's placements on `b`, in the
      enumeration order. */
  function ReplyScores(b: Board, m: Matrix, eval: Evaluator): (ss: seq<int>)
    requires IsBoard(b, ROWS, COLS) && NoFullRows(b) && PieceMatrix(m) && Scores(eval)
    ensures |ss| == |Rotations(b, Candidate(m, false))|
  {
    var ps := Rotations(b, Candidate(m, false));
    seq(|ps|, i requires 0 <= i < |ps| => Score(b, ps[i], eval, i).score)
  }

  /** Best score the preview piece can reach on `b`; minus infinity when it
      fits nowhere. */
  function BestReply(b: Board, m: Matrix, eval: Evaluator): (r: Option<int>)
    requires IsBoard(b, ROWS, COLS) && NoFullRows(b) && PieceMatrix(m) && Scores(eval)
    ensures r.None? <==> Rotations(b, Candidate(m, false)) == []
    ensures r.Some? ==> r.value in ReplyScores(b, m, eval)
    ensures r.Some? ==> forall i :: 0 <= i < |ReplyScores(b, m, eval)| ==> ReplyScores(b, m, eval)[i] <= r.value
  {
    MaxScore(ReplyScores(b, m, eval))
  }

  /** The source's selection loop from position `i` on, with the best total
      so far and its position: a later total replaces the best only when it
      is strictly greater. */
  function PickFrom(totals: seq<Option<int>>, i: nat, best: Option<int>, at: Option<nat>): (r: (Option<int>, Option<nat>))
    requires i <= |totals|
    requires at.None? ==> best.None? && forall j :: 0 <= j < i ==> totals[j].None?
    requires at.Some? ==>
      && at.value < i && best == totals[at.value] && best.Some?
      && (forall j :: 0 <= j < i ==> !Greater(totals[j], best))
      && (forall j :: 0 <= j < at.value ==> Greater(best, totals[j]))
    ensures r.1.None? ==> r.0.None? && forall j :: 0 <= j < |totals| ==> totals[j].None?
    ensures r.1.Some? ==>
      && r.1.value < |totals| && r.0 == totals[r.1.value] && r.0.Some?
      && (forall j :: 0 <= j < |totals| ==> !Greater(totals[j], r.0))
      && (forall j :: 0 <= j < r.1.value ==> Greater(r.0, totals[j]))
    decreases |totals| - i
  {
    if i == |totals| then (best, at)
    else if Greater(totals[i], best) then PickFrom(totals, i + 1, totals[i], Some(i))
    else PickFrom(totals, i + 1, best, at)
  }

  /** The first position holding the greatest total, if any total is finite. */
  function PickBest(totals: seq<Option<int>>): (r: Option<nat>)
    ensures r.None? ==> forall j :: 0 <= j < |totals| ==> totals[j].None?
    ensures r.Some? ==>
      && r.value < |totals| && totals[r.value].Some?
      && (forall j :: 0 <= j < |totals| ==> !Greater(totals[j], totals[r.value]))
      && (forall j :: 0 <= j < r.value ==> Greater(totals[r.value], totals[j]))
  {
    PickFrom(totals, 0, None, None).1
  }

  /** What the search returns: target rotation count, column, score, row,
      matrix (absent when nothing fits) and whether to hold first. */
  datatype Choice = Choice(rot: nat, x: int, score: Option<int>, y: int, mat: Option<Matrix>, hold: bool)

  function Top(ranked: seq<Move>): (t: seq<Move>)
    ensures |t| == if |ranked| < SearchLimit then |ranked| else SearchLimit
    ensures t == ranked[..|t|]
  {
    if |ranked| < SearchLimit then ranked else ranked[..SearchLimit]
  }

  /** The first-ply moves of the current state, best first. */
  function Ranked(g: Game, eval: Evaluator): (ranked: seq<Move>)
    requires Playable(g) && NoFullRows(g.arena) && Scores(eval)
    ensures multiset(ranked) == multiset(ScoreFirst(g.arena, Placements(g.arena, Candidates(g)), eval))
    ensures SortedBy(ranked, Before)
  {
    var moves := ScoreFirst(g.arena, Placements(g.arena, Candidates(g)), eval);
    BeforeIsTotalPreorder(moves);
    InsertionSort(moves, Before)
  }

  /** The two-ply totals of the moves: first-ply score plus the best reply
      of the preview piece (always the preview, even after a hold). */
  function Totals(g: Game, top: seq<Move>, eval: Evaluator): (ts: seq<Option<int>>)
    requires Playable(g) && Scores(eval)
    requires forall i :: 0 <= i < |top| ==> IsBoard(top[i].board, ROWS, COLS) && NoFullRows(top[i].board)
    ensures |ts| == |top|
    ensures forall i :: 0 <= i < |top| ==> ts[i] == AddScores(top[i].score, BestReply(top[i].board, g.nextMatrix, eval))
  {
    seq(|top|, i requires 0 <= i < |top| => AddScores(top[i].score, BestReply(top[i].board, g.nextMatrix, eval)))
  }

  /** Commit to the placement of a move, reporting `score`. */
  function ChoiceOf(m: Move, score: Option<int>): Choice {
    Choice(m.place.rot, m.place.x, score, m.place.y, Some(m.place.mat), m.place.hold)
  }

  /** The selection over the ranked moves, given the two-ply totals of the
      first of them: the first move whose total is strictly greater than
      every total before it and at least every total after it; when no
      total is finite, the best-ranked move with its own score; nothing
      when there are no moves. */
  function Decide(ranked: seq<Move>, totals: seq<Option<int>>): (c: Choice)
    requires |totals| <= |ranked|
    ensures c.mat.None? <==> ranked == []
    ensures c.mat.Some? ==> c.score.Some? && exists i :: 0 <= i < |ranked| && c == ChoiceOf(ranked[i], c.score)
    ensures (exists i :: 0 <= i < |totals| && totals[i].Some?) ==>
      exists i :: 0 <= i < |totals| && c == ChoiceOf(ranked[i], totals[i])
        && (forall j :: 0 <= j < |totals| ==> !Greater(totals[j], totals[i]))
        && (forall j :: 0 <= j < i ==> Greater(totals[i], totals[j]))
    ensures (forall i :: 0 <= i < |totals| ==> totals[i].None?) && ranked != [] ==>
      c == ChoiceOf(ranked[0], Some(ranked[0].score))
  {
    match PickBest(totals)
    case Some(i) => ChoiceOf(ranked[i], totals[i])
    case None =>
      if ranked == [] then Choice(0, 0, None, 0, None, false)
      else ChoiceOf(ranked[0], Some(ranked[0].score))
  }

  /** Every ranked move is the scored move of an enumerated placement. */
  lemma RankedFromPlacements(g: Game, eval: Evaluator, m: Move)
    requires Playable(g) && NoFullRows(g.arena) && Scores(eval)
    requires m in Ranked(g, eval)
    ensures exists j ::
      && 0 <= j < |Placements(g.arena, Candidates(g))|
      && m == Score(g.arena, Placements(g.arena, Candidates(g))[j], eval, j)
  {
    var ms := ScoreFirst(g.arena, Placements(g.arena, Candidates(g)), eval);
    assert m in multiset(Ranked(g, eval));
    assert m in ms;
  }

  /** The boards of the ranked moves are boards without full rows. */
  lemma RankedBoards(g: Game, eval: Evaluator)
    requires Playable(g) && NoFullRows(g.arena) && Scores(eval)
    ensures forall i :: 0 <= i < |Ranked(g, eval)| ==>
      IsBoard(Ranked(g, eval)[i].board, ROWS, COLS) && NoFullRows(Ranked(g, eval)[i].board)
  {
    forall i | 0 <= i < |Ranked(g, eval)|
      ensures IsBoard(Ranked(g, eval)[i].board, ROWS, COLS) && NoFullRows(Ranked(g, eval)[i].board)
    {
      RankedFromPlacements(g, eval, Ranked(g, eval)[i]);
    }
  }

  /** The two-ply totals of the best 32 ranked moves. */
  function TopTotals(g: Game, eval: Evaluator): (ts: seq<Option<int>>)
    requires Playable(g) && NoFullRows(g.arena) && Scores(eval)
    ensures |ts| <= |Ranked(g, eval)|
  {
    var ranked := Ranked(g, eval);
    RankedBoards(g, eval);
    Totals(g, Top(ranked), eval)
  }

  /** The search with evaluator `eval`: rank the first ply, and decide
      among the best 32 by their two-ply totals. */
  function Search(g: Game, eval: Evaluator): (c: Choice)
    requires Playable(g) && NoFullRows(g.arena) && Scores(eval)
    ensures c.mat.None? <==> Ranked(g, eval) == []
    ensures c.mat.Some? ==> c.score.Some? && exists i :: 0 <= i < |Ranked(g, eval)| && c == ChoiceOf(Ranked(g, eval)[i], c.score)
  {
    Decide(Ranked(g, eval), TopTotals(g, eval))
  }

  /** The autoplay search: update the mode from the stack height and search
      with the evaluator of the new mode. Returns the choice and the mode. */
  function FindBestMove(g: Game): (r: (Choice, bool))
    requires Playable(g) && NoFullRows(g.arena)
    ensures r.1 == TetrisEval.NextMode(g.arena, g.aiConservative)
    ensures r.0 == Search(g, Evaluation(r.1))
  {
    var mode := TetrisEval.NextMode(g.arena, g.aiConservative);
    (Search(g, Evaluation(mode)), mode)
  }

  lemma RankedLength(g: Game, eval: Evaluator)
    requires Playable(g) && NoFullRows(g.arena) && Scores(eval)
    ensures |Ranked(g, eval)| == |Placements(g.arena, Candidates(g))|
  {
    var ms := ScoreFirst(g.arena, Placements(g.arena, Candidates(g)), eval);
    assert |multiset(Ranked(g, eval))| == |multiset(ms)|;
  }

  lemma ChosenIsReachable(g: Game, eval: Evaluator, m: Move)
    requires Playable(g) && NoFullRows(g.arena) && Scores(eval)
    requires m in Ranked(g, eval)
    ensures exists i :: 0 <= i < |Candidates(g)| && Reachable(g.arena, Candidates(g)[i], m.place)
  {
    var ps := Placements(g.arena, Candidates(g));
    RankedFromPlacements(g, eval, m);
    var j :| 0 <= j < |ps| && m == Score(g.arena, ps[j], eval, j);
    PlacementsExactly(g.arena, Candidates(g), ps[j]);
  }

  /** The search commits to a placement exactly when some candidate fits
      somewhere, and the placement it commits to is a straight drop of a
      candidate. */
  lemma SearchChoosesReachable(g: Game, eval: Evaluator)
    requires Playable(g) && NoFullRows(g.arena) && Scores(eval)
    ensures var c := Search(g, eval);
      && (c.mat.Some? <==> Placements(g.arena, Candidates(g)) != [])
      && (c.mat.Some? ==>
          exists i :: 0 <= i < |Candidates(g)|
            && Reachable(g.arena, Candidates(g)[i], Placement(c.rot, c.x, c.y, c.mat.value, c.hold)))
  {
    var ranked := Ranked(g, eval);
    var c := Search(g, eval);
    RankedLength(g, eval);
    if c.mat.Some? {
      var i :| 0 <= i < |ranked| && c == ChoiceOf(ranked[i], c.score);
      ChosenIsReachable(g, eval, ranked[i]);
    }
  }

  /** The fallback of `Decide` is a move of greatest first-ply score when
      the moves are ranked. */
  lemma DecideFallbackIsBest(ranked: seq<Move>, totals: seq<Option<int>>)
    requires |totals| <= |ranked| && SortedBy(ranked, Before)
    requires ranked != [] && forall i :: 0 <= i < |totals| ==> totals[i].None?
    ensures Decide(ranked, totals).score.Some?
    ensures forall m :: m in ranked ==> m.score <= Decide(ranked, totals).score.value
  {
    var c := Decide(ranked, totals);
    assert c.score == Some(ranked[0].score);
    forall m | m in ranked
      ensures m.score <= ranked[0].score
    {
      var k :| 0 <= k < |ranked| && ranked[k] == m;
      if k > 0 {
        assert Before(ranked[0], ranked[k]);
      }
    }
  }

  /** The autoplay search commits to a placement exactly when some
      candidate fits, and only to a straight drop of a candidate. */
  lemma BestMoveIsReachable(g: Game)
    requires Playable(g) && NoFullRows(g.arena)
    ensures var c := FindBestMove(g).0;
      && (c.mat.Some? <==> Placements(g.arena, Candidates(g)) != [])
      && (c.mat.Some? ==>
          exists i :: 0 <= i < |Candidates(g)|
            && Reachable(g.arena, Candidates(g)[i], Placement(c.rot, c.x, c.y, c.mat.value, c.hold)))
  {
    SearchChoosesReachable(g, Evaluation(FindBestMove(g).1));
  }
}
