/**
 The autoplay driver of the main game: turning the search's choice into a
 list of single actions (hold, quarter turns, sideways steps, hard drop)
 and playing one action per call, plus the demo-mode step that asks the
 search for a new plan when none is in progress.
 */
module TetrisAutoplay {
  import opened Wrappers
  import opened Grid
  import opened Shapes
  import opened Tetris
  import TetrisSearch
  import TetrisEval

  // ---------------------------------------------------------------------
  // Action plans
  // ---------------------------------------------------------------------

  function Repeat(a: Action, n: nat): (r: seq<Action>)
    ensures |r| == n && forall i :: 0 <= i < n ==> r[i] == a
  {
    seq(n, _ => a)
  }

  /** How often `a` occurs in the plan. */
  function Count(acts: seq<Action>, a: Action): nat {
    if acts == [] then 0 else (if acts[0] == a then 1 else 0) + Count(acts[1..], a)
  }

  /** The net sideways displacement the plan asks for. */
  function Net(acts: seq<Action>): int {
    Count(acts, Right) - Count(acts, Left)
  }

  lemma {:induction false} CountAppend(s: seq<Action>, t: seq<Action>, a: Action)
    ensures Count(s + t, a) == Count(s, a) + Count(t, a)
  {
    if s == [] {
      assert s + t == t;
    } else {
      assert (s + t)[0] == s[0] && (s + t)[1..] == s[1..] + t;
      CountAppend(s[1..], t, a);
    }
  }

  lemma {:induction false} CountAbsent(s: seq<Action>, a: Action)
    requires forall i :: 0 <= i < |s| ==> s[i] != a
    ensures Count(s, a) == 0
  {
    if s != [] {
      CountAbsent(s[1..], a);
    }
  }

  lemma {:induction false} CountRepeat(a: Action, n: nat, b: Action)
    ensures Count(Repeat(a, n), b) == if a == b then n else 0
  {
    if n > 0 {
      assert Repeat(a, n)[1..] == Repeat(a, n - 1);
      CountRepeat(a, n - 1, b);
    }
  }

  /** A plan in progress ends with the hard drop and drops nowhere else. */
  predicate Plan(acts: seq<Action>) {
    |acts| > 0 && acts[|acts| - 1] == Drop && forall i :: 0 <= i < |acts| - 1 ==> acts[i] != Drop
  }

  function Abs(n: int): nat {
    if n < 0 then -n else n
  }

  function Sideways(dx: int): (r: seq<Action>)
    ensures |r| == Abs(dx)
    ensures Count(r, Right) == (if dx > 0 then dx else 0) && Count(r, Left) == (if dx < 0 then -dx else 0)
    ensures forall i :: 0 <= i < |r| ==> r[i] == (if dx > 0 then Right else Left)
  {
    CountRepeat(Right, Abs(dx), Left);
    CountRepeat(Right, Abs(dx), Right);
    CountRepeat(Left, Abs(dx), Left);
    CountRepeat(Left, Abs(dx), Right);
    if dx > 0 then Repeat(Right, dx) else if dx < 0 then Repeat(Left, -dx) else []
  }

  /** The plan for a choice: hold first when asked, then `rot` clockwise
      turns (the piece is assumed to start unturned), then `|dx|` steps
      towards the target column, then the hard drop. */
  function BuildActions(hold: bool, rot: nat, dx: int): (acts: seq<Action>)
    ensures Plan(acts)
    ensures |acts| == (if hold then 1 else 0) + rot + Abs(dx) + 1
    ensures acts[0] == Hold <==> hold
    ensures Count(acts, Hold) == (if hold then 1 else 0) && Count(acts, Turn) == rot
    ensures Net(acts) == dx && (Count(acts, Left) == 0 || Count(acts, Right) == 0)
  {
    var h := if hold then [Hold] else [];
    var t := Repeat(Turn, rot);
    var s := Sideways(dx);
    PlanCounts(h, t, s);
    PlanShape(h, t, s);
    CountRepeat(Turn, rot, Hold);
    CountRepeat(Turn, rot, Turn);
    CountRepeat(Turn, rot, Left);
    CountRepeat(Turn, rot, Right);
    CountAbsent(s, Hold);
    CountAbsent(s, Turn);
    HoldCounts(h, hold);
    h + t + s + [Drop]
  }

  /** The counts of a plan assembled from its parts. */
  lemma PlanCounts(h: seq<Action>, t: seq<Action>, s: seq<Action>)
    ensures forall a ::
      Count(h + t + s + [Drop], a) == Count(h, a) + Count(t, a) + Count(s, a) + (if a == Drop then 1 else 0)
  {
    forall a: Action
      ensures Count(h + t + s + [Drop], a) == Count(h, a) + Count(t, a) + Count(s, a) + (if a == Drop then 1 else 0)
    {
      CountAppend(h, t, a);
      CountAppend(h + t, s, a);
      CountAppend(h + t + s, [Drop], a);
      assert [Drop][1..] == [];
    }
  }

  /** Parts free of drops, followed by one drop, form a plan. */
  lemma PlanShape(h: seq<Action>, t: seq<Action>, s: seq<Action>)
    requires forall i :: 0 <= i < |h| ==> h[i] == Hold
    requires forall i :: 0 <= i < |t| ==> t[i] == Turn
    requires forall i :: 0 <= i < |s| ==> s[i] == Left || s[i] == Right
    ensures Plan(h + t + s + [Drop])
  {
    var acts := h + t + s + [Drop];
    forall i | 0 <= i < |acts| - 1
      ensures acts[i] != Drop
    {
      if i < |h| {
        assert acts[i] == h[i];
      } else if i < |h| + |t| {
        assert acts[i] == t[i - |h|];
      } else {
        assert acts[i] == s[i - |h| - |t|];
      }
    }
  }

  /** The optional hold step holds once when asked and does nothing else. */
  lemma HoldCounts(h: seq<Action>, hold: bool)
    requires h == if hold then [Hold] else []
    ensures forall a :: Count(h, a) == (if hold && a == Hold then 1 else 0)
  {
    if hold {
      assert [Hold][1..] == [];
    }
  }

  // ---------------------------------------------------------------------
  // Executing one action
  // ---------------------------------------------------------------------

  /** Play one action: hold, a clockwise turn, a step left or right, or a
      hard drop. Only the drop touches the board and the score; it always
      locks, so the preview piece comes into play with fresh counters. */
  function Perform(g: Game, a: Action, rng: Rng): (r: Game)
    requires Playable(g) && RngOk(rng)
    ensures a != Drop ==> r.arena == g.arena && r.sc == g.sc
    ensures a == Drop ==> r.curType == g.nextType && r.canHold && r.lockMoves == 0 && !r.onGround
  {
    match a
    case Hold => HoldPiece(g, rng)
    case Turn => RotatePiece(g, 1)
    case Left => MoveHorizontal(g, -1).0
    case Right => MoveHorizontal(g, 1).0
    case Drop => HardDrop(g, rng)
  }

  lemma PerformKeepsInv(g: Game, a: Action, rng: Rng)
    requires Inv(g) && RngOk(rng)
    ensures Inv(Perform(g, a, rng))
  {
    match a
    case Hold => HoldKeepsInv(g, rng);
    case Turn => RotateKeepsInv(g, 1);
    case Left => MovesKeepInv(g, -1);
    case Right => MovesKeepInv(g, 1);
    case Drop => HardDropKeepsInv(g, rng);
  }

  /** The plan in force for this call: the stored one, or a new one built
      from the target and the current column. */
  function ActivePlan(g: Game, rot: nat, x: int, hold: bool): (acts: seq<Action>)
  {
    if g.aiActions.Some? then g.aiActions.value else BuildActions(hold, rot, x - g.pos.x)
  }

  function ActiveStep(g: Game): nat {
    if g.aiActions.Some? then g.aiStep else 0
  }

  /** A well-formed plan in progress: it ends with the drop and the step
      points inside it. */
  predicate PlanOk(g: Game) {
    g.aiActions.Some? ==> Plan(g.aiActions.value) && g.aiStep < |g.aiActions.value|
  }

  /** Actions still to play. */
  function Remaining(g: Game): nat {
    if g.aiActions.Some? && g.aiStep <= |g.aiActions.value| then |g.aiActions.value| - g.aiStep else 0
  }

  /** The bookkeeping after the action at `step` was played (`played` is
      the game after it): after the hard drop the plan is discarded and the
      result is true; otherwise the plan is kept and the step advances. */
  function Advance(acts: seq<Action>, step: nat, played: Game): (r: (Game, bool))
    requires step < |acts|
  {
    if acts[step] == Drop then (played.(aiActions := None, aiStep := 0), true)
    else (played.(aiActions := Some(acts), aiStep := step + 1), false)
  }

  /** The bookkeeping touches only the plan and the step. */
  lemma AdvanceKeepsMode(acts: seq<Action>, step: nat, played: Game)
    requires step < |acts|
    ensures Advance(acts, step, played).0.aiConservative == played.aiConservative
  {
  }

  /** Each call plays one action of a well-formed plan: the result is true
      exactly at the plan's last action (the drop), and otherwise one action
      fewer remains and the plan stays well formed. */
  lemma PlanAdvances(acts: seq<Action>, step: nat, played: Game)
    requires Plan(acts) && step < |acts|
    ensures var r := Advance(acts, step, played);
      && PlanOk(r.0)
      && (r.1 <==> step == |acts| - 1)
      && (r.1 ==> r.0.aiActions.None? && r.0.aiStep == 0)
      && (!r.1 ==> r.0.aiActions == Some(acts) && Remaining(r.0) == |acts| - step - 1)
  {
  }

  /** Starting a plan: the first call plays the plan's first action; unless
      that action is already the drop, the plan is kept with the step at 1. */
  lemma PlanStarts(hold: bool, rot: nat, dx: int, played: Game)
    ensures var acts := BuildActions(hold, rot, dx);
      var r := Advance(acts, 0, played);
      && (r.1 <==> |acts| == 1)
      && (!r.1 ==> r.0.aiActions == Some(acts) && r.0.aiStep == 1)
  {
    var acts := BuildActions(hold, rot, dx);
    if |acts| > 1 {
      assert acts[0] != Drop;
    }
  }

  /** One call of the executor: adopt a plan if none is stored, then play
      the action at the current step. A stored plan that is already used up
      does nothing. */
  function Execute(g: Game, rot: nat, x: int, hold: bool, rng: Rng): (r: (Game, bool))
    requires Playable(g) && RngOk(rng)
    ensures r.0.aiConservative == g.aiConservative
    ensures r.1 ==> r.0.aiActions.None? && r.0.aiStep == 0
  {
    var acts := ActivePlan(g, rot, x, hold);
    var step := ActiveStep(g);
    if step >= |acts| then (g.(aiActions := Some(acts), aiStep := step), false)
    else
      var played := Perform(g, acts[step], rng);
      PerformKeepsMode(g, acts[step], rng);
      AdvanceKeepsMode(acts, step, played);
      Advance(acts, step, played)
  }

  /** A call either plays the action at the current step of the plan in
      force or, when that plan is used up, leaves the game alone. */
  lemma ExecuteIsAdvance(g: Game, rot: nat, x: int, hold: bool, rng: Rng)
    requires Playable(g) && RngOk(rng)
    ensures var acts := ActivePlan(g, rot, x, hold);
      var step := ActiveStep(g);
      Execute(g, rot, x, hold, rng)
        == if step >= |acts| then (g.(aiActions := Some(acts), aiStep := step), false)
           else Advance(acts, step, Perform(g, acts[step], rng))
  {
  }

  /** The executor keeps the state invariant. */
  lemma ExecuteKeepsInv(g: Game, rot: nat, x: int, hold: bool, rng: Rng)
    requires Inv(g) && RngOk(rng)
    ensures Inv(Execute(g, rot, x, hold, rng).0)
  {
    var acts := ActivePlan(g, rot, x, hold);
    var step := ActiveStep(g);
    if step < |acts| {
      PerformKeepsInv(g, acts[step], rng);
    }
  }

  // ---------------------------------------------------------------------
  // The demo-mode step
  // ---------------------------------------------------------------------

  /** One paced autoplay step of demo mode. A finished game restarts at
      `level` with the reset's half-second lock limit as `lockLimit` ticks
      (its random draws are parameters) and no plan; a paused game waits;
      otherwise the game plays on (`Autoplay`). */
  function DemoStep(g: Game, rng: Rng, level: int, lockLimit: nat, shuffle: seq<Shape>, flipNext: bool, flipSpawn: bool): (r: Game)
    requires Inv(g) && RngOk(rng) && FullBag(shuffle)
    ensures g.gameOver ==> r.aiActions.None? && !r.gameOver
    ensures !g.gameOver && g.paused ==> r == g
  {
    if g.gameOver then
      var n := ResetGame(g, level, lockLimit, shuffle, flipNext, flipSpawn);
      n.(aiActions := None)
    else if g.paused then g
    else Autoplay(g, rng)
  }

  /** The playing branch of demo mode: with no plan in progress the search
      picks a target (and updates the mode) and the executor starts on it;
      with a plan in progress the executor plays its next action. */
  function Autoplay(g: Game, rng: Rng): (r: Game)
    requires Playable(g) && NoFullRows(g.arena) && RngOk(rng)
    ensures g.aiActions.Some? ==> r.aiConservative == g.aiConservative
    ensures g.aiActions.None? ==> r.aiConservative == TetrisEval.NextMode(g.arena, g.aiConservative)
  {
    if g.aiActions.None? then
      var cm := TetrisSearch.FindBestMove(g);
      Execute(g.(aiConservative := cm.1), cm.0.rot, cm.0.x, cm.0.hold, rng).0
    else
      Execute(g, 0, 0, false, rng).0
  }

  /** Starting a plan: with no plan stored, the executor builds the plan
      for the target and plays its first action; unless that action is
      already the drop, the plan is kept with the step at 1. */
  lemma ExecuteStartsPlan(g: Game, rot: nat, x: int, hold: bool, rng: Rng)
    requires Playable(g) && RngOk(rng) && g.aiActions.None?
    ensures var r := Execute(g, rot, x, hold, rng);
      var acts := BuildActions(hold, rot, x - g.pos.x);
      && (r.1 <==> |acts| == 1)
      && (!r.1 ==> r.0.aiActions == Some(acts) && r.0.aiStep == 1 && r.0.aiConservative == g.aiConservative)
  {
    var acts := BuildActions(hold, rot, x - g.pos.x);
    assert ActivePlan(g, rot, x, hold) == acts && ActiveStep(g) == 0;
    ExecuteIsAdvance(g, rot, x, hold, rng);
    PlanStarts(hold, rot, x - g.pos.x, Perform(g, acts[0], rng));
  }

  /** With no plan in progress, autoplay asks the search for a target,
      records the mode the search settled on, and starts the executor on
      exactly that target. */
  lemma AutoplayStarts(g: Game, rng: Rng)
    requires Playable(g) && NoFullRows(g.arena) && RngOk(rng) && g.aiActions.None?
    ensures var cm := TetrisSearch.FindBestMove(g);
      var e := Execute(g.(aiConservative := cm.1), cm.0.rot, cm.0.x, cm.0.hold, rng);
      Autoplay(g, rng) == e.0
  {
  }

  /** Demo mode keeps the state invariant, whether it restarts, waits or
      plays. */
  lemma DemoStepKeepsInv(g: Game, rng: Rng, level: int, lockLimit: nat, shuffle: seq<Shape>, flipNext: bool, flipSpawn: bool)
    requires Inv(g) && RngOk(rng) && FullBag(shuffle)
    ensures Inv(DemoStep(g, rng, level, lockLimit, shuffle, flipNext, flipSpawn))
  {
    var r := DemoStep(g, rng, level, lockLimit, shuffle, flipNext, flipSpawn);
    if g.gameOver {
      var n := ResetGame(g, level, lockLimit, shuffle, flipNext, flipSpawn);
      ResetGameInv(g, level, lockLimit, shuffle, flipNext, flipSpawn);
      assert r == n.(aiActions := None);
      SameBoardKeepsInv(n, n.(aiActions := None));
    } else if !g.paused {
      assert r == Autoplay(g, rng);
      AutoplayKeepsInv(g, rng);
    }
  }

  /** The playing branch keeps the state invariant. */
  lemma AutoplayKeepsInv(g: Game, rng: Rng)
    requires Inv(g) && RngOk(rng)
    ensures Inv(Autoplay(g, rng))
  {
    if g.aiActions.None? {
      var cm := TetrisSearch.FindBestMove(g);
      AutoplayStarts(g, rng);
      ExecuteKeepsInv(g.(aiConservative := cm.1), cm.0.rot, cm.0.x, cm.0.hold, rng);
    } else {
      ExecuteKeepsInv(g, 0, 0, false, rng);
    }
  }

  /** No action changes the autoplay mode. */
  lemma PerformKeepsMode(g: Game, a: Action, rng: Rng)
    requires Playable(g) && RngOk(rng)
    ensures Perform(g, a, rng).aiConservative == g.aiConservative
  {
    match a
    case Hold =>
    case Turn => RotatePieceFrame(g, 1);
    case Left => MoveHorizontalFrame(g, -1);
    case Right => MoveHorizontalFrame(g, 1);
    case Drop =>
  }
}
