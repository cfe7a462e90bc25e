/**
 * The flowerpot's behaviour (domain/behavior/MacetaChaseMovement.java): it alternates between
 * a slow random walk and a fast chase of the nearest living player along a shortest path.
 */
module MacetaChase {
  import opened Directions
  import opened Positions
  import opened Cells
  import opened Boards
  import opened Players
  import opened Enemies
  import opened Pathfinding

  datatype Mode = RANDOM | CHASING

  /** Moves made in RANDOM mode before switching to CHASING. */
  const RANDOM_MOVEMENTS: nat := 25
  /** Moves made in CHASING mode before switching back to RANDOM. */
  const CHASE_MOVEMENTS: nat := 35
  const RANDOM_TICKS_PER_MOVE: nat := 20
  const CHASE_TICKS_PER_MOVE: nat := 8

  /**
   * The random draws one move may consume: whether the 30% spontaneous change of direction
   * happens, and the indices drawn by the first and the second choice of a walkable direction.
   */
  datatype Draws = Draws(turn: bool, firstPick: nat, secondPick: nat)

  /** The counters that decide when the flowerpot acts and in which mode. */
  datatype Timing = Timing(mode: Mode, movementCounter: nat, ticksSinceLastMove: nat)

  /** What one call of move does: nothing yet, a random step, a chase step, or give up the chase. */
  datatype Action = Wait | RandomMove | ChaseMove | GiveUp

  function TicksPerMove(m: Mode): nat {
    if m == RANDOM then RANDOM_TICKS_PER_MOVE else CHASE_TICKS_PER_MOVE
  }

  /**
   * The counters after one call of move with at least one player on the level, and the action
   * taken; anyAlive says whether some player is alive.
   */
  function NextTiming(t: Timing, anyAlive: bool): (Timing, Action) {
    var ticks := t.ticksSinceLastMove + 1;
    if ticks < TicksPerMove(t.mode) then (t.(ticksSinceLastMove := ticks), Wait)
    else if t.mode == RANDOM then
      if t.movementCounter + 1 >= RANDOM_MOVEMENTS then (Timing(CHASING, 0, 0), RandomMove)
      else (Timing(RANDOM, t.movementCounter + 1, 0), RandomMove)
    else if !anyAlive then (Timing(RANDOM, 0, 0), GiveUp)
    else if t.movementCounter + 1 >= CHASE_MOVEMENTS then (Timing(RANDOM, 0, 0), ChaseMove)
    else (Timing(CHASING, t.movementCounter + 1, 0), ChaseMove)
  }

  /** The counters after n calls of move while some player stays alive. */
  function RunTiming(t: Timing, n: nat): Timing
    decreases n
  {
    if n == 0 then t else RunTiming(NextTiming(t, true).0, n - 1)
  }

  /** One more call after n calls. */
  lemma {:induction false} RunTimingSplit(t: Timing, n: nat)
    ensures RunTiming(t, n + 1) == NextTiming(RunTiming(t, n), true).0
    decreases n
  {
    if n > 0 {
      RunTimingSplit(NextTiming(t, true).0, n - 1);
    }
  }

  /** Between two moves the counters only count ticks. */
  lemma {:induction false} WaitPhase(m: Mode, c: nat, k: nat, n: nat)
    requires k + n < TicksPerMove(m)
    ensures RunTiming(Timing(m, c, k), n) == Timing(m, c, k + n)
    decreases n
  {
    if n > 0 {
      WaitPhase(m, c, k + 1, n - 1);
    }
  }

  /** Every TicksPerMove calls the flowerpot makes exactly one move in its current mode. */
  lemma OneMove(m: Mode, c: nat)
    ensures RunTiming(Timing(m, c, 0), TicksPerMove(m)) == NextTiming(Timing(m, c, TicksPerMove(m) - 1), true).0
  {
    WaitPhase(m, c, 0, TicksPerMove(m) - 1);
    RunTimingSplit(Timing(m, c, 0), TicksPerMove(m) - 1);
  }

  /** Running a + b calls is running a calls and then b calls. */
  lemma {:induction false} RunTimingAdd(t: Timing, a: nat, b: nat)
    ensures RunTiming(t, a + b) == RunTiming(RunTiming(t, a), b)
    decreases a
  {
    if a > 0 {
      RunTimingAdd(NextTiming(t, true).0, a - 1, b);
    }
  }

  /** From c moves into a mode, the remaining moves of the mode take TicksPerMove calls each. */
  lemma {:induction false} ModeBudget(m: Mode, c: nat, budget: nat)
    requires budget == (if m == RANDOM then RANDOM_MOVEMENTS else CHASE_MOVEMENTS) && c < budget
    ensures RunTiming(Timing(m, c, 0), (budget - c) * TicksPerMove(m)) ==
      Timing(if m == RANDOM then CHASING else RANDOM, 0, 0)
    decreases budget - c
  {
    var per := TicksPerMove(m);
    OneMove(m, c);
    if c + 1 < budget {
      assert (budget - c) * per == per + (budget - (c + 1)) * per;
      RunTimingAdd(Timing(m, c, 0), per, (budget - (c + 1)) * per);
      ModeBudget(m, c + 1, budget);
    }
  }

  /**
   * With some player alive throughout, a flowerpot that has just entered RANDOM mode switches
   * to CHASING after 25 moves of 20 ticks, and back to RANDOM after 35 moves of 8 ticks.
   */
  lemma ModeCycle()
    ensures RunTiming(Timing(RANDOM, 0, 0), RANDOM_MOVEMENTS * RANDOM_TICKS_PER_MOVE) == Timing(CHASING, 0, 0)
    ensures RunTiming(Timing(CHASING, 0, 0), CHASE_MOVEMENTS * CHASE_TICKS_PER_MOVE) == Timing(RANDOM, 0, 0)
  {
    ModeBudget(RANDOM, 0, RANDOM_MOVEMENTS);
    ModeBudget(CHASING, 0, CHASE_MOVEMENTS);
  }

  /** Once no player is alive, a chasing flowerpot drops back to RANDOM on its next move. */
  lemma ChaseNeedsLivingPlayer(c: nat, k: nat)
    requires k + 1 >= CHASE_TICKS_PER_MOVE
    ensures NextTiming(Timing(CHASING, c, k), false) == (Timing(RANDOM, 0, 0), GiveUp)
  {
  }

  /**
   * The heading a random step ends with: the current one, or a fresh draw if the 30% change
   * happens; and if that heading is blocked, a second draw among the walkable directions.
   */
  function RandomHeading(b: Board, pos: Position, dir: Direction, draws: Draws): Direction
    reads b.cells
  {
    var d1 := if draws.turn then PickFrom(OpenDirections(b, pos), draws.firstPick) else dir;
    if b.IsWalkable(pos.Step(d1)) then d1 else PickFrom(OpenDirections(b, pos), draws.secondPick)
  }

  /**
   * A random step is never wasted while the heading is a real direction or a new one is
   * drawn: whenever some neighbour is walkable, the heading it ends with points at one.
   * (A heading of NONE, left by an earlier draw with every neighbour blocked, keeps the
   * flowerpot on its own cell until the 30% draw replaces it.)
   */
  lemma RandomStepMovesWhenPossible(b: Board, pos: Position, dir: Direction, draws: Draws)
    requires dir.IsCardinal() || draws.turn
    ensures var h := RandomHeading(b, pos, dir, draws);
      (exists e: Direction :: e.IsCardinal() && b.IsWalkable(pos.Step(e))) <==> b.IsWalkable(pos.Step(h)) && h != NONE
  {
    PickOpen(b, pos, draws.firstPick);
    PickOpen(b, pos, draws.secondPick);
  }

  class MacetaChaseMovement {
    var mode: Mode
    var movementCounter: nat
    var ticksSinceLastMove: nat
    var randomDir: Direction
    var currentPath: seq<Direction>
    var lastTargetRow: int
    var lastTargetCol: int

    function CurrentTiming(): Timing
      reads this
    {
      Timing(mode, movementCounter, ticksSinceLastMove)
    }

    constructor ()
      ensures CurrentTiming() == Timing(RANDOM, 0, 0)
      ensures randomDir == LEFT && currentPath == [] && lastTargetRow == -1 && lastTargetCol == -1
    {
      mode := RANDOM;
      movementCounter := 0;
      ticksSinceLastMove := 0;
      randomDir := LEFT;
      currentPath := [];
      lastTargetRow := -1;
      lastTargetCol := -1;
    }

    /**
     * One game tick for the flowerpot. With no players it does nothing. Otherwise the
     * counters follow NextTiming; a random move follows RandomHeading, a chase move follows
     * ChaseStep towards the nearest living player, and every mode switch clears the path.
     */
    method Move<B>(board: Board, players: seq<Player>, enemy: Enemy<B>, draws: Draws)
      requires board.IsInside(enemy.position)
      requires forall i :: 0 <= i < |players| ==> board.IsInside(players[i].position)
      modifies this, enemy
      ensures |players| == 0 ==> unchanged(this) && unchanged(enemy)
      ensures board.IsInside(enemy.position)
      ensures |players| > 0 ==> CurrentTiming() == NextTiming(old(CurrentTiming()), AnyAlive(players)).0
      ensures var action := NextTiming(old(CurrentTiming()), AnyAlive(players)).1;
        && (|players| > 0 && (action == Wait || action == GiveUp) ==>
              enemy.position == old(enemy.position) && enemy.direction == old(enemy.direction))
        && (|players| > 0 && action == Wait ==>
              currentPath == old(currentPath) && randomDir == old(randomDir)
              && lastTargetRow == old(lastTargetRow) && lastTargetCol == old(lastTargetCol))
        && (|players| > 0 && action == RandomMove ==>
              randomDir == RandomHeading(board, old(enemy.position), old(randomDir), draws)
              && enemy.position == (if board.IsWalkable(old(enemy.position).Step(randomDir)) then old(enemy.position).Step(randomDir) else old(enemy.position))
              && enemy.direction == (if board.IsWalkable(old(enemy.position).Step(randomDir)) then randomDir else old(enemy.direction)))
        && (|players| > 0 && action == ChaseMove ==>
              ChaseMoved(board, players, old(enemy.position), old(enemy.direction),
                         old(currentPath), old(lastTargetRow), old(lastTargetCol),
                         enemy.position, enemy.direction, currentPath, lastTargetRow, lastTargetCol,
                         movementCounter == 0))
        && (|players| > 0 && action != Wait && movementCounter == 0 ==>
              currentPath == [] && lastTargetRow == -1 && lastTargetCol == -1)
    {
      if |players| == 0 {
        return;
      }
      ticksSinceLastMove := ticksSinceLastMove + 1;
      var ticksPerMove := if mode == RANDOM then RANDOM_TICKS_PER_MOVE else CHASE_TICKS_PER_MOVE;
      if ticksSinceLastMove < ticksPerMove {
        return;
      }
      ticksSinceLastMove := 0;
      if mode == RANDOM {
        RandomStep(board, enemy, draws);
        movementCounter := movementCounter + 1;
        if movementCounter >= RANDOM_MOVEMENTS {
          SwitchToChaseMode();
        }
      } else {
        ChaseTurn(board, players, enemy);
      }
    }

    /**
     * A move in CHASING mode: give up to RANDOM when every player is dead; otherwise take a
     * chase step towards the first nearest living player, count it, and switch to RANDOM
     * after CHASE_MOVEMENTS of them.
     */
    method ChaseTurn<B>(board: Board, players: seq<Player>, enemy: Enemy<B>)
      requires mode == CHASING && ticksSinceLastMove == 0
      requires board.IsInside(enemy.position)
      requires forall i :: 0 <= i < |players| ==> board.IsInside(players[i].position)
      modifies this`mode, this`movementCounter, this`ticksSinceLastMove, this`currentPath, this`lastTargetRow, this`lastTargetCol, enemy
      ensures board.IsInside(enemy.position)
      ensures !AnyAlive(players) ==>
        && CurrentTiming() == Timing(RANDOM, 0, 0)
        && enemy.position == old(enemy.position) && enemy.direction == old(enemy.direction)
      ensures AnyAlive(players) ==>
        && CurrentTiming() == (if old(movementCounter) + 1 >= CHASE_MOVEMENTS then Timing(RANDOM, 0, 0)
                               else Timing(CHASING, old(movementCounter) + 1, 0))
        && ChaseMoved(board, players, old(enemy.position), old(enemy.direction),
                      old(currentPath), old(lastTargetRow), old(lastTargetCol),
                      enemy.position, enemy.direction, currentPath, lastTargetRow, lastTargetCol,
                      movementCounter == 0)
      ensures movementCounter == 0 ==> currentPath == [] && lastTargetRow == -1 && lastTargetCol == -1
    {
      var target := FindNearest(players, enemy.position, true);
      if target == null {
        SwitchToRandomMode();
        assert !AnyAlive(players);
        return;
      }
      ghost var ti :| IsFirstNearest(players, enemy.position, ti, true) && players[ti] == target;
      assert AnyAlive(players) by { assert !players[ti].dead; }
      var start := enemy.position;
      var goal := target.position;
      ChaseStep(board, enemy, start, goal);
      ghost var plan :| ChasePlan(board, start, goal, old(currentPath), old(lastTargetRow), old(lastTargetCol), plan)
        && ChaseOutcome(board, start, old(enemy.direction), plan, enemy.position, enemy.direction, currentPath);
      ghost var stepped := currentPath;
      CountChaseMove();
      ChaseMovedIntro(board, players, start, old(enemy.direction), old(currentPath), old(lastTargetRow),
                      old(lastTargetCol), ti, plan, enemy.position, enemy.direction, stepped,
                      currentPath, lastTargetRow, lastTargetCol, movementCounter == 0);
    }

    /** Counts a chase move and switches back to RANDOM after CHASE_MOVEMENTS of them. */
    method CountChaseMove()
      requires mode == CHASING
      modifies this`mode, this`movementCounter, this`ticksSinceLastMove, this`currentPath, this`lastTargetRow, this`lastTargetCol
      ensures old(movementCounter) + 1 >= CHASE_MOVEMENTS ==>
        CurrentTiming() == Timing(RANDOM, 0, 0)
        && currentPath == [] && lastTargetRow == -1 && lastTargetCol == -1
      ensures old(movementCounter) + 1 < CHASE_MOVEMENTS ==>
        CurrentTiming() == old(CurrentTiming()).(movementCounter := old(movementCounter) + 1)
        && currentPath == old(currentPath) && lastTargetRow == old(lastTargetRow) && lastTargetCol == old(lastTargetCol)
    {
      movementCounter := movementCounter + 1;
      if movementCounter >= CHASE_MOVEMENTS {
        SwitchToRandomMode();
      }
    }

    method SwitchToChaseMode()
      modifies this
      ensures CurrentTiming() == Timing(CHASING, 0, 0) && randomDir == old(randomDir)
      ensures currentPath == [] && lastTargetRow == -1 && lastTargetCol == -1
    {
      mode := CHASING;
      movementCounter := 0;
      ticksSinceLastMove := 0;
      currentPath := [];
      lastTargetRow := -1;
      lastTargetCol := -1;
    }

    method SwitchToRandomMode()
      modifies this`mode, this`movementCounter, this`ticksSinceLastMove, this`currentPath, this`lastTargetRow, this`lastTargetCol
      ensures CurrentTiming() == Timing(RANDOM, 0, 0) && randomDir == old(randomDir)
      ensures currentPath == [] && lastTargetRow == -1 && lastTargetCol == -1
    {
      mode := RANDOM;
      movementCounter := 0;
      ticksSinceLastMove := 0;
      currentPath := [];
      lastTargetRow := -1;
      lastTargetCol := -1;
    }

    /** A random step: the heading becomes RandomHeading, and the flowerpot moves if it can. */
    method RandomStep<B>(board: Board, enemy: Enemy<B>, draws: Draws)
      modifies this`randomDir, enemy
      ensures randomDir == RandomHeading(board, old(enemy.position), old(randomDir), draws)
      ensures var next := old(enemy.position).Step(randomDir);
        if board.IsWalkable(next) then enemy.position == next && enemy.direction == randomDir
        else enemy.position == old(enemy.position) && enemy.direction == old(enemy.direction)
    {
      var pos := enemy.position;
      if draws.turn {
        randomDir := RandomWalkableDirection(board, pos, draws.firstPick);
      }
      var next := pos.Translated(randomDir.DRow(), randomDir.DCol());
      if !board.IsInside(next) || !board.IsWalkable(next) {
        randomDir := RandomWalkableDirection(board, pos, draws.secondPick);
        next := pos.Translated(randomDir.DRow(), randomDir.DCol());
      }
      if board.IsInside(next) && board.IsWalkable(next) {
        enemy.position := next;
        enemy.direction := randomDir;
      }
    }

    /**
     * Collects the directions with a walkable neighbour, in the order UP, DOWN, LEFT, RIGHT,
     * and returns the one the drawn index selects, or NONE if there is none.
     */
    method RandomWalkableDirection(board: Board, pos: Position, pick: nat) returns (d: Direction)
      ensures d == PickFrom(OpenDirections(board, pos), pick)
    {
      var validDirections: seq<Direction> := [];
      for i := 0 to |CARDINALS|
        invariant validDirections == OpenAmong(board, pos, CARDINALS[..i])
      {
        var dir := CARDINALS[i];
        var nextPos := pos.Translated(dir.DRow(), dir.DCol());
        assert CARDINALS[..i + 1][..i] == CARDINALS[..i];
        if board.IsInside(nextPos) && board.IsWalkable(nextPos) {
          validDirections := validDirections + [dir];
        }
      }
      assert CARDINALS[..|CARDINALS|] == CARDINALS;
      if validDirections == [] {
        return NONE;
      }
      d := validDirections[pick % |validDirections|];
    }

    /**
     * One chase step from start towards goal. The path is recomputed by Bfs when it is empty
     * or the target has moved; otherwise the cached path is used. The flowerpot then takes the
     * path's first step if that cell is walkable (and drops the step), or stays and clears the
     * path if it is not.
     */
    method ChaseStep<B>(board: Board, enemy: Enemy<B>, start: Position, goal: Position)
      requires board.IsInside(start) && board.IsInside(goal) && enemy.position == start
      modifies this`currentPath, this`lastTargetRow, this`lastTargetCol, enemy
      ensures lastTargetRow == goal.row && lastTargetCol == goal.col
      ensures exists plan: seq<Direction> ::
        && ChasePlan(board, start, goal, old(currentPath), old(lastTargetRow), old(lastTargetCol), plan)
        && ChaseOutcome(board, start, old(enemy.direction), plan, enemy.position, enemy.direction, currentPath)
    {
      if currentPath == [] || goal.row != lastTargetRow || goal.col != lastTargetCol {
        currentPath := Bfs(board, start, goal);
        lastTargetRow := goal.row;
        lastTargetCol := goal.col;
      }
      ghost var plan := currentPath;
      assert ChasePlan(board, start, goal, old(currentPath), old(lastTargetRow), old(lastTargetCol), plan);
      if currentPath == [] {
        return;
      }
      var stepDir := currentPath[0];
      currentPath := currentPath[1..];
      var next := start.Translated(stepDir.DRow(), stepDir.DCol());
      if board.IsInside(next) && board.IsWalkable(next) {
        enemy.position := next;
        enemy.direction := stepDir;
      } else {
        currentPath := [];
      }
      assert ChaseOutcome(board, start, old(enemy.direction), plan, enemy.position, enemy.direction, currentPath);
    }

    /**
     * Breadth-first search from start to goal: a shortest walk, which is empty when start is
     * the goal; or the empty path when the goal cannot be reached.
     */
    method Bfs(board: Board, start: Position, goal: Position) returns (path: seq<Direction>)
      requires board.IsInside(start) && board.IsInside(goal)
      ensures IsShortestWalk(board, start, path, goal) || (path == [] && Unreachable(board, start, goal))
    {
      var visited, parentR, parentC, found, dist, parent := Explore(board, start, goal, true);
      if !found {
        return [];
      }
      path := [];
      var r := goal.row;
      var c := goal.col;
      while !(r == start.row && c == start.col)
        invariant Position(r, c) in dist
        invariant IsWalk(board, Position(r, c), path, goal)
        invariant dist[Position(r, c)] + |path| == dist[goal]
        decreases dist[Position(r, c)]
      {
        var v := Position(r, c);
        assert v in parent;
        var pr := parentR[r, c];
        var pc := parentC[r, c];
        var dir := DirectionFrom(pr, pc, r, c);
        assert Position(pr, pc).Step(dir) == v;
        assert ([dir] + path)[1..] == path;
        path := [dir] + path;
        r, c := pr, pc;
      }
    }
  }

  /**
   * The path a chase step follows: a fresh breadth-first path (a shortest walk, or empty when
   * the goal cannot be reached) when the stored path is empty or the target has moved, else
   * the stored path.
   */
  ghost predicate ChasePlan(board: Board, start: Position, goal: Position,
                            oldPath: seq<Direction>, oldRow: int, oldCol: int, plan: seq<Direction>)
    reads board.cells
  {
    var stale := oldPath == [] || goal.row != oldRow || goal.col != oldCol;
    && (stale ==> IsShortestWalk(board, start, plan, goal) || (plan == [] && Unreachable(board, start, goal)))
    && (!stale ==> plan == oldPath)
  }

  /**
   * What a chase step does with its plan: take the first step when that cell is walkable,
   * otherwise stay; and keep the rest of the plan after a step, or an empty path.
   */
  predicate ChaseOutcome(board: Board, start: Position, oldDir: Direction, plan: seq<Direction>,
                         pos: Position, dir: Direction, path: seq<Direction>)
    reads board.cells
  {
    && (plan != [] && board.IsWalkable(start.Step(plan[0])) ==>
          path == plan[1..] && pos == start.Step(plan[0]) && dir == plan[0])
    && (plan == [] || !board.IsWalkable(start.Step(plan[0])) ==>
          path == [] && pos == start && dir == oldDir)
  }

  /**
   * One chase move from start: the target is the first nearest living player, the path and
   * the pose follow ChasePlan and ChaseOutcome, and the target's cell is remembered; when
   * the move also switched back to RANDOM, the path and target are cleared instead.
   */
  ghost predicate ChaseMoved(board: Board, players: seq<Player>, start: Position, oldDir: Direction,
                             oldPath: seq<Direction>, oldRow: int, oldCol: int,
                             pos: Position, dir: Direction, path: seq<Direction>, row: int, col: int,
                             switched: bool)
    reads board.cells, players
  {
    exists i, plan :: IsFirstNearest(players, start, i, true)
      && ChasePlan(board, start, players[i].position, oldPath, oldRow, oldCol, plan)
      && (exists rest :: ChaseOutcome(board, start, oldDir, plan, pos, dir, rest)
                         && (!switched ==> path == rest))
      && (!switched ==> row == players[i].position.row && col == players[i].position.col)
  }

  /** A chase move towards players[i] along plan, leaving rest, is a ChaseMoved. */
  lemma ChaseMovedIntro(board: Board, players: seq<Player>, start: Position, oldDir: Direction,
                        oldPath: seq<Direction>, oldRow: int, oldCol: int, i: int, plan: seq<Direction>,
                        pos: Position, dir: Direction, rest: seq<Direction>,
                        path: seq<Direction>, row: int, col: int, switched: bool)
    requires IsFirstNearest(players, start, i, true)
    requires ChasePlan(board, start, players[i].position, oldPath, oldRow, oldCol, plan)
    requires ChaseOutcome(board, start, oldDir, plan, pos, dir, rest)
    requires !switched ==> path == rest && row == players[i].position.row && col == players[i].position.col
    ensures ChaseMoved(board, players, start, oldDir, oldPath, oldRow, oldCol, pos, dir, path, row, col, switched)
  {
  }

  /** Some player on the level is alive. */
  predicate AnyAlive(players: seq<Player>)
    reads players
  {
    exists i :: 0 <= i < |players| && !players[i].dead
  }
}
