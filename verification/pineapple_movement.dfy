/**
 * The pineapple's behaviour (domain/behavior/PineappleMovement.java): every 16 ticks it moves
 * one cell along its current axis, reversing or changing axis when blocked, changing axis at
 * random after 3 moves and always after 8, and jumping over a single block of ice in two
 * phases (onto the ice, then beyond it).
 */
module Pineapple {
  import opened Directions
  import opened Positions
  import opened Boards
  import opened Fruits
  import opened Wrappers

  datatype Axis = VERTICAL | HORIZONTAL

  const TICKS_PER_MOVE: nat := 16
  const MIN_MOVEMENTS_BEFORE_CHANGE: nat := 3
  const MAX_MOVEMENTS_BEFORE_FORCE: nat := 8

  /**
   * The random draws one move may consume: whether the 15% voluntary change of axis
   * happens, and the coin each of the (at most two) axis changes tosses for its direction.
   */
  datatype Draws = Draws(changeAxis: bool, firstCoin: bool, secondCoin: bool)

  /** d runs along axis. */
  predicate OnAxis(a: Axis, d: Direction) {
    if a == VERTICAL then d.IsVertical() else d.IsHorizontal()
  }

  /** The other axis and a direction along it chosen by the coin. */
  function Switched(a: Axis, coin: bool): (r: (Axis, Direction))
    ensures r.0 != a && OnAxis(r.0, r.1)
  {
    if a == VERTICAL then (HORIZONTAL, if coin then LEFT else RIGHT)
    else (VERTICAL, if coin then UP else DOWN)
  }

  /** What trying one direction gives: nothing, a step to a walkable cell, or a jump over ice. */
  datatype Attempt = Blocked | Walk(next: Position) | Jump(over: Position, landing: Position)

  /**
   * Trying direction d from `from`: walk if the cell ahead is walkable; otherwise jump if
   * the cell ahead is ice and the cell beyond it, still on the board, is walkable.
   */
  function TryMove(b: Board, from: Position, d: Direction): Attempt
    reads b.cells
  {
    if d == NONE then Blocked
    else
      var next := from.Step(d);
      if b.IsInside(next) && b.IsWalkable(next) then Walk(next)
      else
        var landing := next.Step(d);
        if !b.IsInside(next) || !b.IsInside(landing) then Blocked
        else if b.GetCellType(next).IsIce() && b.IsWalkable(landing) then Jump(next, landing)
        else Blocked
  }

  /**
   * A walk enters the walkable cell ahead; a jump goes over an ice cell straight ahead and
   * lands on the walkable cell just beyond it.
   */
  lemma TryMoveSound(b: Board, from: Position, d: Direction)
    ensures var t := TryMove(b, from, d);
      t.Walk? ==> d.IsCardinal() && t.next == from.Step(d) && b.IsWalkable(t.next)
    ensures var t := TryMove(b, from, d);
      t.Jump? ==> && d.IsCardinal() && t.over == from.Step(d) && t.landing == t.over.Step(d)
                  && b.IsInside(t.over) && b.GetCellType(t.over).IsIce() && b.IsWalkable(t.landing)
  {
  }

  /** The pineapple's heading and move count after one move, and what that move does. */
  datatype Outcome = Outcome(axis: Axis, dir: Direction, moves: nat, attempt: Attempt)

  /**
   * Where a pineapple at `from` with the given axis, heading and move count goes: its
   * heading, else the opposite heading; else, after one more change of axis, the new
   * heading or its opposite; the first that works is kept.
   */
  function Settle(b: Board, from: Position, a1: Axis, d1: Direction, m1: nat, coin: bool): Outcome
    reads b.cells
  {
    var t1 := TryMove(b, from, d1);
    var t2 := TryMove(b, from, d1.Opposite());
    if !t1.Blocked? then Outcome(a1, d1, m1, t1)
    else if !t2.Blocked? then Outcome(a1, d1.Opposite(), m1, t2)
    else
      var (a2, d2) := Switched(a1, coin);
      var t3 := TryMove(b, from, d2);
      var t4 := TryMove(b, from, d2.Opposite());
      if !t3.Blocked? then Outcome(a2, d2, 0, t3)
      else if !t4.Blocked? then Outcome(a2, d2.Opposite(), 0, t4)
      else Outcome(a2, d2, 0, Blocked)
  }

  /** Whether a move that brings the count to m changes axis first: forced at 8, drawn from 3. */
  predicate Switching(m: nat, draws: Draws) {
    m >= MAX_MOVEMENTS_BEFORE_FORCE || (m >= MIN_MOVEMENTS_BEFORE_CHANGE && draws.changeAxis)
  }

  /**
   * One move of a pineapple that is not jumping: count the move, change axis if forced or
   * drawn, then Settle.
   */
  function Plan(b: Board, from: Position, axis: Axis, dir: Direction, moves: nat, draws: Draws): Outcome
    reads b.cells
  {
    var m := moves + 1;
    if Switching(m, draws) then
      Settle(b, from, Switched(axis, draws.firstCoin).0, Switched(axis, draws.firstCoin).1, 0, draws.secondCoin)
    else
      Settle(b, from, axis, dir, m, draws.secondCoin)
  }

  /** A heading along one axis, its opposite, and both headings along the other axis are the four compass directions. */
  lemma FourHeadings(a: Axis, d: Direction, e: Direction, x: Direction)
    requires OnAxis(a, d) && !OnAxis(a, e) && e.IsCardinal() && x.IsCardinal()
    ensures x in {d, d.Opposite(), e, e.Opposite()}
  {
  }

  /**
   * Settling from a heading along the axis ends with a heading along the final axis and no
   * more moves counted than before; it stays put only when it can neither walk nor jump in
   * any of the four directions.
   */
  lemma SettleStaysOnlyWhenBoxedIn(b: Board, from: Position, a1: Axis, d1: Direction, m1: nat, coin: bool)
    requires OnAxis(a1, d1)
    ensures var o := Settle(b, from, a1, d1, m1, coin);
      OnAxis(o.axis, o.dir) && o.moves <= m1
    ensures Settle(b, from, a1, d1, m1, coin).attempt.Blocked? ==>
      forall x: Direction :: x.IsCardinal() ==> TryMove(b, from, x).Blocked?
  {
    var (a2, d2) := Switched(a1, coin);
    if Settle(b, from, a1, d1, m1, coin).attempt.Blocked? {
      forall x: Direction | x.IsCardinal()
        ensures TryMove(b, from, x).Blocked?
      {
        FourHeadings(a1, d1, d2, x);
      }
    }
  }

  /**
   * A pineapple whose heading runs along its axis stays put only when it can neither walk
   * nor jump in any of the four directions; and it always ends with a heading along its axis
   * and fewer than 8 moves on it.
   */
  lemma PlanStaysOnlyWhenBoxedIn(b: Board, from: Position, axis: Axis, dir: Direction, moves: nat, draws: Draws)
    requires OnAxis(axis, dir) && moves < MAX_MOVEMENTS_BEFORE_FORCE
    ensures var o := Plan(b, from, axis, dir, moves, draws);
      OnAxis(o.axis, o.dir) && o.moves < MAX_MOVEMENTS_BEFORE_FORCE
    ensures Plan(b, from, axis, dir, moves, draws).attempt.Blocked? ==>
      forall x: Direction :: x.IsCardinal() ==> TryMove(b, from, x).Blocked?
  {
    if Switching(moves + 1, draws) {
      var (a1, d1) := Switched(axis, draws.firstCoin);
      SettleStaysOnlyWhenBoxedIn(b, from, a1, d1, 0, draws.secondCoin);
    } else {
      SettleStaysOnlyWhenBoxedIn(b, from, axis, dir, moves + 1, draws.secondCoin);
    }
  }

  class PineappleMovement {
    var axis: Axis
    var dir: Direction
    var tickCounter: nat
    var jumping: bool
    var jumpOver: Option<Position>
    var jumpLanding: Option<Position>
    var jumpPhase: nat
    var movementsInCurrentAxis: nat

    /**
     * The heading runs along the axis, a forced change of axis keeps the move count below
     * 8, and a jump in progress knows both of its cells.
     */
    predicate Valid()
      reads this
    {
      && OnAxis(axis, dir)
      && movementsInCurrentAxis < MAX_MOVEMENTS_BEFORE_FORCE
      && (jumping ==> jumpOver.Some? && jumpLanding.Some?)
      && jumpPhase <= 1
    }

    constructor ()
      ensures Valid() && axis == VERTICAL && dir == UP && tickCounter == 0 && !jumping
      ensures movementsInCurrentAxis == 0
    {
      axis := VERTICAL;
      dir := UP;
      tickCounter := 0;
      jumping := false;
      jumpOver := None;
      jumpLanding := None;
      jumpPhase := 0;
      movementsInCurrentAxis := 0;
    }

    /**
     * One game tick for the pineapple. Every 16th call it either carries on a jump (onto the
     * ice, then onto the landing cell) or makes the move Plan describes: a walk moves it at
     * once, a jump is only prepared.
     */
    method Move<B>(board: Board, fruit: Fruit<B>, draws: Draws)
      requires Valid()
      modifies this, fruit`position
      ensures Valid() && tickCounter == old(tickCounter) + 1
      ensures tickCounter % TICKS_PER_MOVE != 0 ==>
        && fruit.position == old(fruit.position) && axis == old(axis) && dir == old(dir)
        && jumping == old(jumping) && jumpPhase == old(jumpPhase)
        && jumpOver == old(jumpOver) && jumpLanding == old(jumpLanding)
        && movementsInCurrentAxis == old(movementsInCurrentAxis)
      ensures tickCounter % TICKS_PER_MOVE == 0 && old(jumping) ==>
        && axis == old(axis) && dir == old(dir) && movementsInCurrentAxis == old(movementsInCurrentAxis)
        && jumpOver == old(jumpOver) && jumpLanding == old(jumpLanding)
        && (old(jumpPhase) == 0 ==> fruit.position == old(jumpOver).value && jumping && jumpPhase == 1)
        && (old(jumpPhase) != 0 ==> fruit.position == old(jumpLanding).value && !jumping)
      ensures tickCounter % TICKS_PER_MOVE == 0 && !old(jumping) ==>
        var o := Plan(board, old(fruit.position), old(axis), old(dir), old(movementsInCurrentAxis), draws);
        axis == o.axis && dir == o.dir && movementsInCurrentAxis == o.moves
        && Carried(o.attempt, old(fruit.position), fruit.position, jumping, jumpPhase, jumpOver, jumpLanding)
    {
      tickCounter := tickCounter + 1;
      if tickCounter % TICKS_PER_MOVE != 0 {
        return;
      }
      if jumping {
        ContinueJump(fruit);
        return;
      }
      StepMove(board, fruit, draws);
    }

    /** A move that is not part of a jump, as Plan describes it. */
    method StepMove<B>(board: Board, fruit: Fruit<B>, draws: Draws)
      requires Valid() && !jumping
      modifies this`axis, this`dir, this`movementsInCurrentAxis, this`jumping, this`jumpOver, this`jumpLanding,
        this`jumpPhase, fruit`position
      ensures Valid()
      ensures var o := Plan(board, old(fruit.position), old(axis), old(dir), old(movementsInCurrentAxis), draws);
        axis == o.axis && dir == o.dir && movementsInCurrentAxis == o.moves && Carried(o.attempt, old(fruit.position), fruit.position, jumping, jumpPhase, jumpOver, jumpLanding)
    {
      movementsInCurrentAxis := movementsInCurrentAxis + 1;
      if movementsInCurrentAxis >= MAX_MOVEMENTS_BEFORE_FORCE {
        SwitchAxis(draws.firstCoin);
      } else if movementsInCurrentAxis >= MIN_MOVEMENTS_BEFORE_CHANGE && draws.changeAxis {
        SwitchAxis(draws.firstCoin);
      }
      SettleMove(board, fruit, fruit.position, draws.secondCoin);
    }

    /** Tries the four headings in the order Settle gives and carries out the first that works. */
    method SettleMove<B>(board: Board, fruit: Fruit<B>, current: Position, coin: bool)
      requires OnAxis(axis, dir) && movementsInCurrentAxis < MAX_MOVEMENTS_BEFORE_FORCE && !jumping && jumpPhase <= 1
      requires fruit.position == current
      modifies this`axis, this`dir, this`movementsInCurrentAxis, this`jumping, this`jumpOver, this`jumpLanding,
        this`jumpPhase, fruit`position
      ensures Valid()
      ensures var o := Settle(board, current, old(axis), old(dir), old(movementsInCurrentAxis), coin);
        axis == o.axis && dir == o.dir && movementsInCurrentAxis == o.moves && Carried(o.attempt, current, fruit.position, jumping, jumpPhase, jumpOver, jumpLanding)
    {
      var done := TryMoveOrPrepareJump(board, fruit, current, dir);
      if done {
        return;
      }
      var opposite := dir.Opposite();
      done := TryMoveOrPrepareJump(board, fruit, current, opposite);
      if done {
        dir := opposite;
        return;
      }
      SwitchAxis(coin);
      done := TryMoveOrPrepareJump(board, fruit, current, dir);
      if done {
        return;
      }
      var otherOpposite := dir.Opposite();
      done := TryMoveOrPrepareJump(board, fruit, current, otherOpposite);
      if done {
        dir := otherOpposite;
      }
    }

    /** Turns to the other axis, heading along it as the coin says, and restarts the move count. */
    method SwitchAxis(coin: bool)
      modifies this`axis, this`dir, this`movementsInCurrentAxis
      ensures (axis, dir) == Switched(old(axis), coin) && movementsInCurrentAxis == 0
    {
      if axis == VERTICAL {
        axis := HORIZONTAL;
        dir := if coin then LEFT else RIGHT;
      } else {
        axis := VERTICAL;
        dir := if coin then UP else DOWN;
      }
      movementsInCurrentAxis := 0;
    }

    /**
     * Carries out TryMove from `from` in direction d: a walk moves the fruit, a jump is
     * recorded for the next moves; done tells whether either happened.
     */
    method TryMoveOrPrepareJump<B>(board: Board, fruit: Fruit<B>, from: Position, d: Direction) returns (done: bool)
      requires !jumping
      modifies this`jumping, this`jumpOver, this`jumpLanding, this`jumpPhase, fruit`position
      ensures var t := TryMove(board, from, d);
        done == !t.Blocked? && Carried(t, old(fruit.position), fruit.position, jumping, jumpPhase, jumpOver, jumpLanding)
      ensures TryMove(board, from, d).Jump? || (jumpPhase == old(jumpPhase) && jumpOver == old(jumpOver) && jumpLanding == old(jumpLanding))
    {
      if d == NONE {
        return false;
      }
      var next := from.Translated(d.DRow(), d.DCol());
      if board.IsInside(next) && board.IsWalkable(next) {
        fruit.position := next;
        return true;
      }
      var landing := next.Translated(d.DRow(), d.DCol());
      if !board.IsInside(next) || !board.IsInside(landing) {
        return false;
      }
      var overType := board.GetCellType(next);
      var isIce := overType.IsIce();
      var landingWalkable := board.IsWalkable(landing);
      if isIce && landingWalkable {
        jumping := true;
        jumpOver := Some(next);
        jumpLanding := Some(landing);
        jumpPhase := 0;
        return true;
      }
      return false;
    }

    /** The next phase of a jump: onto the ice first, then onto the landing cell, which ends it. */
    method ContinueJump<B>(fruit: Fruit<B>)
      requires jumping && jumpOver.Some? && jumpLanding.Some? && jumpPhase <= 1
      modifies this`jumpPhase, this`jumping, fruit`position
      ensures old(jumpPhase) == 0 ==> fruit.position == jumpOver.value && jumping && jumpPhase == 1
      ensures old(jumpPhase) != 0 ==> fruit.position == jumpLanding.value && !jumping && jumpPhase == old(jumpPhase)
    {
      if jumpPhase == 0 {
        fruit.position := jumpOver.value;
        jumpPhase := 1;
      } else {
        fruit.position := jumpLanding.value;
        jumping := false;
      }
    }
  }

  /**
   * The pineapple's position and jump state after carrying out attempt from `from`: a walk
   * moves it, a jump is recorded to start on the next move, and a blocked attempt leaves it.
   */
  predicate Carried(attempt: Attempt, from: Position, pos: Position, jumping: bool, phase: nat,
                    over: Option<Position>, landing: Option<Position>)
  {
    match attempt
    case Blocked => pos == from && !jumping
    case Walk(next) => pos == next && !jumping
    case Jump(o, l) => pos == from && jumping && phase == 0 && over == Some(o) && landing == Some(l)
  }
}
