/**
 * The orange squid's behaviour (domain/behavior/OrangeSquidMovement.java): every 16 ticks it
 * steps towards the nearest player along the axis with the larger gap; ice in the way is
 * broken over 12 of its moves; any other obstacle makes it try the other axis once.
 */
module OrangeSquid {
  import opened Directions
  import opened Positions
  import opened Cells
  import opened Boards
  import opened Players
  import opened Enemies
  import opened Wrappers

  const TICKS_PER_MOVE: nat := 16
  const TICKS_TO_BREAK_ICE: nat := 12

  /**
   * The preferred heading from `from` towards `to`: along the axis with the larger gap,
   * vertical on a tie; NONE when the two cells coincide.
   */
  function DirectionToPlayer(from: Position, to: Position): Direction {
    var rowDiff := to.row - from.row;
    var colDiff := to.col - from.col;
    if rowDiff == 0 && colDiff == 0 then NONE
    else if Abs(rowDiff) > Abs(colDiff) then (if rowDiff > 0 then DOWN else UP)
    else if Abs(colDiff) > Abs(rowDiff) then (if colDiff > 0 then RIGHT else LEFT)
    else (if rowDiff > 0 then DOWN else UP)
  }

  /**
   * The fallback heading when the preferred one is blocked by something other than ice:
   * along the other axis, towards the player; NONE when the player is level on that axis.
   */
  function AlternativeDirection(from: Position, to: Position): Direction {
    var rowDiff := to.row - from.row;
    var colDiff := to.col - from.col;
    if Abs(rowDiff) >= Abs(colDiff) then (if colDiff > 0 then RIGHT else if colDiff < 0 then LEFT else NONE)
    else (if rowDiff > 0 then DOWN else if rowDiff < 0 then UP else NONE)
  }

  /**
   * The preferred heading always closes in: it is NONE only on the player's own cell, and
   * otherwise one step along it shortens the distance by one, on an axis where the gap is
   * largest.
   */
  lemma PreferredStepClosesIn(from: Position, to: Position)
    ensures DirectionToPlayer(from, to) == NONE <==> from == to
    ensures from != to ==> Manhattan(from.Step(DirectionToPlayer(from, to)), to) + 1 == Manhattan(from, to)
    ensures DirectionToPlayer(from, to).IsVertical() ==> Abs(to.row - from.row) >= Abs(to.col - from.col)
    ensures DirectionToPlayer(from, to).IsHorizontal() ==> Abs(to.col - from.col) > Abs(to.row - from.row)
  {
  }

  /**
   * The fallback heading also closes in, on the axis the preferred heading does not use.
   */
  lemma AlternativeStepClosesIn(from: Position, to: Position)
    requires from != to
    ensures var alt := AlternativeDirection(from, to);
      alt != NONE ==>
        && Manhattan(from.Step(alt), to) + 1 == Manhattan(from, to)
        && alt.IsHorizontal() == DirectionToPlayer(from, to).IsVertical()
  {
  }

  /** What a chase move decides, before anything changes. */
  datatype Plan = Stay | StartBreaking(ice: Position, heading: Direction) | StepTo(heading: Direction)

  /** The chase move of a squid at pos towards a player at target on board b. */
  function ChasePlan(b: Board, pos: Position, target: Position): Plan
    reads b.cells
  {
    var d := DirectionToPlayer(pos, target);
    var next := pos.Step(d);
    if d == NONE then Stay
    else if b.IsInside(next) && b.GetCellType(next).IsIce() then StartBreaking(next, d)
    else if b.IsWalkable(next) then StepTo(d)
    else
      var alt := AlternativeDirection(pos, target);
      if alt != NONE && b.IsWalkable(pos.Step(alt)) then StepTo(alt) else Stay
  }

  /**
   * A chase move never loses ground and never walks into a blocked cell: a step lands on a
   * walkable cell one closer to the player, and the ice it starts on is the cell beside it.
   */
  lemma ChasePlanApproaches(b: Board, pos: Position, target: Position)
    ensures var plan := ChasePlan(b, pos, target);
      plan.StepTo? ==>
        b.IsWalkable(pos.Step(plan.heading)) && Manhattan(pos.Step(plan.heading), target) + 1 == Manhattan(pos, target)
    ensures var plan := ChasePlan(b, pos, target);
      plan.StartBreaking? ==>
        && plan.ice == pos.Step(plan.heading) && b.IsInside(plan.ice) && b.GetCellType(plan.ice).IsIce()
        && plan.heading == DirectionToPlayer(pos, target)
  {
    PreferredStepClosesIn(pos, target);
    if pos != target {
      AlternativeStepClosesIn(pos, target);
    }
  }

  class OrangeSquidMovement {
    var tickCounter: nat
    var isBreakingIce: bool
    var breakingTickCounter: nat
    var iceBeingBroken: Option<Position>

    /** A breaking job always names its cell, and its counter stays below the 12 it needs. */
    predicate Valid()
      reads this
    {
      && (isBreakingIce <==> iceBeingBroken.Some?)
      && breakingTickCounter < TICKS_TO_BREAK_ICE
      && (!isBreakingIce ==> breakingTickCounter == 0)
    }

    constructor ()
      ensures Valid() && tickCounter == 0 && !isBreakingIce
    {
      tickCounter := 0;
      isBreakingIce := false;
      breakingTickCounter := 0;
      iceBeingBroken := None;
    }

    /**
     * One game tick for the squid. Every 16th call it either carries on breaking ice, or
     * makes the ChasePlan move towards the first nearest player (dead players included);
     * with no players it stays put.
     */
    method Move<B>(board: Board, players: seq<Player>, enemy: Enemy<B>)
      requires Valid()
      modifies this, enemy, board.cells
      ensures Valid() && tickCounter == old(tickCounter) + 1
      ensures board.IsInside(old(enemy.position)) ==> board.IsInside(enemy.position)
      ensures tickCounter % TICKS_PER_MOVE != 0 ==>
        && isBreakingIce == old(isBreakingIce) && breakingTickCounter == old(breakingTickCounter)
        && iceBeingBroken == old(iceBeingBroken) && unchanged(enemy) && unchanged(board.cells)
      ensures tickCounter % TICKS_PER_MOVE == 0 && old(isBreakingIce) ==>
        unchanged(enemy) && IceWorked(board, old(iceBeingBroken).value, old(breakingTickCounter), breakingTickCounter, iceBeingBroken)
      ensures tickCounter % TICKS_PER_MOVE == 0 && !old(isBreakingIce) && |players| == 0 ==>
        unchanged(enemy) && unchanged(board.cells) && !isBreakingIce
      ensures tickCounter % TICKS_PER_MOVE == 0 && !old(isBreakingIce) && |players| > 0 ==>
        unchanged(board.cells) &&
        exists i :: IsFirstNearest(players, old(enemy.position), i, false)
          && Chased(old(enemy.position), old(enemy.direction), ChasePlan(board, old(enemy.position), players[i].position),
                    enemy.position, enemy.direction, isBreakingIce, breakingTickCounter, iceBeingBroken)
    {
      tickCounter := tickCounter + 1;
      if tickCounter % TICKS_PER_MOVE != 0 {
        return;
      }
      if isBreakingIce {
        BreakIce(board);
        return;
      }
      var nearestPlayer := FindNearest(players, enemy.position, false);
      if nearestPlayer == null {
        assert |players| > 0 ==> Eligible(players[0], false);
        return;
      }
      ghost var i :| IsFirstNearest(players, enemy.position, i, false) && players[i] == nearestPlayer;
      ChaseMove(board, enemy, nearestPlayer);
    }

    /** Carries out ChasePlan towards the target player. */
    method ChaseMove<B>(board: Board, enemy: Enemy<B>, nearestPlayer: Player)
      requires Valid() && !isBreakingIce
      modifies this`isBreakingIce, this`breakingTickCounter, this`iceBeingBroken, enemy
      ensures Valid()
      ensures Chased(old(enemy.position), old(enemy.direction), ChasePlan(board, old(enemy.position), nearestPlayer.position),
                     enemy.position, enemy.direction, isBreakingIce, breakingTickCounter, iceBeingBroken)
    {
      var bestDirection := DirectionToPlayer(enemy.position, nearestPlayer.position);
      if bestDirection == NONE {
        return;
      }
      var current := enemy.position;
      var next := current.Translated(bestDirection.DRow(), bestDirection.DCol());
      if board.IsInside(next) && IsIceBlock(board, next) {
        StartBreakingIce(next, bestDirection, enemy);
        return;
      }
      if board.IsWalkable(next) {
        enemy.position := next;
        enemy.direction := bestDirection;
      } else {
        TryAlternativeRoute(board, enemy, nearestPlayer);
      }
    }

    static predicate IsIceBlock(board: Board, pos: Position)
      requires board.IsInside(pos)
      reads board.cells
    {
      var cellType := board.GetCellType(pos);
      cellType == ICE_BLOCK || cellType == PLAYER_ICE
    }

    method StartBreakingIce<B>(icePosition: Position, direction: Direction, enemy: Enemy<B>)
      modifies this`isBreakingIce, this`breakingTickCounter, this`iceBeingBroken, enemy`direction
      ensures Valid() && isBreakingIce && breakingTickCounter == 0 && iceBeingBroken == Some(icePosition)
      ensures enemy.direction == direction
    {
      isBreakingIce := true;
      breakingTickCounter := 0;
      iceBeingBroken := Some(icePosition);
      enemy.direction := direction;
    }

    /**
     * One move's worth of work on the ice. On the 12th the cell becomes EMPTY if it is still
     * ice, and the job ends.
     */
    method BreakIce(board: Board)
      requires Valid() && isBreakingIce
      modifies this`breakingTickCounter, this`isBreakingIce, this`iceBeingBroken, board.cells
      ensures Valid()
      ensures IceWorked(board, old(iceBeingBroken).value, old(breakingTickCounter), breakingTickCounter, iceBeingBroken)
    {
      breakingTickCounter := breakingTickCounter + 1;
      if breakingTickCounter >= TICKS_TO_BREAK_ICE {
        var ice := iceBeingBroken.value;
        if board.IsInside(ice) && IsIceBlock(board, ice) {
          board.SetCellType(ice, EMPTY);
        }
        isBreakingIce := false;
        breakingTickCounter := 0;
        iceBeingBroken := None;
      }
    }

    /** Steps along AlternativeDirection when that heading exists and leads to a walkable cell. */
    method TryAlternativeRoute<B>(board: Board, enemy: Enemy<B>, targetPlayer: Player)
      modifies enemy
      ensures var alt := AlternativeDirection(old(enemy.position), targetPlayer.position);
        if alt != NONE && board.IsWalkable(old(enemy.position).Step(alt)) then
          enemy.position == old(enemy.position).Step(alt) && enemy.direction == alt
        else
          enemy.position == old(enemy.position) && enemy.direction == old(enemy.direction)
    {
      var current := enemy.position;
      var playerPos := targetPlayer.position;
      var rowDiff := playerPos.row - current.row;
      var colDiff := playerPos.col - current.col;
      if Abs(rowDiff) >= Abs(colDiff) {
        var altDir := if colDiff > 0 then RIGHT else if colDiff < 0 then LEFT else NONE;
        if altDir != NONE {
          var altNext := current.Translated(altDir.DRow(), altDir.DCol());
          if board.IsWalkable(altNext) {
            enemy.position := altNext;
            enemy.direction := altDir;
          }
        }
      } else {
        var altDir := if rowDiff > 0 then DOWN else if rowDiff < 0 then UP else NONE;
        if altDir != NONE {
          var altNext := current.Translated(altDir.DRow(), altDir.DCol());
          if board.IsWalkable(altNext) {
            enemy.position := altNext;
            enemy.direction := altDir;
          }
        }
      }
    }
  }

  /**
   * One move's worth of ice breaking on the cell ice with the counter at c: before the 12th
   * the counter just climbs; on the 12th the cell turns EMPTY if it still holds ice and the
   * job is over.
   */
  twostate predicate IceWorked(board: Board, ice: Position, c: nat, c': nat, job: Option<Position>)
    reads board.cells
  {
    if c + 1 < TICKS_TO_BREAK_ICE then
      c' == c + 1 && job == Some(ice) && unchanged(board.cells)
    else
      && c' == 0 && job == None
      && (if old(board.IsInside(ice) && board.GetCellType(ice).IsIce()) then CellSetTo(board, ice, EMPTY)
          else unchanged(board.cells))
  }

  /** The squid's state after carrying out plan from position from with heading dir. */
  predicate Chased(from: Position, dir: Direction, plan: Plan, pos: Position, dir': Direction,
                   breaking: bool, counter: nat, job: Option<Position>)
  {
    match plan
    case Stay => pos == from && dir' == dir && !breaking
    case StartBreaking(ice, heading) => pos == from && dir' == heading && breaking && counter == 0 && job == Some(ice)
    case StepTo(heading) => pos == from.Step(heading) && dir' == heading && !breaking
  }
}
