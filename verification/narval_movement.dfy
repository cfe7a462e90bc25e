/**
 * The narwhal's behaviour (domain/behavior/NarvalMovement.java): it patrols in a straight
 * line, bouncing off obstacles, until it sees a player in its row or column; then it charges
 * in that direction, smashing ice, until it hits something it cannot smash.
 */
module Narval {
  import opened Directions
  import opened Positions
  import opened Cells
  import opened Boards
  import opened Players
  import opened Enemies
  import opened Wrappers

  datatype State = PATROL | CHARGING

  const TICKS_PER_PATROL_MOVE: nat := 20
  const TICKS_PER_CHARGE_MOVE: nat := 12
  /** How many cells away along a row or column the narwhal can see. */
  const DETECTION_RANGE: nat := 15

  function RequiredTicks(s: State): nat {
    if s == CHARGING then TICKS_PER_CHARGE_MOVE else TICKS_PER_PATROL_MOVE
  }

  function Min(a: int, b: int): int { if a <= b then a else b }

  function Max(a: int, b: int): int { if a <= b then b else a }

  /**
   * No wall lies strictly between from and to, along from's row (horizontal) or from's
   * column (vertical). Ice and every other cell kind leave the view open.
   */
  predicate ClearLine(b: Board, from: Position, to: Position, horizontal: bool)
    requires b.IsInside(from) && b.IsInside(to)
    reads b.cells
  {
    if horizontal then
      forall c :: Min(from.col, to.col) < c < Max(from.col, to.col) ==> !b.GetCellType(Position(from.row, c)).IsWall()
    else
      forall r :: Min(from.row, to.row) < r < Max(from.row, to.row) ==> !b.GetCellType(Position(r, from.col)).IsWall()
  }

  /** The narwhal at from sees a player at to: same row or same column, at most 15 cells away, no wall between. */
  predicate Sees(b: Board, from: Position, to: Position)
    requires b.IsInside(from) && b.IsInside(to)
    reads b.cells
  {
    || (from.row == to.row && Abs(from.col - to.col) <= DETECTION_RANGE && ClearLine(b, from, to, true))
    || (from.col == to.col && Abs(from.row - to.row) <= DETECTION_RANGE && ClearLine(b, from, to, false))
  }

  predicate AllInside(b: Board, players: seq<Player>)
    reads players
  {
    forall i :: 0 <= i < |players| ==> b.IsInside(players[i].position)
  }

  /** The index of the first player from index i on whom the narwhal at from has sight, if any. */
  function FirstSighted(b: Board, players: seq<Player>, from: Position, i: nat): (r: Option<nat>)
    requires b.IsInside(from) && AllInside(b, players) && i <= |players|
    reads b.cells, players
    ensures r.Some? ==> i <= r.value < |players| && Sees(b, from, players[r.value].position)
    ensures r.Some? ==> forall j :: i <= j < r.value ==> !Sees(b, from, players[j].position)
    ensures r.None? ==> forall j :: i <= j < |players| ==> !Sees(b, from, players[j].position)
    decreases |players| - i
  {
    if i == |players| then None
    else if Sees(b, from, players[i].position) then Some(i)
    else FirstSighted(b, players, from, i + 1)
  }

  /** The heading of a charge from `from` at a player at `to`: along the row when they share one, else along the column. */
  function FacingToward(from: Position, to: Position): Direction {
    if from.row == to.row then (if to.col > from.col then RIGHT else LEFT)
    else (if to.row > from.row then DOWN else UP)
  }

  /**
   * A charge heads straight at the player it was started for: one step in that heading
   * brings the narwhal one cell closer, unless it already stands on the player's cell.
   */
  lemma ChargeHeadsAtPlayer(b: Board, from: Position, to: Position)
    requires b.IsInside(from) && b.IsInside(to) && Sees(b, from, to) && from != to
    ensures FacingToward(from, to).IsCardinal()
    ensures Manhattan(from.Step(FacingToward(from, to)), to) + 1 == Manhattan(from, to)
  {
  }

  /** Sight goes both ways: the narwhal sees a player exactly when it would be seen from the player's cell. */
  lemma SightIsSymmetric(b: Board, p: Position, q: Position)
    requires b.IsInside(p) && b.IsInside(q)
    ensures Sees(b, p, q) <==> Sees(b, q, p)
  {
  }

  /** What a charge step into the cell ahead does. */
  datatype ChargeOutcome = LeaveBoard | SmashIce | Advance | Crash

  function ChargeOutcomeAt(b: Board, next: Position): ChargeOutcome
    reads b.cells
  {
    if !b.IsInside(next) then LeaveBoard
    else if b.GetCellType(next).IsIce() then SmashIce
    else if b.IsWalkable(next) then Advance
    else Crash
  }

  /**
   * A charge ends exactly when the cell ahead is off the board or is neither ice nor
   * walkable; a charge that goes on always enters the cell ahead.
   */
  lemma ChargeEndsIffBlocked(b: Board, next: Position)
    ensures ChargeOutcomeAt(b, next) in {LeaveBoard, Crash} <==>
      !b.IsWalkable(next) && !(b.IsInside(next) && b.GetCellType(next).IsIce())
  {
  }

  class NarvalMovement {
    var state: State
    var tickCounter: nat

    constructor ()
      ensures state == PATROL && tickCounter == 0
    {
      state := PATROL;
      tickCounter := 0;
    }

    /**
     * One game tick for the narwhal. It acts every 12 ticks while charging and every 20
     * while patrolling. A patrolling narwhal that sees a player (the first in list order)
     * turns to face it and starts charging. Then it takes a charge step or a patrol step.
     */
    method Move<B>(board: Board, players: seq<Player>, narwhal: Enemy<B>)
      requires board.IsInside(narwhal.position) && AllInside(board, players)
      modifies this, narwhal, board.cells
      ensures tickCounter == old(tickCounter) + 1
      ensures board.IsInside(narwhal.position)
      ensures tickCounter % RequiredTicks(old(state)) != 0 ==>
        && state == old(state) && unchanged(board.cells)
        && narwhal.position == old(narwhal.position) && narwhal.direction == old(narwhal.direction)
      ensures tickCounter % RequiredTicks(old(state)) == 0 ==>
        var sighted := old(FirstSighted(board, players, narwhal.position, 0));
        var charges := old(state) == CHARGING || sighted.Some?;
        var heading := if old(state) == PATROL && sighted.Some?
          then FacingToward(old(narwhal.position), old(players[sighted.value].position))
          else old(narwhal.direction);
        var next := old(narwhal.position).Step(heading);
        && (charges ==> narwhal.direction == heading && ChargeStepped(board, old(narwhal.position), next, old(ChargeOutcomeAt(board, next)), narwhal.position, state))
        && (!charges ==> state == PATROL && unchanged(board.cells) && PatrolStepped(old(narwhal.position), heading, old(board.IsWalkable(next)), narwhal.position, narwhal.direction))
    {
      tickCounter := tickCounter + 1;
      var requiredTicks := if state == CHARGING then TICKS_PER_CHARGE_MOVE else TICKS_PER_PATROL_MOVE;
      if tickCounter % requiredTicks != 0 {
        return;
      }
      var targetPlayer := DetectAlignedPlayer(board, players, narwhal.position);
      if targetPlayer != null && state == PATROL {
        StartCharging(narwhal, targetPlayer);
      }
      if state == CHARGING {
        ChargeMove(board, narwhal);
      } else {
        PatrolMove(board, narwhal);
      }
    }

    /** The first player, in list order, whom the narwhal at `from` sees; null if it sees none. */
    method DetectAlignedPlayer(board: Board, players: seq<Player>, from: Position) returns (target: Player?)
      requires board.IsInside(from) && AllInside(board, players)
      ensures var s := FirstSighted(board, players, from, 0);
        target == if s.Some? then players[s.value] else null
    {
      for i := 0 to |players|
        invariant FirstSighted(board, players, from, 0) == FirstSighted(board, players, from, i)
      {
        var player := players[i];
        var playerPos := player.position;
        if from.row == playerPos.row {
          var distance := Abs(from.col - playerPos.col);
          if distance <= DETECTION_RANGE {
            var clear := HasLineOfSight(board, from, playerPos, true);
            if clear {
              return player;
            }
          }
        }
        if from.col == playerPos.col {
          var distance := Abs(from.row - playerPos.row);
          if distance <= DETECTION_RANGE {
            var clear := HasLineOfSight(board, from, playerPos, false);
            if clear {
              return player;
            }
          }
        }
      }
      return null;
    }

    /** Scans the cells strictly between from and to for a wall. */
    method HasLineOfSight(board: Board, from: Position, to: Position, horizontal: bool) returns (clear: bool)
      requires board.IsInside(from) && board.IsInside(to)
      ensures clear == ClearLine(board, from, to, horizontal)
    {
      if horizontal {
        var row := from.row;
        var colStart := Min(from.col, to.col);
        var colEnd := Max(from.col, to.col);
        var col := colStart + 1;
        while col < colEnd
          invariant colStart < col <= colEnd || col == colStart + 1
          invariant forall c :: colStart < c < col ==> !board.GetCellType(Position(row, c)).IsWall()
        {
          var cell := board.GetCellType(Position(row, col));
          if cell == METALLIC_WALL || cell == RED_WALL || cell == YELLOW_WALL {
            return false;
          }
          col := col + 1;
        }
      } else {
        var col := from.col;
        var rowStart := Min(from.row, to.row);
        var rowEnd := Max(from.row, to.row);
        var row := rowStart + 1;
        while row < rowEnd
          invariant rowStart < row <= rowEnd || row == rowStart + 1
          invariant forall r :: rowStart < r < row ==> !board.GetCellType(Position(r, col)).IsWall()
        {
          var cell := board.GetCellType(Position(row, col));
          if cell == METALLIC_WALL || cell == RED_WALL || cell == YELLOW_WALL {
            return false;
          }
          row := row + 1;
        }
      }
      return true;
    }

    /** Switches to CHARGING and turns the narwhal to face the target. */
    method StartCharging<B>(narwhal: Enemy<B>, target: Player)
      modifies this`state, narwhal`direction
      ensures state == CHARGING && narwhal.direction == FacingToward(narwhal.position, target.position)
    {
      state := CHARGING;
      var narwhalPos := narwhal.position;
      var playerPos := target.position;
      if narwhalPos.row == playerPos.row {
        narwhal.direction := if playerPos.col > narwhalPos.col then RIGHT else LEFT;
      } else {
        narwhal.direction := if playerPos.row > narwhalPos.row then DOWN else UP;
      }
    }

    /** One charge step in the narwhal's heading, as ChargeOutcomeAt says. */
    method ChargeMove<B>(board: Board, narwhal: Enemy<B>)
      requires state == CHARGING
      modifies this`state, narwhal`position, board.cells
      ensures var next := old(narwhal.position).Step(narwhal.direction);
        ChargeStepped(board, old(narwhal.position), next, old(ChargeOutcomeAt(board, next)), narwhal.position, state)
    {
      var current := narwhal.position;
      var dir := narwhal.direction;
      var next := current.Translated(dir.DRow(), dir.DCol());
      if !board.IsInside(next) {
        state := PATROL;
        return;
      }
      var nextCell := board.GetCellType(next);
      if nextCell == ICE_BLOCK || nextCell == PLAYER_ICE {
        board.SetCellType(next, FLOOR);
        narwhal.position := next;
        return;
      }
      if board.IsWalkable(next) {
        narwhal.position := next;
      } else {
        state := PATROL;
      }
    }

    /** One patrol step: ahead if the cell ahead is walkable, else a half turn on the spot. */
    method PatrolMove<B>(board: Board, narwhal: Enemy<B>)
      modifies narwhal
      ensures PatrolStepped(old(narwhal.position), old(narwhal.direction),
        board.IsWalkable(old(narwhal.position).Step(old(narwhal.direction))), narwhal.position, narwhal.direction)
    {
      var current := narwhal.position;
      var dir := narwhal.direction;
      var next := current.Translated(dir.DRow(), dir.DCol());
      if board.IsInside(next) && board.IsWalkable(next) {
        narwhal.position := next;
      } else {
        narwhal.direction := dir.Opposite();
      }
    }
  }

  /**
   * The effect of a charge step from `from` towards `next`: leaving the board or crashing
   * ends the charge on the spot with the board unchanged; ice ahead becomes FLOOR and the
   * narwhal moves onto it, still charging; a walkable cell is simply entered.
   */
  twostate predicate ChargeStepped(board: Board, from: Position, next: Position, outcome: ChargeOutcome, pos: Position, s: State)
    reads board.cells
  {
    match outcome
    case LeaveBoard => s == PATROL && pos == from && unchanged(board.cells)
    case Crash => s == PATROL && pos == from && unchanged(board.cells)
    case SmashIce => s == CHARGING && pos == next && CellSetTo(board, next, FLOOR)
    case Advance => s == CHARGING && pos == next && unchanged(board.cells)
  }

  /** The effect of a patrol step: ahead when that cell was walkable, else the heading reverses. */
  predicate PatrolStepped(from: Position, heading: Direction, open: bool, pos: Position, dir: Direction) {
    if open then pos == from.Step(heading) && dir == heading
    else pos == from && dir == heading.Opposite()
  }
}
