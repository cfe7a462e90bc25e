/** Campfires (domain/entities/Campfire.java). */
module Campfires {
  import opened Positions
  import opened Cells
  import opened Boards

  /** Updates an extinguished campfire waits before it lights again. */
  const TICKS_TO_RELIGHT: nat := 600

  /** A campfire that kills a player on its cell while lit, and relights after a while. */
  class Campfire {
    const position: Position
    var isLit: bool
    var relightCounter: nat

    /** A lit fire has a zero counter; an unlit one counts below TICKS_TO_RELIGHT. */
    ghost predicate Valid()
      reads this`isLit, this`relightCounter
    {
      (isLit ==> relightCounter == 0) && relightCounter < TICKS_TO_RELIGHT
    }

    constructor (position: Position)
      ensures Valid() && this.position == position && isLit && relightCounter == 0
    {
      this.position := position;
      isLit := true;
      relightCounter := 0;
    }

    /** An unlit fire counts one update; on reaching TICKS_TO_RELIGHT it relights its cell. */
    method Update(board: Board)
      requires Valid() && board.IsInside(position)
      modifies this, board.cells
      ensures Valid()
      ensures old(isLit) ==> isLit && unchanged(board.cells)
      ensures !old(isLit) && old(relightCounter) + 1 < TICKS_TO_RELIGHT ==>
        !isLit && relightCounter == old(relightCounter) + 1 && unchanged(board.cells)
      ensures !old(isLit) && old(relightCounter) + 1 >= TICKS_TO_RELIGHT ==>
        isLit && relightCounter == 0 && CellSetTo(board, position, CAMPFIRE_ON)
    {
      if !isLit {
        relightCounter := relightCounter + 1;
        if relightCounter >= TICKS_TO_RELIGHT {
          Relight(board);
        }
      }
    }

    /** Puts a lit fire out and turns its cell into CAMPFIRE_OFF; an unlit fire is left as it is. */
    method Extinguish(board: Board)
      requires Valid() && board.IsInside(position)
      modifies this, board.cells
      ensures Valid() && !isLit
      ensures old(isLit) ==> relightCounter == 0 && CellSetTo(board, position, CAMPFIRE_OFF)
      ensures !old(isLit) ==> relightCounter == old(relightCounter) && unchanged(board.cells)
    {
      if !isLit {
        return;
      }
      isLit := false;
      relightCounter := 0;
      board.SetCellType(position, CAMPFIRE_OFF);
    }

    method Relight(board: Board)
      requires board.IsInside(position)
      modifies this, board.cells
      ensures Valid() && isLit && CellSetTo(board, position, CAMPFIRE_ON)
    {
      isLit := true;
      relightCounter := 0;
      board.SetCellType(position, CAMPFIRE_ON);
    }

    method Light(board: Board)
      requires board.IsInside(position)
      modifies this, board.cells
      ensures Valid() && isLit && CellSetTo(board, position, CAMPFIRE_ON)
    {
      Relight(board);
    }

    /** Updates left until the fire relights: 0 while lit. */
    function TicksUntilRelight(): (r: int)
      requires Valid()
      reads this
      ensures isLit ==> r == 0
      ensures !isLit ==> 0 < r <= TICKS_TO_RELIGHT && relightCounter + r == TICKS_TO_RELIGHT
    {
      if isLit then 0 else TICKS_TO_RELIGHT - relightCounter
    }

    /** Whole seconds left at 60 updates per second, rounded down. */
    function SecondsUntilRelight(): (r: int)
      requires Valid()
      reads this
      ensures 0 <= r <= TICKS_TO_RELIGHT / 60
      ensures r * 60 <= TicksUntilRelight() < (r + 1) * 60
    {
      TicksUntilRelight() / 60
    }
  }
}
