/**
 * The cherry's behaviour (domain/behavior/CherryMovement.java): it stays still for 1200
 * updates (20 seconds at 60 updates per second) and then teleports to a random walkable cell
 * of the board's interior.
 */
module Cherry {
  import opened Positions
  import opened Boards
  import opened Fruits

  const TICKS_PER_TELEPORT: nat := 1200

  /** The walkable cells of row r with columns in [lo, hi), left to right. */
  function FreeInRow(b: Board, r: int, lo: int, hi: int): seq<Position>
    reads b.cells
    decreases hi - lo
  {
    if hi <= lo then [] else
      FreeInRow(b, r, lo, hi - 1) + (if b.IsWalkable(Position(r, hi - 1)) then [Position(r, hi - 1)] else [])
  }

  /** The walkable interior cells of rows [lo, hi), row by row. */
  function FreeInRows(b: Board, lo: int, hi: int): seq<Position>
    reads b.cells
    decreases hi - lo
  {
    if hi <= lo then [] else FreeInRows(b, lo, hi - 1) + FreeInRow(b, hi - 1, 1, b.Cols() - 1)
  }

  /** The cells a cherry may teleport to: the walkable cells off the border, in row-major order. */
  function FreePositions(b: Board): seq<Position>
    reads b.cells
  {
    FreeInRows(b, 1, b.Rows() - 1)
  }

  /** A cell is off the board's border ring. */
  predicate Interior(b: Board, p: Position) {
    1 <= p.row < b.Rows() - 1 && 1 <= p.col < b.Cols() - 1
  }

  lemma {:induction false} FreeInRowMembers(b: Board, r: int, lo: int, hi: int, p: Position)
    ensures p in FreeInRow(b, r, lo, hi) <==> p.row == r && lo <= p.col < hi && b.IsWalkable(p)
    decreases hi - lo
  {
    if hi > lo {
      FreeInRowMembers(b, r, lo, hi - 1, p);
    }
  }

  lemma {:induction false} FreeInRowsMembers(b: Board, lo: int, hi: int, p: Position)
    ensures p in FreeInRows(b, lo, hi) <==> lo <= p.row < hi && 1 <= p.col < b.Cols() - 1 && b.IsWalkable(p)
    decreases hi - lo
  {
    if hi > lo {
      FreeInRowsMembers(b, lo, hi - 1, p);
      FreeInRowMembers(b, hi - 1, 1, b.Cols() - 1, p);
    }
  }

  /** The teleport candidates are exactly the walkable cells off the border. */
  lemma FreePositionsExact(b: Board, p: Position)
    ensures p in FreePositions(b) <==> Interior(b, p) && b.IsWalkable(p)
  {
    FreeInRowsMembers(b, 1, b.Rows() - 1, p);
  }

  /** The counter after one update: it climbs and wraps to 0 on reaching 1200. */
  function CounterStep(c: nat): nat {
    if c + 1 >= TICKS_PER_TELEPORT then 0 else c + 1
  }

  function CounterAfter(c: nat, n: nat): nat
    decreases n
  {
    if n == 0 then c else CounterAfter(CounterStep(c), n - 1)
  }

  lemma {:induction false} CounterClimbs(c: nat, n: nat)
    requires c + n < TICKS_PER_TELEPORT
    ensures CounterAfter(c, n) == c + n
    decreases n
  {
    if n > 0 {
      CounterClimbs(c + 1, n - 1);
    }
  }

  /**
   * From a fresh counter the cherry does not teleport in its first 1199 updates and does on
   * the 1200th, which starts the count again: it teleports once every 1200 updates.
   */
  lemma TeleportPeriod()
    ensures forall n :: 0 <= n < TICKS_PER_TELEPORT - 1 ==> CounterStep(CounterAfter(0, n)) != 0
    ensures CounterAfter(0, TICKS_PER_TELEPORT) == 0
  {
    forall n | 0 <= n < TICKS_PER_TELEPORT - 1
      ensures CounterStep(CounterAfter(0, n)) != 0
    {
      CounterClimbs(0, n);
    }
    CounterClimbs(0, TICKS_PER_TELEPORT - 1);
    CounterSplit(0, TICKS_PER_TELEPORT - 1);
  }

  lemma {:induction false} CounterSplit(c: nat, n: nat)
    ensures CounterAfter(c, n + 1) == CounterStep(CounterAfter(c, n))
    decreases n
  {
    if n > 0 {
      CounterSplit(CounterStep(c), n - 1);
    }
  }

  class CherryMovement {
    var tickCounter: nat

    predicate Valid()
      reads this
    {
      tickCounter < TICKS_PER_TELEPORT
    }

    constructor ()
      ensures Valid() && tickCounter == 0
    {
      tickCounter := 0;
    }

    /**
     * One update: the counter follows CounterStep, and when it wraps the cherry teleports to
     * the candidate the drawn index selects (it stays put if there is none).
     */
    method Update<B>(board: Board, cherry: Fruit<B>, pick: nat)
      requires Valid()
      modifies this, cherry`position
      ensures Valid() && tickCounter == CounterStep(old(tickCounter))
      ensures tickCounter != 0 ==> cherry.position == old(cherry.position)
      ensures tickCounter == 0 ==> Teleported(board, old(cherry.position), pick, cherry.position)
    {
      tickCounter := tickCounter + 1;
      if tickCounter >= TICKS_PER_TELEPORT {
        TeleportToRandomPosition(board, cherry, pick);
        tickCounter := 0;
      }
    }

    method TeleportToRandomPosition<B>(board: Board, fruit: Fruit<B>, pick: nat)
      modifies fruit`position
      ensures Teleported(board, old(fruit.position), pick, fruit.position)
    {
      var freePositions := FindAllFreePositions(board);
      if |freePositions| == 0 {
        return;
      }
      fruit.position := freePositions[pick % |freePositions|];
    }

    /** Scans the interior row by row, left to right, collecting the walkable cells. */
    method FindAllFreePositions(board: Board) returns (freePositions: seq<Position>)
      ensures freePositions == FreePositions(board)
    {
      freePositions := [];
      var row := 1;
      while row < board.Rows() - 1
        invariant 1 <= row <= board.Rows() - 1 || (row == 1 && board.Rows() <= 2)
        invariant freePositions == FreeInRows(board, 1, row)
      {
        var col := 1;
        while col < board.Cols() - 1
          invariant 1 <= col <= board.Cols() - 1 || (col == 1 && board.Cols() <= 2)
          invariant freePositions == FreeInRows(board, 1, row) + FreeInRow(board, row, 1, col)
        {
          var pos := Position(row, col);
          if board.IsWalkable(pos) {
            freePositions := freePositions + [pos];
          }
          col := col + 1;
        }
        row := row + 1;
      }
    }

    /** Updates left until the next teleport. */
    function GetTicksUntilTeleport(): (r: int)
      requires Valid()
      reads this
      ensures 0 < r <= TICKS_PER_TELEPORT && tickCounter + r == TICKS_PER_TELEPORT
    {
      TICKS_PER_TELEPORT - tickCounter
    }

    /** Whole seconds left until the next teleport, at 60 updates per second, rounded down. */
    function GetSecondsUntilTeleport(): (r: int)
      requires Valid()
      reads this
      ensures 0 <= r <= TICKS_PER_TELEPORT / 60
      ensures r * 60 <= GetTicksUntilTeleport() < (r + 1) * 60
    {
      (TICKS_PER_TELEPORT - tickCounter) / 60
    }
  }

  /**
   * Where a teleport from `from` ends: the candidate the drawn index selects, modulo the
   * number of candidates, or `from` when there are none.
   */
  predicate Teleported(b: Board, from: Position, pick: nat, pos: Position)
    reads b.cells
  {
    var free := FreePositions(b);
    if |free| == 0 then pos == from else pos == free[pick % |free|]
  }

  /**
   * A teleport always lands on a walkable cell off the border, unless no such cell exists,
   * in which case the cherry stays where it was.
   */
  lemma TeleportLandsOnFreeCell(b: Board, from: Position, pick: nat, pos: Position)
    requires Teleported(b, from, pick, pos)
    ensures pos == from || (Interior(b, pos) && b.IsWalkable(pos))
    ensures (exists q :: Interior(b, q) && b.IsWalkable(q)) ==> Interior(b, pos) && b.IsWalkable(pos)
  {
    var free := FreePositions(b);
    if |free| > 0 {
      FreePositionsExact(b, pos);
    } else {
      forall q | Interior(b, q) && b.IsWalkable(q)
        ensures false
      {
        FreePositionsExact(b, q);
      }
    }
  }
}
