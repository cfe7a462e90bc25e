/**
 * The troll's behaviour (domain/behavior/TrollTurnRightMovement.java): every 23 ticks it
 * steps ahead, turning right as often as needed (at most four tries) to find a walkable cell.
 */
module TrollTurnRight {
  import opened Directions
  import opened Positions
  import opened Boards
  import opened Enemies
  import opened Wrappers

  const TICKS_PER_MOVE: nat := 23

  /** d after k quarter turns to the right. */
  function Turned(d: Direction, k: nat): Direction
    decreases k
  {
    if k == 0 then d else Turned(d.TurnRight(), k - 1)
  }

  /**
   * The direction the troll leaves in, trying d and then up to tries - 1 right turns of it:
   * the first of them whose neighbouring cell is walkable, or None.
   */
  function TurnAttempt(b: Board, pos: Position, d: Direction, tries: nat): Option<Direction>
    reads b.cells
    decreases tries
  {
    if tries == 0 then None
    else if b.IsWalkable(pos.Step(d)) then Some(d)
    else TurnAttempt(b, pos, d.TurnRight(), tries - 1)
  }

  /** Turn k of d leads to a walkable cell and every earlier turn is blocked. */
  predicate FirstOpenTurn(b: Board, pos: Position, d: Direction, k: nat)
    reads b.cells
  {
    b.IsWalkable(pos.Step(Turned(d, k))) && forall j: nat :: j < k ==> !b.IsWalkable(pos.Step(Turned(d, j)))
  }

  /**
   * TurnAttempt picks the first of the turns of d that leads to a walkable cell: None only
   * when every one of the tries is blocked, and otherwise the first walkable turn (so the
   * two answers are exclusive and exhaustive).
   */
  lemma {:induction false} TurnAttemptFirstOpen(b: Board, pos: Position, d: Direction, tries: nat)
    ensures TurnAttempt(b, pos, d, tries).None? ==>
      forall k: nat :: k < tries ==> !b.IsWalkable(pos.Step(Turned(d, k)))
    ensures TurnAttempt(b, pos, d, tries).Some? ==>
      exists k: nat :: k < tries && TurnAttempt(b, pos, d, tries).value == Turned(d, k) && FirstOpenTurn(b, pos, d, k)
    decreases tries
  {
    if tries == 0 {
    } else if b.IsWalkable(pos.Step(d)) {
      assert Turned(d, 0) == d;
      assert FirstOpenTurn(b, pos, d, 0);
    } else {
      var e := d.TurnRight();
      TurnAttemptFirstOpen(b, pos, e, tries - 1);
      var r := TurnAttempt(b, pos, e, tries - 1);
      assert TurnAttempt(b, pos, d, tries) == r;
      if r.None? {
        forall k: nat | k < tries
          ensures !b.IsWalkable(pos.Step(Turned(d, k)))
        {
          if k > 0 {
            assert Turned(d, k) == Turned(e, k - 1);
          }
        }
      } else {
        var k': nat :| k' < tries - 1 && r.value == Turned(e, k') && FirstOpenTurn(b, pos, e, k');
        assert Turned(d, k' + 1) == Turned(e, k');
        forall j: nat | j < k' + 1
          ensures !b.IsWalkable(pos.Step(Turned(d, j)))
        {
          if j > 0 {
            assert Turned(d, j) == Turned(e, j - 1);
          }
        }
        assert FirstOpenTurn(b, pos, d, k' + 1);
      }
    }
  }

  /** The four right turns of a compass direction are the four compass directions. */
  lemma TurnsCoverCardinals(d: Direction, e: Direction)
    requires d.IsCardinal() && e.IsCardinal()
    ensures exists k :: 0 <= k < 4 && Turned(d, k) == e
  {
    assert Turned(d, 0) == d;
    assert Turned(d, 1) == d.TurnRight();
    assert Turned(d, 2) == d.TurnRight().TurnRight();
    assert Turned(d, 3) == d.TurnRight().TurnRight().TurnRight();
  }

  /** Turning keeps a compass direction a compass direction. */
  lemma {:induction false} TurnedIsCardinal(d: Direction, k: nat)
    requires d.IsCardinal()
    ensures Turned(d, k).IsCardinal()
    decreases k
  {
    if k > 0 {
      TurnedIsCardinal(d.TurnRight(), k - 1);
    }
  }

  /**
   * A troll heading in a compass direction stays where it is exactly when all four
   * neighbouring cells are blocked.
   */
  lemma StuckIffBoxedIn(b: Board, pos: Position, d: Direction)
    requires d.IsCardinal()
    ensures TurnAttempt(b, pos, d, 4).None? <==> forall e: Direction :: e.IsCardinal() ==> !b.IsWalkable(pos.Step(e))
  {
    TurnAttemptFirstOpen(b, pos, d, 4);
    if TurnAttempt(b, pos, d, 4).None? {
      forall e: Direction | e.IsCardinal()
        ensures !b.IsWalkable(pos.Step(e))
      {
        TurnsCoverCardinals(d, e);
      }
    } else {
      var k: nat :| k < 4 && TurnAttempt(b, pos, d, 4).value == Turned(d, k) && FirstOpenTurn(b, pos, d, k);
      TurnedIsCardinal(d, k);
    }
  }

  class TrollTurnRightMovement {
    var tickCounter: nat

    constructor ()
      ensures tickCounter == 0
    {
      tickCounter := 0;
    }

    /**
     * One game tick for the troll. On every 23rd call it leaves in the first walkable
     * direction among its heading and its right turns (TurnAttempt with four tries),
     * taking that direction as its new heading; with all four blocked it stays put.
     */
    method Move<B>(board: Board, enemy: Enemy<B>)
      modifies this, enemy
      ensures tickCounter == old(tickCounter) + 1
      ensures board.IsInside(old(enemy.position)) ==> board.IsInside(enemy.position)
      ensures var r := TurnAttempt(board, old(enemy.position), old(enemy.direction), 4);
        if tickCounter % TICKS_PER_MOVE == 0 && r.Some? then
          enemy.position == old(enemy.position).Step(r.value) && enemy.direction == r.value
        else
          enemy.position == old(enemy.position) && enemy.direction == old(enemy.direction)
    {
      tickCounter := tickCounter + 1;
      if tickCounter % TICKS_PER_MOVE != 0 {
        return;
      }
      ghost var p0, d0 := enemy.position, enemy.direction;
      var dirPrueba := enemy.direction;
      for i := 0 to 4
        invariant enemy.position == p0 && enemy.direction == d0
        invariant TurnAttempt(board, p0, d0, 4) == TurnAttempt(board, p0, dirPrueba, 4 - i)
      {
        var current := enemy.position;
        var next := current.Translated(dirPrueba.DRow(), dirPrueba.DCol());
        if board.IsWalkable(next) {
          enemy.position := next;
          enemy.direction := dirPrueba;
          return;
        } else {
          dirPrueba := dirPrueba.TurnRight();
        }
      }
    }
  }
}
