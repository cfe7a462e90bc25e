/** Grid coordinates (domain/model/Position.java). */
module Positions {
  import opened Directions

  /** A (row, column) pair; the game never changes a position object after creating it. */
  datatype Position = Position(row: int, col: int) {

    /** The position offset by (dRow, dCol); the original is left as it was. */
    function Translated(dRow: int, dCol: int): Position {
      Position(row + dRow, col + dCol)
    }

    /** The neighbouring position one step in direction d. */
    function Step(d: Direction): Position {
      Translated(d.DRow(), d.DCol())
    }

    function WithRow(r: int): Position { this.(row := r) }

    function WithCol(c: int): Position { this.(col := c) }
  }

  function Abs(x: int): nat { if x < 0 then -x else x }

  /** Manhattan distance, used by every chasing, fleeing and targeting rule. */
  function Manhattan(a: Position, b: Position): nat {
    Abs(a.row - b.row) + Abs(a.col - b.col)
  }

  /** Translations compose by adding their offsets, and the zero offset changes nothing. */
  lemma TranslatedComposes(p: Position, r1: int, c1: int, r2: int, c2: int)
    ensures p.Translated(r1, c1).Translated(r2, c2) == p.Translated(r1 + r2, c1 + c2)
    ensures p.Translated(0, 0) == p
  {
  }

  /** A step and the step back return to the start; NONE does not move. */
  lemma StepOppositeReturns(p: Position, d: Direction)
    ensures p.Step(d).Step(d.Opposite()) == p
    ensures p.Step(NONE) == p
  {
  }

  /** The setters change one coordinate and keep the other. */
  lemma SettersChangeOneCoordinate(p: Position, r: int, c: int)
    ensures p.WithRow(r).row == r && p.WithRow(r).col == p.col
    ensures p.WithCol(c).col == c && p.WithCol(c).row == p.row
  {
  }

  /** A cardinal step changes the distance to any target by exactly one. */
  lemma StepChangesDistanceByOne(p: Position, d: Direction, g: Position)
    requires d.IsCardinal()
    ensures Manhattan(p.Step(d), g) == Manhattan(p, g) + 1 || Manhattan(p.Step(d), g) + 1 == Manhattan(p, g)
  {
  }

  /** Distance is zero exactly at the target itself. */
  lemma ManhattanZero(a: Position, b: Position)
    ensures Manhattan(a, b) == 0 <==> a == b
    ensures Manhattan(a, b) == Manhattan(b, a)
  {
  }
}
