/** Directions of movement on the grid (domain/utils/Direction.java). */
module Directions {

  /** The four compass directions and NONE; rows grow downwards, columns to the right. */
  datatype Direction = UP | DOWN | RIGHT | LEFT | NONE {

    /** Row offset of one step in this direction. */
    function DRow(): int {
      match this
      case UP => -1
      case DOWN => 1
      case _ => 0
    }

    /** Column offset of one step in this direction. */
    function DCol(): int {
      match this
      case RIGHT => 1
      case LEFT => -1
      case _ => 0
    }

    predicate IsCardinal() { this != NONE }

    /** Quarter turn clockwise; NONE stays NONE. */
    function TurnRight(): (r: Direction)
      ensures r.DRow() == DCol() && r.DCol() == -DRow()
      ensures r.IsCardinal() == IsCardinal()
    {
      match this
      case UP => RIGHT
      case RIGHT => DOWN
      case DOWN => LEFT
      case LEFT => UP
      case NONE => NONE
    }

    /** Half turn; NONE stays NONE. */
    function Opposite(): (r: Direction)
      ensures r.DRow() == -DRow() && r.DCol() == -DCol()
      ensures r.IsCardinal() == IsCardinal()
    {
      match this
      case UP => DOWN
      case DOWN => UP
      case LEFT => RIGHT
      case RIGHT => LEFT
      case NONE => NONE
    }

    /** True for UP and DOWN. */
    predicate IsVertical() { this == UP || this == DOWN }

    /** True for LEFT and RIGHT. */
    predicate IsHorizontal() { this == LEFT || this == RIGHT }
  }

  /** The order in which every search and every greedy choice of the game tries directions. */
  const CARDINALS: seq<Direction> := [UP, DOWN, LEFT, RIGHT]

  /** A direction is determined by its step vector. */
  lemma VectorDetermines(d: Direction, e: Direction)
    requires d.DRow() == e.DRow() && d.DCol() == e.DCol()
    ensures d == e
  {
  }

  /** A cardinal direction moves by exactly one cell along exactly one axis. */
  lemma CardinalIsUnitStep(d: Direction)
    ensures d.IsCardinal() <==> (d.DRow() == 0) != (d.DCol() == 0)
    ensures d.IsCardinal() ==> d.DRow() * d.DRow() + d.DCol() * d.DCol() == 1
  {
  }

  /** CARDINALS lists every direction but NONE, once each. */
  lemma CardinalsComplete(d: Direction)
    ensures d.IsCardinal() <==> d in CARDINALS
  {
  }

  /** Four quarter turns come back to the start. */
  lemma FourTurnsIdentity(d: Direction)
    ensures d.TurnRight().TurnRight().TurnRight().TurnRight() == d
  {
    VectorDetermines(d.TurnRight().TurnRight().TurnRight().TurnRight(), d);
  }

  /** Two quarter turns make a half turn. */
  lemma TwoTurnsAreOpposite(d: Direction)
    ensures d.TurnRight().TurnRight() == d.Opposite()
  {
    VectorDetermines(d.TurnRight().TurnRight(), d.Opposite());
  }

  /** The opposite of the opposite is the direction itself. */
  lemma OppositeInvolution(d: Direction)
    ensures d.Opposite().Opposite() == d
  {
    VectorDetermines(d.Opposite().Opposite(), d);
  }

  /** A half turn keeps the axis of movement. */
  lemma OppositeKeepsAxis(d: Direction)
    ensures d.Opposite().IsVertical() == d.IsVertical()
    ensures d.Opposite().IsHorizontal() == d.IsHorizontal()
  {
  }
}
