/**
 * Enemies (domain/entities/Enemy.java and its subclasses Troll, Maceta, Narval and OrangeSquid,
 * which differ only in the behaviour they are built with). The behaviour type is a parameter.
 */
module Enemies {
  import opened Positions
  import opened Directions
  import opened Wrappers

  class Enemy<B> {
    var position: Position
    var direction: Direction
    const movementBehavior: Option<B>

    constructor (position: Position, initialDirection: Direction, movementBehavior: Option<B>)
      ensures this.position == position && direction == initialDirection
      ensures this.movementBehavior == movementBehavior
    {
      this.position := position;
      direction := initialDirection;
      this.movementBehavior := movementBehavior;
    }
  }
}
