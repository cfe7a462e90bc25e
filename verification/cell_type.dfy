/** Kinds of board cell (domain/model/CellType.java). */
module Cells {

  datatype CellType =
    | EMPTY | PILE_SNOW | METALLIC_WALL | RED_WALL | YELLOW_WALL | ICE_BLOCK
    | IGLOO_AREA | FLOOR | HOT_TILE | PLAYER_ICE | CAMPFIRE_ON | CAMPFIRE_OFF
  {
    /** Whether a player, an enemy or a fruit may stand on the cell. */
    predicate IsTraversable() {
      this in {EMPTY, PILE_SNOW, FLOOR, HOT_TILE, CAMPFIRE_OFF}
    }

    /** The two kinds of ice that the squid and the narwhal can break. */
    predicate IsIce() { this == ICE_BLOCK || this == PLAYER_ICE }

    /** The three wall kinds that block a narwhal's line of sight. */
    predicate IsWall() { this == METALLIC_WALL || this == RED_WALL || this == YELLOW_WALL }
  }

  /** Walls, ice, the igloo and a lit campfire block movement; the other five kinds do not. */
  lemma BlockingCells(t: CellType)
    ensures !t.IsTraversable() <==> t in {METALLIC_WALL, RED_WALL, YELLOW_WALL, ICE_BLOCK, IGLOO_AREA, PLAYER_ICE, CAMPFIRE_ON}
    ensures t.IsIce() ==> !t.IsTraversable()
    ensures t.IsWall() ==> !t.IsTraversable()
  {
  }
}
