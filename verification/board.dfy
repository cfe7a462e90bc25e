/** The rectangular grid of cells (domain/model/Board.java). */
module Boards {
  import opened Positions
  import opened Cells
  import opened Directions

  /** The cell a new board holds at (r, c): walls round the edge, EMPTY inside. */
  function InitialCell(rows: nat, cols: nat, r: int, c: int): CellType {
    if r == 0 || c == 0 || r == rows - 1 || c == cols - 1 then METALLIC_WALL else EMPTY
  }

  /** A grid of cells updated in place; its size is fixed when it is created. */
  class Board {
    const cells: array2<CellType>

    function Rows(): nat { cells.Length0 }

    function Cols(): nat { cells.Length1 }

    constructor (rows: nat, cols: nat)
      ensures Rows() == rows && Cols() == cols
      ensures fresh(cells)
      ensures forall r, c :: 0 <= r < rows && 0 <= c < cols ==> cells[r, c] == InitialCell(rows, cols, r, c)
    {
      cells := new CellType[rows, cols];
      new;
      InitEmptyWithBorders();
    }

    /** Writes the initial layout into every cell, row by row. */
    method InitEmptyWithBorders()
      modifies cells
      ensures forall r, c :: 0 <= r < Rows() && 0 <= c < Cols() ==> cells[r, c] == InitialCell(Rows(), Cols(), r, c)
    {
      var r := 0;
      while r < Rows()
        invariant 0 <= r <= Rows()
        invariant forall i, j :: 0 <= i < r && 0 <= j < Cols() ==> cells[i, j] == InitialCell(Rows(), Cols(), i, j)
      {
        var c := 0;
        while c < Cols()
          invariant 0 <= c <= Cols()
          invariant forall i, j :: 0 <= i < r && 0 <= j < Cols() ==> cells[i, j] == InitialCell(Rows(), Cols(), i, j)
          invariant forall j :: 0 <= j < c ==> cells[r, j] == InitialCell(Rows(), Cols(), r, j)
        {
          if r == 0 || c == 0 || r == Rows() - 1 || c == Cols() - 1 {
            cells[r, c] := METALLIC_WALL;
          } else {
            cells[r, c] := EMPTY;
          }
          c := c + 1;
        }
        r := r + 1;
      }
    }

    predicate IsInside(p: Position) {
      0 <= p.row < Rows() && 0 <= p.col < Cols()
    }

    function GetCellType(p: Position): CellType
      requires IsInside(p)
      reads cells
    {
      cells[p.row, p.col]
    }

    /** Overwrites one cell; every other cell keeps its type. */
    method SetCellType(p: Position, t: CellType)
      requires IsInside(p)
      modifies cells
      ensures CellSetTo(this, p, t)
    {
      cells[p.row, p.col] := t;
    }

    /** Inside the board and on a traversable cell. */
    predicate IsWalkable(p: Position)
      reads cells
    {
      IsInside(p) && GetCellType(p).IsTraversable()
    }
  }

  /** The board after overwriting the cell at p with t: that cell holds t, every other is unchanged. */
  twostate predicate CellSetTo(board: Board, p: Position, t: CellType)
    reads board.cells
  {
    board.IsInside(p) && board.GetCellType(p) == t &&
    forall r, c :: 0 <= r < board.Rows() && 0 <= c < board.Cols() && (r, c) != (p.row, p.col) ==>
      board.cells[r, c] == old(board.cells[r, c])
  }

  /** A new board is fenced: every border cell is a metallic wall and cannot be entered. */
  lemma InitialBorderIsWall(rows: nat, cols: nat, r: int, c: int)
    requires 0 <= r < rows && 0 <= c < cols
    ensures (r == 0 || c == 0 || r == rows - 1 || c == cols - 1) <==> !InitialCell(rows, cols, r, c).IsTraversable()
  {
  }

  /** Nothing outside the board is walkable, whatever the cells hold. */
  lemma OutsideNotWalkable(b: Board, p: Position)
    requires !b.IsInside(p)
    ensures !b.IsWalkable(p)
  {
  }

  /** A cardinal step from an inside cell that stays inside lands on one of the cells beside it. */
  lemma StepFromInsideIsAdjacent(b: Board, p: Position, d: Direction)
    requires b.IsInside(p) && d.IsCardinal()
    ensures Manhattan(p, p.Step(d)) == 1
  {
  }
}
