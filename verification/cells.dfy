/** One square of the Minesweeper grid (CellModel). */
module Cells {

  /** A cell record. `neighbors` holds the number of adjacent bombs, or the
      sentinel 9 when the cell is itself a bomb; `reward` marks the single
      square that grants an extra peek when it is revealed. */
  datatype Cell = Cell(
    row: int,
    column: int,
    visited: bool,
    bomb: bool,
    flagged: bool,
    neighbors: int,
    reward: bool)

  /** The sentinel count stored on bomb cells. */
  const BombSentinel: int := 9

  /** True of a cell whose play state is untouched: nothing revealed, armed,
      flagged, counted or rewarded. */
  predicate Pristine(c: Cell) {
    !c.visited && !c.bomb && !c.flagged && c.neighbors == 0 && !c.reward
  }

  /** The parameterless constructor: position unknown (-1, -1). */
  function DefaultCell(): (c: Cell)
    ensures c.row == -1 && c.column == -1
    ensures Pristine(c)
  {
    Cell(-1, -1, false, false, false, 0, false)
  }

  /** The positional constructor. */
  function NewCell(row: int, column: int): (c: Cell)
    ensures c.row == row && c.column == column
    ensures Pristine(c)
    ensures c == DefaultCell().(row := row, column := column)
  {
    Cell(row, column, false, false, false, 0, false)
  }
}
