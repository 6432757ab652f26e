/** The fixed geometry of the puzzle: a SIZE x SIZE grid stored row-major,
    six colours, and the cap on the length of a move list. */
module Grid {

  const MAX_MOVES: nat := 23
  const SIZE: nat := 12
  const COLOURS: nat := 6
  /** Number of cells on the board, SIZE * SIZE. */
  const CELLS: nat := SIZE * SIZE

  /** A colour is a `u8`. */
  type Colour = c: int | 0 <= c < 256

  /** Column and row of a cell index. */
  function Column(pos: nat): nat { pos % SIZE }
  function Row(pos: nat): nat { pos / SIZE }

  /** Row-major index of the cell in column x and row y. */
  function Coord(x: nat, y: nat): (pos: nat)
    ensures x < SIZE ==> Column(pos) == x && Row(pos) == y
    ensures x < SIZE && y < SIZE ==> pos < CELLS
  {
    x + SIZE * y
  }

  /** Coord inverts the split of an index into column and row. */
  lemma CoordOfColumnRow(pos: nat)
    ensures Coord(Column(pos), Row(pos)) == pos
    ensures pos < CELLS ==> Column(pos) < SIZE && Row(pos) < SIZE
  {
  }

  function Distance(a: nat, b: nat): nat { if a <= b then b - a else a - b }

  /** Two in-grid cells that share an edge: they differ by one in exactly
      one coordinate, so a cell at the end of a row is not next to the cell
      at the start of the following row. */
  predicate Adjacent(p: nat, q: nat) {
    p < CELLS && q < CELLS &&
    Distance(Column(p), Column(q)) + Distance(Row(p), Row(q)) == 1
  }

  /** The edge neighbours of an in-grid cell: the cells to its left, above,
      to its right and below, where those exist. */
  lemma NeighboursOf(pos: nat, q: nat)
    requires pos < CELLS
    ensures Adjacent(pos, q) <==>
      (Column(pos) > 0 && q == pos - 1) || (Row(pos) > 0 && q == pos - SIZE) ||
      (Column(pos) < SIZE - 1 && q == pos + 1) || (Row(pos) < SIZE - 1 && q == pos + SIZE)
  {
  }
}
