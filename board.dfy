/** The board: one colour per cell, row-major, fixed once constructed. */
module Boards {
  import opened Grid
  import opened Coverage

  datatype Board = Board(cells: seq<Colour>) {

    /** The right number of cells, each holding one of the COLOURS colours. */
    predicate Valid() {
      |cells| == CELLS && forall p :: 0 <= p < |cells| ==> cells[p] < COLOURS
    }

    /** The colour at column x and row y; on a valid board one of the
        COLOURS. */
    function Get(x: nat, y: nat): (c: Colour)
      requires |cells| == CELLS && Coord(x, y) < CELLS
      ensures Valid() ==> c < COLOURS
    {
      cells[Coord(x, y)]
    }

    /** The colour of cell `pos`; on a valid board one of the COLOURS, so
        it can index a table of COLOURS entries. */
    function GetRaw(pos: nat): (c: Colour)
      requires |cells| == CELLS && pos < CELLS
      ensures Valid() ==> c < COLOURS
      ensures Get(Column(pos), Row(pos)) == c
    {
      cells[pos]
    }
  }

  /** The distinct colours of the cells among the first `upTo` that the mask
      leaves uncovered. */
  ghost function UncoveredColoursBelow(board: Board, mask: Covered, upTo: nat): set<Colour>
    requires |board.cells| == CELLS && mask.Valid() && upTo <= CELLS
  {
    set p: nat | p < upTo && !mask.bits[p] :: board.cells[p]
  }

  /** The distinct colours of all cells the mask leaves uncovered. */
  ghost function UncoveredColours(board: Board, mask: Covered): set<Colour>
    requires |board.cells| == CELLS && mask.Valid()
  {
    UncoveredColoursBelow(board, mask, CELLS)
  }

  /** The cells below `upTo`, one more: its colour joins when it is
      uncovered. */
  lemma UncoveredStep(board: Board, mask: Covered, pos: nat)
    requires |board.cells| == CELLS && mask.Valid() && pos < CELLS
    ensures UncoveredColoursBelow(board, mask, pos + 1) ==
      UncoveredColoursBelow(board, mask, pos) + (if mask.bits[pos] then {} else {board.cells[pos]})
  {
  }

  /** A region leaves no colour uncovered exactly when it covers every
      cell. */
  lemma NoColourIffFull(board: Board, mask: Covered)
    requires |board.cells| == CELLS && mask.Valid()
    ensures UncoveredColours(board, mask) == {} <==> mask.Full()
  {
    if !mask.Full() {
      var p :| 0 <= p < CELLS && !mask.bits[p];
      assert board.cells[p] in UncoveredColours(board, mask);
    }
  }

  /** The colours below `upTo` that are marked in `seen`. */
  ghost function Marked(seen: seq<bool>, upTo: nat): (m: set<nat>)
    requires upTo <= |seen|
    ensures forall c: nat :: c in m <==> c < upTo && seen[c]
  {
    if upTo == 0 then {} else Marked(seen, upTo - 1) + (if seen[upTo - 1] then {upTo - 1} else {})
  }

  lemma MarkedStep(seen: seq<bool>, colour: nat)
    requires colour < |seen|
    ensures |Marked(seen, colour + 1)| == |Marked(seen, colour)| + (if seen[colour] then 1 else 0)
  {
    assert colour !in Marked(seen, colour);
  }

  /** Marks that record exactly the uncovered colours. */
  lemma MarkedUncovered(board: Board, mask: Covered, seen: seq<bool>)
    requires board.Valid() && mask.Valid() && |seen| == COLOURS
    requires forall c :: 0 <= c < COLOURS ==> (seen[c] <==> c in UncoveredColoursBelow(board, mask, CELLS))
    ensures UncoveredColours(board, mask) == Marked(seen, COLOURS)
  {
    forall c | c in UncoveredColours(board, mask) ensures c < COLOURS {
      var p: nat :| p < CELLS && !mask.bits[p] && board.cells[p] == c;
    }
  }

  /** Counts the distinct colours among the uncovered cells: first marks each
      such colour as seen, then counts the marks. */
  method RemainingColours(board: Board, mask: Covered) returns (count: nat)
    requires board.Valid() && mask.Valid()
    ensures count == |UncoveredColours(board, mask)|
    ensures count <= COLOURS
    ensures count == 0 <==> mask.Full()
  {
    var seen := new bool[COLOURS](_ => false);
    for pos := 0 to CELLS
      invariant forall c :: 0 <= c < COLOURS ==>
        (seen[c] <==> c in UncoveredColoursBelow(board, mask, pos))
    {
      UncoveredStep(board, mask, pos);
      if mask.GetRaw(pos) {
        continue;
      }
      seen[board.GetRaw(pos)] := true;
    }

    ghost var marks := seen[..];
    assert forall c :: 0 <= c < COLOURS ==> (marks[c] <==> c in UncoveredColoursBelow(board, mask, CELLS));
    count := 0;
    for colour := 0 to COLOURS
      invariant seen[..] == marks
      invariant count == |Marked(marks, colour)| && count <= colour
    {
      MarkedStep(marks, colour);
      if seen[colour] {
        count := count + 1;
      }
    }
    MarkedUncovered(board, mask, marks);
    NoColourIffFull(board, mask);
  }
}
