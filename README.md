# colourgame: a verified model of a flood-it solver

The program solves a 12 x 12 flood-it puzzle with six colours. The
region starts as the origin cell (column 0, row 0) and grows, one move at
a time, by flooding it with a colour. Flooding absorbs every cell of that
colour that an edge path of such cells connects to the region. The
solver runs a best-first branch-and-bound search. It always takes a
state of highest covered-cell count. It drops a state when its move
count plus the number of distinct colours still uncovered cannot beat the
best solution so far. It reports each solution shorter than the last.

The model has one module per part of the program:

- `Grid`: the constants, the row-major cell index `coord`, and cell
  adjacency.
- `Coverage`: the coverage mask `Covered`, with one bit per cell, plus
  `new`, `get_raw`, `set_raw` and `score`.
- `Boards`: the board, with `get`, `get_raw` and `remaining_colours`.
- `Flooding`: the flood fill. `Flood` is the reference definition: the
  least superset of a region that is closed under absorbing neighbours of
  the colour. Also here are `push_adjacents_raw`, `fill2` and
  `expand_coverage`, each proved against that definition.
- `Moves`: the fixed-capacity move list `TinyVec`.
- `States`: the search state, and its ordering by score alone. The
  `BinaryHeap` is modelled as a sequence read as a multiset. `Pop`
  returns some element of highest score.
- `Play`: what a sequence of moves does (`Apply`), plus two facts the
  search relies on:
  - each move removes at most one uncovered colour, so the prune is sound;
  - an optimal solution can always start with a colour that grows the
    region and differs from the previous move, so `step` can skip every
    other colour.
- `Search`: `step` and `walk`.

`walk` is proved to do four things:

- report only real solutions, each starting with the colour of the origin
  cell;
- report them in strictly falling length;
- never push onto a full move list;
- terminate.

It is also proved optimal: when a solution of length `n` below
`MAX_MOVES` exists, the last report is no longer than `n`.

The solver's output lines (`complete`) are modelled as the returned
sequence of `Report` values. Each holds the solution's length, its
moves, and the number of states still queued.

## Model

| member | source | states |
|---|---|---|
| Grid.Coord | src/main.rs:169-171 | the index of column x and row y has column x and row y again, and lies on the board when x and y are below SIZE |
| Grid.CoordOfColumnRow | src/main.rs:177-178 | splitting an index into `pos % SIZE` and `pos / SIZE` and recombining with `coord` gives the index back; an on-board index has both parts below SIZE |
| Grid.NeighboursOf | src/main.rs:180-206 | a cell's edge neighbours are exactly the four cells the guarded branches build: left if not in the first column, up if not in the first row, right if not in the last column, down if not in the last row; nothing wraps across a row end |
| Coverage.CountTrueIsCardinality | src/main.rs:130-132 | the number of set bits equals the number of covered cells |
| Coverage.Covered.GetRaw | src/main.rs:112-117 | the bit of `pos` is set exactly when the cell is in the region |
| Coverage.Covered.SetRaw | src/main.rs:123-128 | after setting `pos`, that bit is set, every other bit is unchanged, the covered set gains exactly `pos`, and the score grows by one unless `pos` was already covered |
| Coverage.Covered.Score | src/main.rs:130-132 | the score is the number of covered cells, at most CELLS, and equals CELLS exactly when every cell is covered |
| Coverage.New | src/main.rs:101-106 | the new mask covers the origin cell and nothing else, with score 1 |
| Coverage.ScoreGrows | src/main.rs:218 | a superset of a mask has at least its score, and strictly more when it differs |
| Boards.Board.Get | src/main.rs:67-69 | on a valid board, the colour at column x and row y is one of the COLOURS, so the root move `walk` takes is a real colour |
| Boards.Board.GetRaw | src/main.rs:71-73 | reads the cell at `pos`; this agrees with `get` on that cell's column and row and, on a valid board, is below COLOURS, so it can index the `seen` table |
| Boards.UncoveredStep | src/main.rs:81-86 | one more scanned cell adds its colour to the uncovered colours seen exactly when its mask bit is clear |
| Boards.NoColourIffFull | src/main.rs:79-97 | no uncovered colour remains exactly when the mask covers every cell |
| Boards.RemainingColours | src/main.rs:79-97 | the count is the number of distinct colours among the uncovered cells; it is at most COLOURS, and it is zero exactly when the mask is full |
| Flooding.Flood | src/main.rs:141-167 | the flooded region contains the old one, every added cell has the flood colour, and no cell of that colour next to the region is left out |
| Flooding.FloodLeast | src/main.rs:141-167 | the flood lies inside every closed region that contains the start region, so it absorbs nothing beyond what connects through cells of the colour |
| Flooding.FloodUnchangedIffClosed | src/main.rs:135-139 | flooding leaves a region unchanged exactly when it is already closed under the colour |
| Flooding.FullIsClosed | src/main.rs:135-139 | flooding a full region changes nothing |
| Flooding.SortedDistinct | src/main.rs:152-153 | sorting and removing adjacent duplicates gives a strictly ascending list with the same members |
| Flooding.PushAdjacentsRaw | src/main.rs:173-207 | the list gains at its end exactly the edge neighbours of `pos` that `skip` accepts, in the order left, up, right, down, so at most four; the old list is kept as the prefix |
| Flooding.SkipAcceptsFrontier | src/main.rs:147-149 | next to a covered cell, the `skip` closure of `fill2` passes exactly the uncovered cells of the fill colour, the frontier the flood absorbs |
| Flooding.Fill2 | src/main.rs:141-167 | the filled mask is the flood of the given mask with the colour |
| Flooding.ExpandCoverage | src/main.rs:135-139 | the copy returned is the flood: a superset of the given mask whose new cells all have the colour |
| Moves.TinyVec.Deref | src/main.rs:370-376 | the slice in use has `len` elements |
| Moves.TinyVec.Len | src/main.rs:356-358 | the length is that of the slice in use, at most MAX_MOVES |
| Moves.TinyVec.Get | src/main.rs:360-362 | a slot in use holds the element of the slice at that index |
| Moves.TinyVec.Push | src/main.rs:364-367 | a list with a free slot gains one element at its end; nothing else changes |
| Moves.NewTinyVec | src/main.rs:349-354 | the new list is empty and every slot holds zero |
| Moves.PushThenGet | src/main.rs:360-367 | after a push, the slot at the old length holds the pushed element, and the slots before it are unchanged |
| States.Cmp | src/main.rs:247-251 | states compare as their scores do |
| States.PartialCmp | src/main.rs:241-245 | the partial order is total and agrees with `cmp` |
| States.EqIsEquivalence | src/main.rs:233-239 | equality on states, by score alone, is reflexive, symmetric and transitive, as `Eq` demands, and holds exactly when `cmp` finds the states equal |
| States.CmpIsOrder | src/main.rs:233-251 | the ordering is antisymmetric and transitive, so it is the total preorder a max-heap needs |
| States.MaxExists | src/main.rs:268-272 | a non-empty queue has an element of highest score |
| States.Pop | src/main.rs:268-272 | popping an empty queue yields nothing; otherwise it yields an element of highest score and leaves the rest of the multiset |
| States.PotentialPermutation | src/main.rs:268-272 | the termination measure of a queue does not depend on the order of its elements |
| States.WeightOfChild | src/main.rs:281-293 | a queued child, with a higher score than its parent, weighs at most a seventh as much, so expanding a state lowers the measure |
| Play.Apply | src/main.rs:278-281 | each move keeps the region a valid mask that contains the region before it |
| Play.ApplySnoc | src/main.rs:279-281 | a move list one longer floods the region of the shorter list with the pushed colour |
| Play.UncoveredAfterFlood | src/main.rs:274-276 | one flood removes at most one colour, its own, from the uncovered colours |
| Play.LowerBound | src/main.rs:274-276 | any move sequence that covers the board is at least as long as the number of distinct uncovered colours, so the prune never drops a state that could beat the best |
| Play.GrowingColour | src/main.rs:214-223 | on a valid board, a colour that grows a region closed under the last move is one of the COLOURS and is not the last move |
| Play.GrowingIsNotFull | src/main.rs:218 | a full region has no colour that grows it |
| Play.FirstProductiveMove | src/main.rs:278 | from a region closed under the last move and not yet full, any finishing sequence of length n can be replaced by one of length at most n that starts with a growing colour other than the last move |
| Search.Step | src/main.rs:209-224 | the children come in strictly ascending colour order; each is a colour below COLOURS other than the skip colour, paired with its flood, which is a strict superset of the mask; every colour that grows the region is listed; a full mask has no children |
| Search.AddReport | src/main.rs:283-286 | a solution shorter than the best becomes the last report and the new best, keeping the reports in strictly falling length |
| Search.ChildState | src/main.rs:279-293 | the child's move list is the parent's plus the colour, starts with the origin cell's colour, and floods exactly the child's region; when that region is not full, the child is a sound state weighing at most a seventh of its parent |
| Search.ChildStates | src/main.rs:279-293 | the state queued for each child has that child's region, keyed by its score, and the parent's moves followed by the child's colour |
| Search.QueueChildren | src/main.rs:278-294 | the queue gains, in order, exactly the states of the children before the first that covers the board; that child, if any, is reported as the new best with the parent's moves plus its colour and the queue length as the pending count, and the children after it are dropped; with no covering child every child is queued and nothing is reported |
| Search.QueuedChildrenSound | src/main.rs:278-294 | every state the loop queues is sound, its key the score of its region, and the measure falls below that of the queue plus the popped state's weight |
| Search.ChildStatesSound | src/main.rs:279-293 | the state of each child that does not cover the board is sound and weighs at most a seventh of its parent |
| Search.ReportedChildSound | src/main.rs:283-286 | the child the loop reports is a solution shorter than the best, so the reports keep falling strictly in length |
| Search.QueuedThenReportedQueues | src/main.rs:278-294 | every child with its parent's move count plus one below the new best is queued with that many moves |
| Search.QueuedThenReportedAppends | src/main.rs:278-294 | the loop only appends: the old queue and the old reports stay as prefixes, at most one report is added, and none when there are no children |
| Search.StepChildrenUnique | src/main.rs:209-224 | only one list is ascending, lists exactly the colours other than the last move that grow the region, and pairs each with its flood, so the children `step` yields and their order are fixed |
| Search.Expand | src/main.rs:278-294 | the children of a state the prune keeps are the list `step` builds, and the queue and reports are exactly what `QueueChildren` describes for those children, in that order; it keeps the search invariant and lowers the measure |
| Search.PrunedState | src/main.rs:274-276 | dropping a state whose move count plus remaining colours reaches the best keeps the search invariant and lowers the measure |
| Search.PrunedComplete | src/main.rs:274-276 | every solution shorter than the best that went through a pruned state still goes through some queued state |
| Search.ExpandedComplete | src/main.rs:278-294 | every solution shorter than the new best that went through the expanded state goes through one of its queued children or another queued state |
| Search.RootState | src/main.rs:254-266 | the first state, the origin colour's flood with that colour as its only move and score 0, is sound, and every solution goes through it |
| Search.StateKey | src/main.rs:262-266 | the key of a sound state is 0 for the root and otherwise the number of covered cells, at least one |
| Search.HighestCoverage | src/main.rs:268-272 | a state no queued state compares above has the highest key and, among non-root states, covers the most cells |
| Search.Pass | src/main.rs:268-295 | one pass pops a state of highest key, which covers the most cells of any non-root queued state; a state the prune keeps has the list `step` builds as its children, queued and reported as `QueueChildren` describes; it keeps the reports in strictly falling length, keeps every solution shorter than the best reachable from the queue, and strictly lowers the measure; a pruned state is dropped with nothing else changed |
| Search.FinalReports | src/main.rs:268-296 | with the queue empty, every report is a solution, the reports fall in length, and the last is no longer than any solution below MAX_MOVES |
| Search.Walk | src/main.rs:253-296 | every report solves the board from the origin cell, starts with the origin cell's colour, and is between 2 and MAX_MOVES - 1 moves long; the reports fall strictly in length; a board the first move already floods gives no report; when a solution of length n below MAX_MOVES exists, the last report is at most n long |

## Left out

- Covered is modelled as CELLS booleans, not packed machine words. The
  shift-and-mask arithmetic of `get_raw` and `set_raw` and the storage
  size `COVERED_STORAGE` are therefore not modelled.
- `Covered`, `TinyVec` and `State` are `Copy` values in the program. The
  model treats them as values: `set_raw` and `push` return the updated
  value, and the caller reassigns it. There is no aliasing to model.
- `TinyVec` holds colours only; the program's version is generic over
  its element type.
- `Moves.TinyVec.Push` requires a free slot. The program panics on an
  out-of-bounds array index when the list is full. The search is proved
  never to push onto a full list.
- `Boards.RemainingColours` requires a valid board, with every cell below
  COLOURS. The program panics when it indexes `seen` with a larger colour.
- `Board::random`, `Board::set`, `Covered::get`, `Covered::set`, the
  `Debug` implementations, `symbol` and `main` are not modelled. They are
  random generation, I/O and coordinate wrappers around the modelled raw
  operations.
- `complete` prints a line. The model returns that line's content as a
  `Report` instead of printing it.
- `States.Pop`: which of several states of equal score the
  `BinaryHeap` returns is left open. The heap's internal layout is not
  modelled.
- `Search.Step` builds its children eagerly into a list. The program's
  lazy iterator yields the same sequence. Nothing observable differs,
  since the flood of one colour does not depend on the others.
- `Search.Walk`: when the first move already floods the whole board (a
  single-colour board), the program reports nothing: the root state
  already covers the board, so `step` yields no child and no solution is
  ever reported. The model follows the code.
- `Search.Walk` states optimality only for solutions shorter than
  MAX_MOVES whose first move is the origin cell's colour. That is the form
  every reported move list has, since the search starts from that move.
- `Search.Walk` does not state the pending count of each report.
  `Search.QueueChildren` states it: the queue length when the solution is
  found.
- Memory capacities (`Vec::with_capacity`, `BinaryHeap::with_capacity`)
  are performance hints and are not modelled.
