/** Region expansion: growing the covered region by every cell of one colour
    that can be reached from it through edge-adjacent cells of that colour. */
module Flooding {
  import opened Grid
  import opened Coverage
  import opened Boards

  /** Some covered cell shares an edge with q. */
  ghost predicate HasCoveredNeighbour(mask: Covered, q: nat)
    requires mask.Valid()
  {
    exists p :: 0 <= p < CELLS && Adjacent(p, q) && mask.bits[p]
  }

  /** q is an uncovered cell of `colour` next to the region: the fill has to
      take it. */
  ghost predicate Frontier(board: Board, mask: Covered, colour: Colour, q: nat)
    requires |board.cells| == CELLS && mask.Valid()
  {
    q < CELLS && !mask.bits[q] && board.cells[q] == colour && HasCoveredNeighbour(mask, q)
  }

  /** The region cannot grow through `colour` any more. */
  ghost predicate Closed(board: Board, mask: Covered, colour: Colour)
    requires |board.cells| == CELLS && mask.Valid()
  {
    forall q: nat :: !Frontier(board, mask, colour, q)
  }

  /** One round of growth: adds every frontier cell at once. */
  ghost function Grow(board: Board, mask: Covered, colour: Colour): (r: Covered)
    requires |board.cells| == CELLS && mask.Valid()
    ensures r.Valid() && Includes(r.bits, mask.bits)
    ensures forall q :: 0 <= q < CELLS ==> (r.bits[q] <==> mask.bits[q] || Frontier(board, mask, colour, q))
  {
    Covered(seq(CELLS, q requires 0 <= q < CELLS => mask.bits[q] || Frontier(board, mask, colour, q)))
  }

  lemma GrowFixedIffClosed(board: Board, mask: Covered, colour: Colour)
    requires |board.cells| == CELLS && mask.Valid()
    ensures Grow(board, mask, colour) == mask <==> Closed(board, mask, colour)
  {
    var g := Grow(board, mask, colour);
    if Closed(board, mask, colour) {
      assert g.bits == mask.bits;
    } else {
      var q: nat :| Frontier(board, mask, colour, q);
      assert g.bits[q] != mask.bits[q];
    }
  }

  /** The region after flooding with `colour`: growth rounds repeated until
      nothing changes. This is the reference definition that the work-list
      fill is proved to compute. */
  ghost function Flood(board: Board, mask: Covered, colour: Colour): (r: Covered)
    requires |board.cells| == CELLS && mask.Valid()
    ensures r.Valid()
    ensures Includes(r.bits, mask.bits)
    ensures forall p :: 0 <= p < CELLS && r.bits[p] && !mask.bits[p] ==> board.cells[p] == colour
    ensures Closed(board, r, colour)
    decreases CELLS - mask.Score()
  {
    var g := Grow(board, mask, colour);
    if g == mask then
      GrowFixedIffClosed(board, mask, colour);
      mask
    else
      ScoreGrows(g, mask);
      Flood(board, g, colour)
  }

  /** The flood is the least closed region containing the input: any closed
      superset of the input also contains the flood, so the flood adds only
      cells reachable through `colour`. */
  lemma {:induction false} FloodLeast(board: Board, mask: Covered, colour: Colour, bound: Covered)
    requires |board.cells| == CELLS && mask.Valid() && bound.Valid()
    requires Includes(bound.bits, mask.bits) && Closed(board, bound, colour)
    ensures Includes(bound.bits, Flood(board, mask, colour).bits)
    decreases CELLS - mask.Score()
  {
    var g := Grow(board, mask, colour);
    if g != mask {
      forall q | 0 <= q < CELLS && g.bits[q] ensures bound.bits[q] {
        if !mask.bits[q] {
          assert Frontier(board, mask, colour, q);
          var p :| 0 <= p < CELLS && Adjacent(p, q) && mask.bits[p];
          assert !Frontier(board, bound, colour, q);
        }
      }
      ScoreGrows(g, mask);
      FloodLeast(board, g, colour, bound);
    }
  }

  /** Flooding changes nothing exactly when no uncovered cell of the colour
      touches the region (the non-productive expansion is bit-for-bit the
      input). */
  lemma FloodUnchangedIffClosed(board: Board, mask: Covered, colour: Colour)
    requires |board.cells| == CELLS && mask.Valid()
    ensures Flood(board, mask, colour) == mask <==> Closed(board, mask, colour)
  {
    GrowFixedIffClosed(board, mask, colour);
  }

  lemma FullIsClosed(board: Board, mask: Covered, colour: Colour)
    requires |board.cells| == CELLS && mask.Valid() && mask.Full()
    ensures Flood(board, mask, colour) == mask
  {
    FloodUnchangedIffClosed(board, mask, colour);
  }

  /** A closed region stays closed for its colour and every cell it touches
      that has that colour is already in it. */
  lemma ClosedNeighbour(board: Board, mask: Covered, colour: Colour, p: nat, q: nat)
    requires |board.cells| == CELLS && mask.Valid() && Closed(board, mask, colour)
    requires Adjacent(p, q) && mask.bits[p] && board.cells[q] == colour
    ensures mask.bits[q]
  {
    assert !Frontier(board, mask, colour, q);
  }

  /** The strictly increasing list of the distinct elements of `s` at or above
      `lo`: what sort_unstable followed by dedup leaves of the work-list. */
  function SortedDistinctFrom(s: seq<nat>, lo: nat): (r: seq<nat>)
    requires lo <= CELLS
    ensures forall i, j :: 0 <= i < j < |r| ==> r[i] < r[j]
    ensures forall i :: 0 <= i < |r| ==> lo <= r[i] < CELLS
    ensures forall x :: x in r <==> lo <= x < CELLS && x in s
    decreases CELLS - lo
  {
    if lo == CELLS then []
    else if lo in s then [lo] + SortedDistinctFrom(s, lo + 1)
    else SortedDistinctFrom(s, lo + 1)
  }

  function SortedDistinct(s: seq<nat>): (r: seq<nat>)
    requires forall i :: 0 <= i < |s| ==> s[i] < CELLS
    ensures forall i, j :: 0 <= i < j < |r| ==> r[i] < r[j]
    ensures forall x :: x in r <==> x in s
  {
    SortedDistinctFrom(s, 0)
  }

  /** `[q]` when `ok`, else nothing. */
  ghost function Maybe(ok: bool, q: int): seq<nat>
    requires ok ==> 0 <= q
  {
    if ok then [q] else []
  }

  /** The cells the four neighbour tests of `pos` append, in the order
      left, up, right, down: each neighbour that exists and that `skip`
      accepts. */
  ghost function Kept(pos: nat, skip: nat --> bool): seq<nat>
    requires pos < CELLS
    requires forall q: nat :: q < CELLS ==> skip.requires(q)
  {
    var x := Column(pos);
    var y := Row(pos);
    Maybe(x > 0 && !skip(pos - 1), pos - 1) +
    Maybe(y > 0 && !skip(pos - SIZE), pos - SIZE) +
    Maybe(x < SIZE - 1 && !skip(pos + 1), pos + 1) +
    Maybe(y < SIZE - 1 && !skip(pos + SIZE), pos + SIZE)
  }

  /** `e` is an accepted neighbour in one of the four directions. */
  ghost predicate OneOfNeighbours(pos: nat, skip: nat --> bool, e: nat)
    requires pos < CELLS
    requires forall q: nat :: q < CELLS ==> skip.requires(q)
  {
    (Column(pos) > 0 && !skip(pos - 1) && e == pos - 1) ||
    (Row(pos) > 0 && !skip(pos - SIZE) && e == pos - SIZE) ||
    (Column(pos) < SIZE - 1 && !skip(pos + 1) && e == pos + 1) ||
    (Row(pos) < SIZE - 1 && !skip(pos + SIZE) && e == pos + SIZE)
  }

  /** At most four cells are kept, exactly those accepted in one of the
      four directions. */
  lemma KeptMembers(pos: nat, skip: nat --> bool)
    requires pos < CELLS
    requires forall q: nat :: q < CELLS ==> skip.requires(q)
    ensures |Kept(pos, skip)| <= 4
    ensures forall e :: e in Kept(pos, skip) <==> OneOfNeighbours(pos, skip, e)
  {
  }

  lemma OneOfNeighboursIsAccepted(pos: nat, skip: nat --> bool, e: nat)
    requires pos < CELLS
    requires forall q: nat :: q < CELLS ==> skip.requires(q)
    ensures OneOfNeighbours(pos, skip, e) <==> Adjacent(pos, e) && !skip(e)
  {
    NeighboursOf(pos, e);
  }

  /** The kept cells are at most four accepted neighbours of `pos`, and
      every accepted neighbour. */
  lemma KeptNeighbours(pos: nat, skip: nat --> bool, kept: seq<nat>)
    requires pos < CELLS
    requires forall q: nat :: q < CELLS ==> skip.requires(q)
    requires kept == Kept(pos, skip)
    ensures |kept| <= 4
    ensures forall i :: 0 <= i < |kept| ==> Adjacent(pos, kept[i]) && !skip(kept[i])
    ensures forall q: nat :: Adjacent(pos, q) && !skip(q) ==> q in kept
  {
    KeptMembers(pos, skip);
    forall i | 0 <= i < |kept| ensures Adjacent(pos, kept[i]) && !skip(kept[i]) {
      OneOfNeighboursIsAccepted(pos, skip, kept[i]);
    }
    forall q: nat | Adjacent(pos, q) && !skip(q) ensures q in kept {
      OneOfNeighboursIsAccepted(pos, skip, q);
    }
  }

  /** A separate lemma rather than an assert, so that the four append steps
      of PushAdjacentsRaw each stay a small proof. */
  lemma AppendAssoc(onto: seq<nat>, kept: seq<nat>, q: nat)
    ensures (onto + kept) + [q] == onto + (kept + [q])
  {
  }

  /** `onto` followed by the kept cells: at most four accepted neighbours of
      `pos`, and every accepted neighbour. */
  lemma PushedNeighbours(onto: seq<nat>, pos: nat, skip: nat --> bool, onto': seq<nat>)
    requires pos < CELLS
    requires forall q: nat :: q < CELLS ==> skip.requires(q)
    requires onto' == onto + Kept(pos, skip)
    ensures |onto| <= |onto'| <= |onto| + 4 && onto'[..|onto|] == onto
    ensures forall i :: |onto| <= i < |onto'| ==> Adjacent(pos, onto'[i]) && !skip(onto'[i])
    ensures forall q: nat :: Adjacent(pos, q) && !skip(q) ==> q in onto'[|onto|..]
  {
    var kept := Kept(pos, skip);
    KeptNeighbours(pos, skip, kept);
    Appended(onto, kept, onto');
  }

  /** Appending `kept` to `onto` leaves `onto` as the prefix and `kept` as
      the rest. A separate lemma rather than asserts, so that these sequence
      facts are proved once, outside the larger proofs that use them. */
  lemma Appended(onto: seq<nat>, kept: seq<nat>, onto': seq<nat>)
    requires onto' == onto + kept
    ensures onto'[..|onto|] == onto && onto'[|onto|..] == kept
    ensures forall i :: |onto| <= i < |onto'| ==> onto'[i] == kept[i - |onto|]
  {
  }

  /** Appends to `onto` each edge neighbour of `pos` (left, up, right, down,
      those that exist) that `skip` does not reject. */
  method PushAdjacentsRaw(onto: seq<nat>, pos: nat, skip: nat --> bool) returns (onto': seq<nat>)
    requires pos < CELLS
    requires forall q: nat :: q < CELLS ==> skip.requires(q)
    ensures onto' == onto + Kept(pos, skip)
    ensures |onto| <= |onto'| <= |onto| + 4 && onto'[..|onto|] == onto
    ensures forall i :: |onto| <= i < |onto'| ==> Adjacent(pos, onto'[i]) && !skip(onto'[i])
    ensures forall q: nat :: Adjacent(pos, q) && !skip(q) ==> q in onto'[|onto|..]
  {
    var x := pos % SIZE;
    var y := pos / SIZE;
    CoordOfColumnRow(pos);
    onto' := onto;
    ghost var kept: seq<nat> := [];

    if x > 0 {
      var left := Coord(x - 1, y);
      if !skip(left) {
        AppendAssoc(onto, kept, left);
        onto' := onto' + [left];
        kept := kept + [left];
      }
    }
    ghost var k1 := Maybe(x > 0 && !skip(pos - 1), pos - 1);
    assert kept == k1 && onto' == onto + kept;

    if y > 0 {
      var up := Coord(x, y - 1);
      if !skip(up) {
        AppendAssoc(onto, kept, up);
        onto' := onto' + [up];
        kept := kept + [up];
      }
    }
    ghost var k2 := k1 + Maybe(y > 0 && !skip(pos - SIZE), pos - SIZE);
    assert kept == k2 && onto' == onto + kept;

    if x < SIZE - 1 {
      var right := Coord(x + 1, y);
      if !skip(right) {
        AppendAssoc(onto, kept, right);
        onto' := onto' + [right];
        kept := kept + [right];
      }
    }
    ghost var k3 := k2 + Maybe(x < SIZE - 1 && !skip(pos + 1), pos + 1);
    assert kept == k3 && onto' == onto + kept;

    if y < SIZE - 1 {
      var down := Coord(x, y + 1);
      if !skip(down) {
        AppendAssoc(onto, kept, down);
        onto' := onto' + [down];
        kept := kept + [down];
      }
    }
    ghost var k4 := k3 + Maybe(y < SIZE - 1 && !skip(pos + SIZE), pos + SIZE);
    assert kept == k4 && onto' == onto + kept;
    PushedNeighbours(onto, pos, skip, onto');
  }

  /** The fill rejects a cell that is covered already or has another colour. */
  predicate Skip(board: Board, coverage: Covered, colour: Colour, pos: nat)
    requires |board.cells| == CELLS && coverage.Valid() && pos < CELLS
  {
    coverage.GetRaw(pos) || board.GetRaw(pos) != colour
  }

  /** Next to a covered cell, the fill accepts exactly the frontier cells:
      the uncovered neighbours of the fill colour. */
  lemma SkipAcceptsFrontier(board: Board, mask: Covered, colour: Colour, p: nat, q: nat)
    requires |board.cells| == CELLS && mask.Valid() && p < CELLS && mask.bits[p] && Adjacent(p, q)
    ensures !Skip(board, mask, colour, q) <==> Frontier(board, mask, colour, q)
  {
  }

  /** Every queued cell is in the grid, and those of the fill colour belong to
      the flood. */
  ghost predicate QueuedInFlood(board: Board, target: Covered, colour: Colour, todo: seq<nat>)
    requires |board.cells| == CELLS && target.Valid()
  {
    forall i :: 0 <= i < |todo| ==>
      todo[i] < CELLS && (board.cells[todo[i]] == colour ==> target.bits[todo[i]])
  }

  /** Every frontier cell next to one of the first `upTo` cells is queued. */
  ghost predicate FrontierQueuedBelow(board: Board, mask: Covered, colour: Colour, todo: seq<nat>, upTo: nat)
    requires |board.cells| == CELLS && mask.Valid()
  {
    forall q: nat ::
      (Frontier(board, mask, colour, q) &&
       exists p :: 0 <= p < upTo && Adjacent(p, q) && mask.bits[p]) ==> q in todo
  }

  /** Every frontier cell is queued. */
  ghost predicate FrontierQueued(board: Board, mask: Covered, colour: Colour, todo: seq<nat>)
    requires |board.cells| == CELLS && mask.Valid()
  {
    forall q: nat :: Frontier(board, mask, colour, q) ==> q in todo
  }

  lemma QueuedInFloodSubset(board: Board, target: Covered, colour: Colour, todo: seq<nat>, kept: seq<nat>)
    requires |board.cells| == CELLS && target.Valid()
    requires QueuedInFlood(board, target, colour, todo)
    requires forall x :: x in kept ==> x in todo
    ensures QueuedInFlood(board, target, colour, kept)
  {
    forall i | 0 <= i < |kept|
      ensures kept[i] < CELLS && (board.cells[kept[i]] == colour ==> target.bits[kept[i]])
    {
      assert kept[i] in todo;
      var j :| 0 <= j < |todo| && todo[j] == kept[i];
    }
  }

  /** What pushing the accepted neighbours of a flood cell onto the work-list
      keeps: the new entries of the fill colour lie in the flood too. */
  lemma PushKeepsQueuedInFlood(board: Board, mask: Covered, target: Covered, colour: Colour,
                               before: seq<nat>, todo: seq<nat>, pos: nat)
    requires |board.cells| == CELLS && mask.Valid() && target.Valid()
    requires Closed(board, target, colour) && pos < CELLS && target.bits[pos]
    requires QueuedInFlood(board, target, colour, before)
    requires |before| <= |todo| && todo[..|before|] == before
    requires forall i :: |before| <= i < |todo| ==> Adjacent(pos, todo[i]) && !Skip(board, mask, colour, todo[i])
    ensures QueuedInFlood(board, target, colour, todo)
  {
    forall i | 0 <= i < |todo|
      ensures todo[i] < CELLS && (board.cells[todo[i]] == colour ==> target.bits[todo[i]])
    {
      if i < |before| {
        assert todo[i] == before[i];
      } else {
        ClosedNeighbour(board, target, colour, pos, todo[i]);
      }
    }
  }

  /** The seeding pass over cell `pos` keeps every frontier cell next to a
      visited covered cell queued. */
  lemma SeedStep(board: Board, mask: Covered, colour: Colour, before: seq<nat>, todo: seq<nat>, pos: nat)
    requires |board.cells| == CELLS && mask.Valid() && pos < CELLS
    requires FrontierQueuedBelow(board, mask, colour, before, pos)
    requires |before| <= |todo| && todo[..|before|] == before
    requires mask.bits[pos] ==> forall q: nat :: Adjacent(pos, q) && !Skip(board, mask, colour, q) ==> q in todo[|before|..]
    ensures FrontierQueuedBelow(board, mask, colour, todo, pos + 1)
  {
    forall q: nat | Frontier(board, mask, colour, q) && exists p :: 0 <= p < pos + 1 && Adjacent(p, q) && mask.bits[p]
      ensures q in todo
    {
      var p :| 0 <= p < pos + 1 && Adjacent(p, q) && mask.bits[p];
      if p == pos {
        assert q in todo[|before|..];
      } else {
        assert q in before;
      }
    }
  }

  /** Covering a popped frontier cell after queuing its accepted neighbours
      keeps every frontier cell queued. */
  lemma CoverStep(board: Board, mask: Covered, colour: Colour, before: seq<nat>, todo: seq<nat>, pos: nat)
    requires |board.cells| == CELLS && mask.Valid() && pos < CELLS
    requires forall q: nat :: Frontier(board, mask, colour, q) && q != pos ==> q in before
    requires |before| <= |todo| && todo[..|before|] == before
    requires forall q: nat :: Adjacent(pos, q) && !Skip(board, mask, colour, q) ==> q in todo[|before|..]
    ensures FrontierQueued(board, mask.SetRaw(pos), colour, todo)
  {
    var next := mask.SetRaw(pos);
    forall q: nat | Frontier(board, next, colour, q) ensures q in todo {
      var p :| 0 <= p < CELLS && Adjacent(p, q) && next.bits[p];
      if p == pos {
        assert q in todo[|before|..];
      } else {
        assert Frontier(board, mask, colour, q);
        assert q in before;
      }
    }
  }

  /** The invariant of the pop loop: `cov` lies between the input mask and
      the flood, every queued cell of the fill colour is in the flood, and
      every frontier cell of `cov` is queued. */
  ghost predicate FillInvariant(board: Board, coverage: Covered, target: Covered, colour: Colour,
                                cov: Covered, todo: seq<nat>)
    requires |board.cells| == CELLS && target.Valid()
  {
    cov.Valid() && Includes(cov.bits, coverage.bits) && Includes(target.bits, cov.bits) &&
    QueuedInFlood(board, target, colour, todo) && FrontierQueued(board, cov, colour, todo)
  }

  /** Popping the last queued cell leaves every other frontier cell queued. */
  lemma PopKeepsQueued(board: Board, target: Covered, colour: Colour, cov: Covered,
                       queued: seq<nat>, todo: seq<nat>)
    requires |board.cells| == CELLS && target.Valid() && cov.Valid()
    requires queued != [] && todo == queued[..|queued| - 1]
    requires QueuedInFlood(board, target, colour, queued) && FrontierQueued(board, cov, colour, queued)
    ensures QueuedInFlood(board, target, colour, todo)
    ensures forall q: nat :: Frontier(board, cov, colour, q) && q != queued[|queued| - 1] ==> q in todo
  {
    QueuedInFloodSubset(board, target, colour, queued, todo);
    forall q: nat | Frontier(board, cov, colour, q) && q != queued[|queued| - 1] ensures q in todo {
      assert q in queued;
      var k :| 0 <= k < |queued| && queued[k] == q;
      assert todo[k] == q;
    }
  }

  /** A popped cell the fill rejects is dropped: the invariant holds for the
      shorter list. */
  lemma PopSkipped(board: Board, coverage: Covered, target: Covered, colour: Colour,
                   cov: Covered, queued: seq<nat>, todo: seq<nat>)
    requires |board.cells| == CELLS && target.Valid()
    requires FillInvariant(board, coverage, target, colour, cov, queued)
    requires queued != [] && todo == queued[..|queued| - 1]
    requires queued[|queued| - 1] < CELLS && Skip(board, cov, colour, queued[|queued| - 1])
    ensures FillInvariant(board, coverage, target, colour, cov, todo)
  {
    PopKeepsQueued(board, target, colour, cov, queued, todo);
  }

  /** A popped cell the fill accepts is covered after its accepted neighbours
      are queued: the invariant holds again and the score has grown by one. */
  lemma PopCovered(board: Board, coverage: Covered, target: Covered, colour: Colour,
                   cov: Covered, queued: seq<nat>, before: seq<nat>, todo: seq<nat>)
    requires |board.cells| == CELLS && target.Valid() && Closed(board, target, colour)
    requires FillInvariant(board, coverage, target, colour, cov, queued)
    requires queued != [] && before == queued[..|queued| - 1]
    requires queued[|queued| - 1] < CELLS && !Skip(board, cov, colour, queued[|queued| - 1])
    requires |before| <= |todo| && todo[..|before|] == before
    requires forall i :: |before| <= i < |todo| ==>
      Adjacent(queued[|queued| - 1], todo[i]) && !Skip(board, cov, colour, todo[i])
    requires forall q: nat :: Adjacent(queued[|queued| - 1], q) && !Skip(board, cov, colour, q) ==>
      q in todo[|before|..]
    ensures FillInvariant(board, coverage, target, colour, cov.SetRaw(queued[|queued| - 1]), todo)
    ensures cov.SetRaw(queued[|queued| - 1]).Score() == cov.Score() + 1
  {
    var pos := queued[|queued| - 1];
    PopKeepsQueued(board, target, colour, cov, queued, before);
    assert target.bits[pos] by {
      assert queued[|queued| - 1] == pos;
    }
    PushKeepsQueuedInFlood(board, cov, target, colour, before, todo, pos);
    CoverStep(board, cov, colour, before, todo, pos);
  }

  /** The work-list flood fill: seeds the list with the uncovered neighbours
      of colour `colour` of every covered cell, sorts and deduplicates it,
      then pops cells, covering each still-uncovered one of that colour and
      pushing its own such neighbours. Computes exactly the flood. */
  method Fill2(board: Board, coverage: Covered, colour: Colour) returns (filled: Covered)
    requires |board.cells| == CELLS && coverage.Valid()
    ensures filled == Flood(board, coverage, colour)
  {
    ghost var target := Flood(board, coverage, colour);
    var todo: seq<nat> := [];
    for pos := 0 to CELLS
      invariant QueuedInFlood(board, target, colour, todo)
      invariant FrontierQueuedBelow(board, coverage, colour, todo, pos)
    {
      if !coverage.GetRaw(pos) {
        SeedStep(board, coverage, colour, todo, todo, pos);
        continue;
      }
      ghost var before := todo;
      var skip := (q: nat) requires q < CELLS => Skip(board, coverage, colour, q);
      todo := PushAdjacentsRaw(todo, pos, skip);
      PushKeepsQueuedInFlood(board, coverage, target, colour, before, todo, pos);
      SeedStep(board, coverage, colour, before, todo, pos);
    }

    ghost var seeded := todo;
    todo := SortedDistinct(todo);
    QueuedInFloodSubset(board, target, colour, seeded, todo);

    var cov := coverage;
    while |todo| > 0
      invariant FillInvariant(board, coverage, target, colour, cov, todo)
      decreases CELLS - cov.Score(), |todo|
    {
      ghost var queued := todo;
      var pos := todo[|todo| - 1];
      todo := todo[..|todo| - 1];
      assert pos < CELLS;
      if Skip(board, cov, colour, pos) {
        PopSkipped(board, coverage, target, colour, cov, queued, todo);
        continue;
      }
      ghost var before := todo;
      var skip := (q: nat) requires q < CELLS => Skip(board, cov, colour, q);
      todo := PushAdjacentsRaw(todo, pos, skip);
      PopCovered(board, coverage, target, colour, cov, queued, before, todo);
      cov := cov.SetRaw(pos);
    }

    FloodLeast(board, coverage, colour, cov);
    assert cov.bits == target.bits;
    filled := cov;
  }

  /** Copies the mask and fills the copy; the input is left as it was. */
  method ExpandCoverage(board: Board, coverage: Covered, colour: Colour) returns (expanded: Covered)
    requires |board.cells| == CELLS && coverage.Valid()
    ensures expanded == Flood(board, coverage, colour)
    ensures expanded.Valid() && Includes(expanded.bits, coverage.bits)
    ensures forall p :: 0 <= p < CELLS && expanded.bits[p] && !coverage.bits[p] ==> board.cells[p] == colour
  {
    expanded := coverage;
    expanded := Fill2(board, expanded, colour);
  }
}
