/** What a move does: flooding the region from the origin cell with one
    colour after another, as the search plays the game. */
module Play {
  import opened Grid
  import opened Coverage
  import opened Boards
  import opened Flooding

  /** The region after flooding from `mask` with each colour of `moves` in
      turn. */
  ghost function Apply(board: Board, mask: Covered, moves: seq<Colour>): (r: Covered)
    requires |board.cells| == CELLS && mask.Valid()
    ensures r.Valid() && Includes(r.bits, mask.bits)
    decreases |moves|
  {
    if moves == [] then mask
    else Flood(board, Apply(board, mask, moves[..|moves| - 1]), moves[|moves| - 1])
  }

  /** One more move floods the region reached so far. */
  lemma ApplySnoc(board: Board, mask: Covered, moves: seq<Colour>, colour: Colour)
    requires |board.cells| == CELLS && mask.Valid()
    ensures Apply(board, mask, moves + [colour]) == Flood(board, Apply(board, mask, moves), colour)
  {
    assert (moves + [colour])[..|moves|] == moves;
  }

  /** Playing `moves` from the origin cell alone covers the whole board. */
  ghost predicate Solves(board: Board, moves: seq<Colour>)
    requires |board.cells| == CELLS
  {
    Apply(board, New(), moves).Full()
  }

  /** The colour of the origin cell already floods the whole board. */
  ghost predicate NoMoveNeeded(board: Board)
    requires |board.cells| == CELLS
  {
    Flood(board, New(), board.cells[0]).Full()
  }

  /** Flooding with `c` adds at least one cell to the region. */
  ghost predicate Grows(board: Board, mask: Covered, c: Colour)
    requires |board.cells| == CELLS && mask.Valid()
  {
    Flood(board, mask, c) != mask
  }

  /** Flooding never uncovers a cell, so the region of a longer list of
      moves includes that of any prefix. */
  lemma {:induction false} ApplyIncludesPrefix(board: Board, mask: Covered, moves: seq<Colour>, n: nat)
    requires |board.cells| == CELLS && mask.Valid() && n <= |moves|
    ensures Includes(Apply(board, mask, moves).bits, Apply(board, mask, moves[..n]).bits)
    decreases |moves|
  {
    if n < |moves| {
      var init := moves[..|moves| - 1];
      ApplyIncludesPrefix(board, mask, init, n);
      assert init[..n] == moves[..n];
    } else {
      assert moves[..n] == moves;
    }
  }

  /** Nothing grows a region that covers the whole board. */
  lemma GrowingIsNotFull(board: Board, mask: Covered, c: Colour)
    requires |board.cells| == CELLS && mask.Valid()
    ensures Grows(board, mask, c) ==> !mask.Full()
  {
    if mask.Full() {
      FullIsClosed(board, mask, c);
    }
  }

  /** Playing `a` and then `b` is playing `a + b`. */
  lemma {:induction false} ApplyConcat(board: Board, mask: Covered, a: seq<Colour>, b: seq<Colour>)
    requires |board.cells| == CELLS && mask.Valid()
    ensures Apply(board, mask, a + b) == Apply(board, Apply(board, mask, a), b)
    decreases |b|
  {
    if b == [] {
      assert a + b == a;
    } else {
      var init := b[..|b| - 1];
      ApplyConcat(board, mask, a, init);
      assert (a + b)[..|a + b| - 1] == a + init;
    }
  }

  /** Playing `c` first and then `rest`. */
  lemma ApplyCons(board: Board, mask: Covered, c: Colour, rest: seq<Colour>)
    requires |board.cells| == CELLS && mask.Valid()
    ensures Apply(board, mask, [c] + rest) == Apply(board, Flood(board, mask, c), rest)
  {
    ApplyConcat(board, mask, [c], rest);
    ApplySnoc(board, mask, [], c);
  }

  /** Playing `m` is playing its first move and then the rest. */
  lemma FirstThenRest(board: Board, mask: Covered, m: seq<Colour>)
    requires |board.cells| == CELLS && mask.Valid() && m != []
    ensures Apply(board, mask, m) == Apply(board, Flood(board, mask, m[0]), m[1..])
  {
    ApplyCons(board, mask, m[0], m[1..]);
    assert [m[0]] + m[1..] == m;
  }

  /** At most `k` more moves cover the whole board. */
  ghost predicate CanFinish(board: Board, mask: Covered, k: nat)
    requires |board.cells| == CELLS && mask.Valid()
  {
    exists r: seq<Colour> :: |r| <= k && Apply(board, mask, r).Full()
  }

  /** There is a solution of `n` moves that starts, as the search does, with
      the colour of the origin cell. */
  ghost predicate SolvableIn(board: Board, n: nat)
    requires |board.cells| == CELLS
  {
    exists m: seq<Colour> :: |m| == n && m != [] && m[0] == board.cells[0] && Solves(board, m)
  }

  /** A flood with `c` uncovers no cell, and every cell it covers has colour
      `c`, so at most the colour `c` leaves the uncovered colours. */
  lemma UncoveredAfterFlood(board: Board, mask: Covered, c: Colour)
    requires |board.cells| == CELLS && mask.Valid()
    ensures UncoveredColours(board, mask) <= UncoveredColours(board, Flood(board, mask, c)) + {c}
  {
    var f := Flood(board, mask, c);
    forall x | x in UncoveredColours(board, mask) ensures x in UncoveredColours(board, f) + {c} {
      var p: nat :| p < CELLS && !mask.bits[p] && board.cells[p] == x;
      if x != c {
        assert !f.bits[p];
      }
    }
  }

  lemma {:induction false} SubsetCardinality<T>(a: set<T>, b: set<T>)
    requires a <= b
    ensures |a| <= |b|
    decreases |b|
  {
    if a != {} {
      var x :| x in a;
      SubsetCardinality(a - {x}, b - {x});
    }
  }

  /** A region that covers every cell leaves no colour uncovered. */
  lemma FullLeavesNoColour(board: Board, mask: Covered)
    requires |board.cells| == CELLS && mask.Valid() && mask.Full()
    ensures UncoveredColours(board, mask) == {}
  {
  }

  /** The bound behind the pruning: each move removes at most one colour from
      the uncovered ones, so finishing takes at least as many moves as
      colours remain. */
  lemma {:induction false} LowerBound(board: Board, mask: Covered, m: seq<Colour>)
    requires |board.cells| == CELLS && mask.Valid() && Apply(board, mask, m).Full()
    ensures |UncoveredColours(board, mask)| <= |m|
    decreases |m|
  {
    if m == [] {
      FullLeavesNoColour(board, mask);
    } else {
      var c := m[0];
      var f := Flood(board, mask, c);
      FirstThenRest(board, mask, m);
      LowerBound(board, f, m[1..]);
      UncoveredAfterFlood(board, mask, c);
      SubsetCardinality(UncoveredColours(board, mask), UncoveredColours(board, f) + {c});
    }
  }

  /** Some board colour other than `last` grows the region, and at most `k`
      moves finish after it. */
  ghost predicate ProductiveStart(board: Board, mask: Covered, last: Colour, k: nat)
    requires |board.cells| == CELLS && mask.Valid()
  {
    exists c: Colour :: c < COLOURS && c != last && Grows(board, mask, c) &&
      CanFinish(board, Flood(board, mask, c), k)
  }

  lemma CanFinishWeaken(board: Board, mask: Covered, k: nat, k': nat)
    requires |board.cells| == CELLS && mask.Valid() && k <= k' && CanFinish(board, mask, k)
    ensures CanFinish(board, mask, k')
  {
    var r :| |r| <= k && Apply(board, mask, r).Full();
  }

  lemma ProductiveStartWeaken(board: Board, mask: Covered, last: Colour, k: nat, k': nat)
    requires |board.cells| == CELLS && mask.Valid() && k <= k'
    requires ProductiveStart(board, mask, last, k)
    ensures ProductiveStart(board, mask, last, k')
  {
    var c: Colour :| c < COLOURS && c != last && Grows(board, mask, c) &&
      CanFinish(board, Flood(board, mask, c), k);
    CanFinishWeaken(board, Flood(board, mask, c), k, k');
  }

  /** A colour that grows a region closed under `last` is not `last`, and is
      the colour of a board cell. */
  lemma GrowingColour(board: Board, mask: Covered, last: Colour, c: Colour)
    requires board.Valid() && mask.Valid() && Closed(board, mask, last) && Grows(board, mask, c)
    ensures c < COLOURS && c != last
  {
    FloodUnchangedIffClosed(board, mask, last);
    var f := Flood(board, mask, c);
    assert f.bits != mask.bits;
    var p :| 0 <= p < CELLS && f.bits[p] != mask.bits[p];
    assert board.cells[p] == c;
  }

  /** A region that is closed under `last` and does not cover the whole
      board, but that `m` finishes, has a first move that grows it: a board
      colour other than `last`, after which fewer than |m| moves finish. */
  lemma {:induction false} FirstProductiveMove(board: Board, mask: Covered, last: Colour, m: seq<Colour>)
    requires board.Valid() && mask.Valid() && Closed(board, mask, last) && !mask.Full()
    requires Apply(board, mask, m).Full()
    ensures |m| >= 1 && ProductiveStart(board, mask, last, |m| - 1)
    decreases |m|
  {
    assert m != [];
    var c := m[0];
    var rest := m[1..];
    FirstThenRest(board, mask, m);
    if Grows(board, mask, c) {
      GrowingColour(board, mask, last, c);
      assert CanFinish(board, Flood(board, mask, c), |m| - 1);
    } else {
      FirstProductiveMove(board, mask, last, rest);
      ProductiveStartWeaken(board, mask, last, |rest| - 1, |m| - 1);
    }
  }
}
