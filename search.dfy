/** The branch-and-bound search: from the region flooded by the colour of
    the origin cell, try every colour that grows the region, most covered
    states first, and report each solution shorter than the best so far. */
module Search {
  import opened Grid
  import opened Coverage
  import opened Boards
  import opened Flooding
  import opened Play
  import opened Moves
  import opened States

  /** `child` pairs a colour other than `skipColour` that grows the region
      with the region it floods, a strict superset of `mask`. */
  ghost predicate IsChild(board: Board, mask: Covered, skipColour: Colour, child: (Colour, Covered))
    requires |board.cells| == CELLS && mask.Valid()
  {
    child.0 < COLOURS && child.0 != skipColour && Grows(board, mask, child.0) &&
    child.1 == Flood(board, mask, child.0) &&
    Includes(child.1.bits, mask.bits) && child.1.Score() > mask.Score()
  }

  /** Some child in the list has colour `c`. */
  ghost predicate Listed(children: seq<(Colour, Covered)>, c: Colour) {
    exists i :: 0 <= i < |children| && children[i].0 == c
  }

  /** Strictly ascending colours. */
  ghost predicate Ascending(children: seq<(Colour, Covered)>) {
    forall i, j :: 0 <= i < j < |children| ==> children[i].0 < children[j].0
  }

  /** The list `Step` builds for `mask` after a move of `skipColour`: in
      ascending colour order, exactly the colours other than `skipColour`
      that grow the region, each with its flood. */
  ghost predicate StepChildren(board: Board, mask: Covered, skipColour: Colour, children: seq<(Colour, Covered)>)
    requires |board.cells| == CELLS && mask.Valid()
  {
    Ascending(children) &&
    (forall i :: 0 <= i < |children| ==> IsChild(board, mask, skipColour, children[i])) &&
    (forall c: Colour :: c < COLOURS && c != skipColour && Grows(board, mask, c) ==> Listed(children, c))
  }

  /** Only one list satisfies StepChildren, so it fixes both the children
      and the order in which the search queues them. */
  lemma StepChildrenUnique(board: Board, mask: Covered, skipColour: Colour, a: seq<(Colour, Covered)>, b: seq<(Colour, Covered)>)
    requires |board.cells| == CELLS && mask.Valid()
    requires StepChildren(board, mask, skipColour, a) && StepChildren(board, mask, skipColour, b)
    ensures a == b
  {
    forall c: Colour ensures Listed(a, c) <==> Listed(b, c) {
      if Listed(a, c) {
        var i :| 0 <= i < |a| && a[i].0 == c;
        assert IsChild(board, mask, skipColour, a[i]);
      }
      if Listed(b, c) {
        var i :| 0 <= i < |b| && b[i].0 == c;
        assert IsChild(board, mask, skipColour, b[i]);
      }
    }
    forall i, j | 0 <= i < |a| && 0 <= j < |b| && a[i].0 == b[j].0 ensures a[i].1 == b[j].1 {
      assert IsChild(board, mask, skipColour, a[i]) && IsChild(board, mask, skipColour, b[j]);
    }
    AscendingListsEqual(a, b);
  }

  /** Two ascending lists with the same colours, and the same region for
      each colour, are equal. */
  lemma {:induction false} AscendingListsEqual(a: seq<(Colour, Covered)>, b: seq<(Colour, Covered)>)
    requires Ascending(a) && Ascending(b)
    requires forall c: Colour :: Listed(a, c) <==> Listed(b, c)
    requires forall i, j :: 0 <= i < |a| && 0 <= j < |b| && a[i].0 == b[j].0 ==> a[i].1 == b[j].1
    ensures a == b
    decreases |a|
  {
    if a == [] || b == [] {
      if a != [] {
        assert Listed(a, a[0].0);
      }
      if b != [] {
        assert Listed(b, b[0].0);
      }
    } else {
      assert Listed(a, a[0].0) && Listed(b, b[0].0);
      AscendingHead(b, a[0].0);
      AscendingHead(a, b[0].0);
      forall c: Colour ensures Listed(a[1..], c) <==> Listed(b[1..], c) {
        ListedTail(a, c);
        ListedTail(b, c);
      }
      AscendingListsEqual(a[1..], b[1..]);
      assert a == [a[0]] + a[1..] && b == [b[0]] + b[1..];
    }
  }

  /** The head of an ascending list has its least colour. */
  lemma AscendingHead(a: seq<(Colour, Covered)>, c: Colour)
    requires Ascending(a) && Listed(a, c)
    ensures a[0].0 <= c
  {
    var i :| 0 <= i < |a| && a[i].0 == c;
  }

  /** The tail of an ascending list lists every colour of the list but the
      head's. */
  lemma ListedTail(a: seq<(Colour, Covered)>, c: Colour)
    requires Ascending(a) && a != []
    ensures Listed(a[1..], c) <==> Listed(a, c) && c != a[0].0
  {
    if Listed(a[1..], c) {
      var i :| 0 <= i < |a[1..]| && a[1..][i].0 == c;
      assert a[i + 1].0 == c;
    }
    if Listed(a, c) && c != a[0].0 {
      var i :| 0 <= i < |a| && a[i].0 == c;
      assert a[1..][i - 1] == a[i];
    }
  }

  /** The children of `mask`: in ascending colour order, every colour other
      than `skipColour` that grows the region, with the region it floods. */
  method Step(board: Board, mask: Covered, skipColour: Colour) returns (children: seq<(Colour, Covered)>)
    requires |board.cells| == CELLS && mask.Valid()
    ensures |children| <= COLOURS
    ensures Ascending(children)
    ensures forall i :: 0 <= i < |children| ==> IsChild(board, mask, skipColour, children[i])
    ensures forall c: Colour :: c < COLOURS && c != skipColour && Grows(board, mask, c) ==> Listed(children, c)
    ensures mask.Full() ==> children == []
  {
    children := [];
    for colour := 0 to COLOURS
      invariant StepInvariant(board, mask, skipColour, colour, children)
    {
      if colour == skipColour {
        StepSkip(board, mask, skipColour, colour, children);
        continue;
      }
      var cand := ExpandCoverage(board, mask, colour);
      if cand != mask {
        StepAppend(board, mask, skipColour, colour, children);
        children := children + [(colour, cand)];
      } else {
        StepSkip(board, mask, skipColour, colour, children);
      }
    }
    if children != [] {
      GrowingIsNotFull(board, mask, children[0].0);
    }
  }

  /** What holds after the colours below `colour` were tried: at most one
      child per colour tried, in ascending colour order, each a child of
      `mask`, and every growing colour tried is listed. */
  ghost predicate StepInvariant(board: Board, mask: Covered, skipColour: Colour, colour: nat,
                                children: seq<(Colour, Covered)>)
    requires |board.cells| == CELLS && mask.Valid()
  {
    |children| <= colour && Ascending(children) &&
    (forall i :: 0 <= i < |children| ==> children[i].0 < colour && IsChild(board, mask, skipColour, children[i])) &&
    (forall c: Colour :: c < colour && c != skipColour && Grows(board, mask, c) ==> Listed(children, c))
  }

  /** A colour that is skipped or does not grow the region adds no child. */
  lemma StepSkip(board: Board, mask: Covered, skipColour: Colour, colour: Colour, children: seq<(Colour, Covered)>)
    requires |board.cells| == CELLS && mask.Valid()
    requires StepInvariant(board, mask, skipColour, colour, children)
    requires colour == skipColour || !Grows(board, mask, colour)
    ensures StepInvariant(board, mask, skipColour, colour + 1, children)
  {
  }

  /** A colour that grows the region adds its child at the end. */
  lemma StepAppend(board: Board, mask: Covered, skipColour: Colour, colour: Colour, children: seq<(Colour, Covered)>)
    requires |board.cells| == CELLS && mask.Valid()
    requires StepInvariant(board, mask, skipColour, colour, children)
    requires colour != skipColour && colour < COLOURS && Grows(board, mask, colour)
    ensures StepInvariant(board, mask, skipColour, colour + 1,
      children + [(colour, Flood(board, mask, colour))])
  {
    var cand := Flood(board, mask, colour);
    var next := children + [(colour, cand)];
    ScoreGrows(cand, mask);
    AppendAscending(children, colour, cand);
    AppendListed(children, colour, cand);
    assert forall i :: 0 <= i < |children| ==> next[i] == children[i];
  }

  /** A child of a colour above all listed ones keeps the list ascending. */
  lemma AppendAscending(children: seq<(Colour, Covered)>, colour: Colour, cand: Covered)
    requires Ascending(children)
    requires forall i :: 0 <= i < |children| ==> children[i].0 < colour
    ensures Ascending(children + [(colour, cand)])
  {
  }

  /** Appending keeps every listed colour listed and lists the new one. */
  lemma AppendListed(children: seq<(Colour, Covered)>, colour: Colour, cand: Covered)
    ensures Listed(children + [(colour, cand)], colour)
    ensures forall c: Colour :: Listed(children, c) ==> Listed(children + [(colour, cand)], c)
  {
    var next := children + [(colour, cand)];
    assert next[|children|].0 == colour;
    forall c: Colour | Listed(children, c) ensures Listed(next, c) {
      var i :| 0 <= i < |children| && children[i].0 == c;
      assert next[i].0 == c;
    }
  }

  /** A solution found by the search: its length, its moves (the colour of
      the origin cell first), and how many states were still queued. */
  datatype Report = Report(len: nat, moves: seq<Colour>, pending: nat)

  /** What holds of every queued state: its move list starts with the colour
      of the origin cell, and its region is what those moves flood; its key
      is 0 for the first state and the number of covered cells for every
      other; the search never queues a state that covers the whole board,
      unless the first move already does. */
  ghost predicate StateOk(board: Board, s: State)
    requires |board.cells| == CELLS
  {
    s.moves.Valid() && 1 <= s.moves.Len() && s.moves.Deref()[0] == board.cells[0] &&
    s.mask == Apply(board, New(), s.moves.Deref()) &&
    s.score == (if s.moves.Len() == 1 then 0 else s.mask.Score()) && s.score < CELLS &&
    (s.mask.Full() ==> NoMoveNeeded(board))
  }

  /** A reported solution: it solves the board, starts with the colour of
      the origin cell, and its length fits a move list. */
  ghost predicate ReportOk(board: Board, r: Report)
    requires |board.cells| == CELLS
  {
    Solves(board, r.moves) && r.len == |r.moves| && 2 <= r.len < MAX_MOVES &&
    r.moves[0] == board.cells[0]
  }

  /** The reports so far are solutions of strictly falling length, the last
      of length `best`; with none, `best` is still MAX_MOVES. */
  ghost predicate ReportsOk(board: Board, reports: seq<Report>, best: nat)
    requires |board.cells| == CELLS
  {
    best <= MAX_MOVES &&
    (reports == [] ==> best == MAX_MOVES) &&
    (reports != [] ==> reports[|reports| - 1].len == best) &&
    (forall i :: 0 <= i < |reports| ==> ReportOk(board, reports[i]) && best <= reports[i].len) &&
    (forall i, j :: 0 <= i < j < |reports| ==> reports[i].len > reports[j].len)
  }

  /** Every queued state satisfies StateOk. */
  ghost predicate QueueOk(board: Board, todo: seq<State>)
    requires |board.cells| == CELLS
  {
    forall s :: s in todo ==> StateOk(board, s)
  }

  /** A solution shorter than all before it becomes the new best. */
  lemma AddReport(board: Board, reports: seq<Report>, best: nat, r: Report)
    requires |board.cells| == CELLS
    requires ReportsOk(board, reports, best) && ReportOk(board, r) && r.len < best
    ensures ReportsOk(board, reports + [r], r.len)
  {
    var next := reports + [r];
    forall i | 0 <= i < |next| ensures ReportOk(board, next[i]) && r.len <= next[i].len {
      if i < |reports| {
        assert next[i] == reports[i];
      }
    }
  }

  /** The child of a queued state for colour `colour`: its move list is one
      longer, its region is what that list floods, and it weighs at most a
      seventh of its parent. */
  lemma ChildState(board: Board, s: State, colour: Colour, mask: Covered)
    requires |board.cells| == CELLS && StateOk(board, s) && s.moves.Len() < MAX_MOVES
    requires IsChild(board, s.mask, s.moves.Get(s.moves.Len() - 1), (colour, mask))
    ensures s.moves.Push(colour).Len() == s.moves.Len() + 1
    ensures s.moves.Push(colour).Deref()[0] == board.cells[0]
    ensures mask == Apply(board, New(), s.moves.Push(colour).Deref())
    ensures mask.Score() < CELLS ==>
      StateOk(board, State(mask.Score(), s.moves.Push(colour), mask)) &&
      (COLOURS + 1) * Weight(State(mask.Score(), s.moves.Push(colour), mask)) <= Weight(s)
  {
    var solution := s.moves.Push(colour);
    ApplySnoc(board, New(), s.moves.Deref(), colour);
    assert solution.Deref()[0] == s.moves.Deref()[0];
    if mask.Score() < CELLS {
      WeightOfChild(s, State(mask.Score(), solution, mask));
    }
  }

  /** Each state of the list weighs at most a seventh of `w`. */
  ghost predicate Lighter(pushed: seq<State>, w: nat) {
    forall i :: 0 <= i < |pushed| ==> (COLOURS + 1) * Weight(pushed[i]) <= w
  }

  /** A list of states each weighing at most a seventh of `w` weighs in all
      at most its length in sevenths of `w`. */
  lemma {:induction false} PotentialOfLighter(pushed: seq<State>, w: nat)
    requires Lighter(pushed, w)
    ensures (COLOURS + 1) * Potential(pushed) <= |pushed| * w
  {
    if pushed != [] {
      var n := |pushed| - 1;
      assert Lighter(pushed[..n], w) by {
        assert forall i :: 0 <= i < n ==> pushed[..n][i] == pushed[i];
      }
      PotentialOfLighter(pushed[..n], w);
      assert Potential(pushed) == Potential(pushed[..n]) + Weight(pushed[n]);
      SumBound(Potential(pushed[..n]), Weight(pushed[n]), n, w);
    }
  }

  /** One more state within a seventh of `w` adds at most one `w` to the
      bound. A separate lemma, so that this nonlinear step is proved apart
      from the induction of PotentialOfLighter. */
  lemma SumBound(before: nat, last: nat, n: nat, w: nat)
    requires (COLOURS + 1) * before <= n * w && (COLOURS + 1) * last <= w
    ensures (COLOURS + 1) * (before + last) <= (n + 1) * w
  {
    assert (n + 1) * w == n * w + w;
  }

  /** At most COLOURS copies of `w` weigh at most COLOURS times `w`. A
      separate lemma, so that this nonlinear step is proved apart from
      PushedLighter. */
  lemma MulBound(n: nat, w: nat)
    requires n <= COLOURS
    ensures n * w <= COLOURS * w
  {
    assert COLOURS * w == n * w + (COLOURS - n) * w;
  }

  /** Queueing at most COLOURS states each lighter than a seventh of the
      popped state weighs less than the popped state did. */
  lemma PushedLighter(queue: seq<State>, s: State, pushed: seq<State>)
    requires |pushed| <= COLOURS && Lighter(pushed, Weight(s))
    ensures Potential(queue + pushed) < Potential(queue) + Weight(s)
  {
    PotentialOfLighter(pushed, Weight(s));
    PotentialAppend(queue, pushed);
    MulBound(|pushed|, Weight(s));
  }

  /** What holds before each pass of the search: the reports are sound,
      every queued state is sound, nothing is reported for a board the first
      move already floods, and otherwise every solution shorter than the
      best can still be reached from the queue. */
  ghost predicate SearchOk(board: Board, todo: seq<State>, reports: seq<Report>, best: nat)
    requires |board.cells| == CELLS
  {
    ReportsOk(board, reports, best) && QueueOk(board, todo) &&
    (NoMoveNeeded(board) ==> reports == []) &&
    (!NoMoveNeeded(board) ==> Complete(board, todo, best))
  }

  /** The search. Starts from the region the colour of the origin cell
      floods, with that colour as the first move; takes a state of highest
      score from the queue; drops it when its moves plus the colours left
      cannot beat the best solution; otherwise queues each child, and on a
      child that covers the whole board reports its moves as the new best and
      leaves the remaining children. Ends when the queue is empty. */
  method Walk(board: Board) returns (reports: seq<Report>)
    requires board.Valid()
    ensures forall r :: r in reports ==>
      Solves(board, r.moves) && r.len == |r.moves| && 2 <= r.len < MAX_MOVES && r.moves[0] == board.cells[0]
    ensures forall i, j :: 0 <= i < j < |reports| ==> reports[i].len > reports[j].len
    ensures NoMoveNeeded(board) ==> reports == []
    ensures !NoMoveNeeded(board) ==> forall n: nat :: n < MAX_MOVES && SolvableIn(board, n) ==>
      reports != [] && reports[|reports| - 1].len <= n
  {
    var best := MAX_MOVES;
    var rootColour := board.Get(0, 0);
    var mask := ExpandCoverage(board, New(), rootColour);
    var moves := NewTinyVec();
    moves := moves.Push(rootColour);
    var todo := [State(0, moves, mask)];
    reports := [];
    RootState(board, todo[0]);

    while todo != []
      invariant SearchOk(board, todo, reports, best)
      decreases Potential(todo)
    {
      var popped;
      ghost var children, rest;
      popped, children, rest, todo, reports, best := Pass(board, todo, reports, best);
    }
    FinalReports(board, reports, best);
  }

  /** One pass of the search: takes a state of highest score from the
      queue; drops it when its moves plus the colours left cannot beat the
      best; otherwise expands it, queueing and reporting its children, the
      list `Step` builds, as QueuedThenReported describes. `rest` is what
      stays queued of the old queue. */
  method Pass(board: Board, queued: seq<State>, reports: seq<Report>, best: nat)
    returns (popped: State, ghost children: seq<(Colour, Covered)>, ghost rest: seq<State>,
             todo: seq<State>, found: seq<Report>, newBest: nat)
    requires board.Valid() && queued != [] && SearchOk(board, queued, reports, best)
    ensures SearchOk(board, todo, found, newBest) && Potential(todo) < Potential(queued)
    ensures newBest <= best && |reports| <= |found| <= |reports| + 1 && found[..|reports|] == reports
    ensures popped in queued && forall t :: t in queued ==> t.score <= popped.score
    ensures forall t :: t in queued && t.moves.Len() > 1 ==>
      popped.moves.Len() > 1 && t.mask.Score() <= popped.mask.Score()
    ensures popped.moves.Len() + |UncoveredColours(board, popped.mask)| >= best ==>
      multiset(todo) == multiset(queued) - multiset{popped} && found == reports && newBest == best
    ensures popped.moves.Len() + |UncoveredColours(board, popped.mask)| < best ==>
      popped.moves.Valid() && 1 <= popped.moves.Len() && popped.mask.Valid() && multiset(queued) == multiset(rest) + multiset{popped} &&
      StepChildren(board, popped.mask, popped.moves.Get(popped.moves.Len() - 1), children) &&
      QueuedThenReported(popped, children, rest, reports, best, todo, found, newBest)
  {
    var top, remaining := Pop(queued);
    rest := remaining;
    popped := top.value;
    PopState(board, queued, popped, rest, reports, best);
    assert QueueOk(board, queued);
    HighestCoverage(board, queued, popped);
    var count := RemainingColours(board, popped.mask);
    if popped.moves.Len() + count >= best {
      PrunedState(board, queued, popped, rest, reports, best, count);
      return popped, [], rest, remaining, reports, best;
    }
    var expanded;
    expanded, todo, found, newBest := Expand(board, popped, remaining, reports, best, queued);
    children := expanded;
  }

  /** The key of a sound state: 0 for the first state, and for every other
      its covered-cell count, at least one since the origin is covered. */
  lemma StateKey(board: Board, s: State)
    requires |board.cells| == CELLS && StateOk(board, s)
    ensures s.moves.Valid() && s.mask.Valid()
    ensures s.moves.Len() == 1 ==> s.score == 0
    ensures s.moves.Len() > 1 ==> s.score == s.mask.Score() >= 1
  {
    ScoreGrows(s.mask, New());
  }

  /** Every state but the first is keyed by its covered-cell count, which is
      at least one, so a state of highest key covers at least as many cells
      as any other state but the first. */
  lemma HighestCoverage(board: Board, queued: seq<State>, popped: State)
    requires |board.cells| == CELLS && QueueOk(board, queued) && popped in queued
    requires forall t :: t in queued ==> Cmp(t, popped) != Greater
    ensures forall t :: t in queued ==> t.score <= popped.score
    ensures forall t :: t in queued && t.moves.Len() > 1 ==>
      popped.moves.Len() > 1 && t.mask.Score() <= popped.mask.Score()
  {
    forall t | t in queued && t.moves.Len() > 1
      ensures popped.moves.Len() > 1 && t.mask.Score() <= popped.mask.Score()
    {
      StateKey(board, t);
      StateKey(board, popped);
      assert Cmp(t, popped) != Greater;
    }
  }

  /** The first state is sound and every solution goes through it. */
  lemma RootState(board: Board, root: State)
    requires board.Valid() && root.mask == Flood(board, New(), board.cells[0]) && root.score == 0
    requires root.moves.Valid() && root.moves.Deref() == [board.cells[0]]
    ensures SearchOk(board, [root], [], MAX_MOVES)
  {
    ApplySnoc(board, New(), [], board.cells[0]);
    assert [] + [board.cells[0]] == [board.cells[0]];
    RootComplete(board, root);
  }

  /** Popping a sound state from a sound queue. */
  lemma PopState(board: Board, queued: seq<State>, s: State, rest: seq<State>, reports: seq<Report>, best: nat)
    requires |board.cells| == CELLS && SearchOk(board, queued, reports, best)
    requires multiset(queued) == multiset(rest) + multiset{s}
    ensures StateOk(board, s) && QueueOk(board, rest) && ReportsOk(board, reports, best)
    ensures Potential(queued) == Potential(rest) + Weight(s)
  {
    PopPotential(queued, s, rest);
  }

  /** Dropping a state that cannot beat the best keeps the search sound and
      complete, and lowers the potential. */
  lemma PrunedState(board: Board, queued: seq<State>, s: State, rest: seq<State>,
                    reports: seq<Report>, best: nat, count: nat)
    requires |board.cells| == CELLS && SearchOk(board, queued, reports, best)
    requires multiset(queued) == multiset(rest) + multiset{s} && StateOk(board, s)
    requires count == |UncoveredColours(board, s.mask)| && s.moves.Len() + count >= best
    ensures SearchOk(board, rest, reports, best) && Potential(rest) < Potential(queued)
  {
    PopState(board, queued, s, rest, reports, best);
    PopPotential(queued, s, rest);
    if !NoMoveNeeded(board) {
      PrunedComplete(board, queued, s, rest, best, count);
    }
  }

  /** Expanding a popped state and queueing its children keeps the search
      sound and complete. */
  lemma ExpandedState(board: Board, queued: seq<State>, s: State, rest: seq<State>,
                      children: seq<(Colour, Covered)>, todo: seq<State>,
                      reports: seq<Report>, found: seq<Report>, best: nat, newBest: nat)
    requires board.Valid() && SearchOk(board, queued, reports, best)
    requires multiset(queued) == multiset(rest) + multiset{s} && StateOk(board, s)
    requires forall i :: 0 <= i < |children| ==> IsChild(board, s.mask, s.moves.Get(s.moves.Len() - 1), children[i])
    requires forall c: Colour ::
      c < COLOURS && c != s.moves.Get(s.moves.Len() - 1) && Grows(board, s.mask, c) ==> Listed(children, c)
    requires s.mask.Full() ==> children == []
    requires ReportsOk(board, found, newBest) && QueueOk(board, todo) && newBest <= best
    requires |rest| <= |todo| && todo[..|rest|] == rest
    requires children == [] ==> found == reports
    requires forall j :: 0 <= j < |children| ==>
      newBest <= s.moves.Len() + 1 || Queued(todo, s.moves.Len() + 1, children[j].1)
    ensures SearchOk(board, todo, found, newBest)
  {
    FullWhenNoMoveNeeded(board, s);
    if !NoMoveNeeded(board) {
      PopPotential(queued, s, rest);
      forall x | x in rest ensures x in todo {
        var k :| 0 <= k < |rest| && rest[k] == x;
        assert todo[k] == x;
      }
      ExpandedComplete(board, queued, s, rest, children, todo, best, newBest);
    }
  }

  /** With the queue empty, the last report is a shortest solution. */
  lemma FinalReports(board: Board, reports: seq<Report>, best: nat)
    requires board.Valid() && SearchOk(board, [], reports, best)
    ensures forall r :: r in reports ==>
      Solves(board, r.moves) && r.len == |r.moves| && 2 <= r.len < MAX_MOVES && r.moves[0] == board.cells[0]
    ensures forall i, j :: 0 <= i < j < |reports| ==> reports[i].len > reports[j].len
    ensures NoMoveNeeded(board) ==> reports == []
    ensures !NoMoveNeeded(board) ==> forall n: nat :: n < MAX_MOVES && SolvableIn(board, n) ==>
      reports != [] && reports[|reports| - 1].len <= n
  {
    if !NoMoveNeeded(board) {
      NothingBelowBest(board, [], best);
    }
    forall r | r in reports ensures ReportOk(board, r) {
      var i :| 0 <= i < |reports| && reports[i] == r;
    }
  }

  /** The expansion of a popped state `s` that may still beat the best:
      the loop over its children, the colours other than its last move
      that grow its region. */
  method Expand(board: Board, s: State, rest: seq<State>, reports: seq<Report>, best: nat,
                ghost queued: seq<State>)
    returns (children: seq<(Colour, Covered)>, todo: seq<State>, found: seq<Report>, newBest: nat)
    requires board.Valid() && SearchOk(board, queued, reports, best)
    requires multiset(queued) == multiset(rest) + multiset{s} && StateOk(board, s)
    requires QueueOk(board, rest) && ReportsOk(board, reports, best)
    requires s.moves.Len() + |UncoveredColours(board, s.mask)| < best
    ensures SearchOk(board, todo, found, newBest) && Potential(todo) < Potential(rest) + Weight(s)
    ensures newBest <= best && |reports| <= |found| <= |reports| + 1 && found[..|reports|] == reports
    ensures StepChildren(board, s.mask, s.moves.Get(s.moves.Len() - 1), children)
    ensures QueuedThenReported(s, children, rest, reports, best, todo, found, newBest)
  {
    children := Step(board, s.mask, s.moves.Get(s.moves.Len() - 1));
    if children != [] {
      NoColourIffFull(board, s.mask);
    }
    todo, found, newBest := QueueChildren(s, children, rest, reports, best);
    QueuedChildrenSound(board, s, children, rest, reports, best, todo, found, newBest);
    ReportedChildSound(board, s, children, rest, reports, best, todo, found, newBest);
    QueuedThenReportedAppends(s, children, rest, reports, best, todo, found, newBest);
    QueuedThenReportedQueues(s, children, rest, reports, best, todo, found, newBest);
    ExpandedState(board, queued, s, rest, children, todo, reports, found, best, newBest);
  }

  /** The states queued for the first `n` children of `s`, in order: each
      child's region, keyed by its score, with the moves of `s` followed by
      the child's colour. */
  function ChildStates(s: State, children: seq<(Colour, Covered)>, n: nat): (r: seq<State>)
    requires s.moves.Valid() && s.moves.Len() < MAX_MOVES && n <= |children|
    requires forall j :: 0 <= j < n ==> children[j].1.Valid()
    ensures |r| == n
    ensures forall j :: 0 <= j < n ==> r[j] == State(children[j].1.Score(), s.moves.Push(children[j].0), children[j].1)
    ensures forall j :: 0 <= j < n ==> r[j].moves.Valid() && r[j].moves.Deref() == s.moves.Deref() + [children[j].0]
  {
    if n == 0 then []
    else
      var (colour, mask) := children[n - 1];
      ChildStates(s, children, n - 1) + [State(mask.Score(), s.moves.Push(colour), mask)]
  }

  /** What the loop over the children of `s` leaves: the queue gained, in
      order, the states of the children before the first one that covers
      the board; that child, if any, is reported with the moves of `s` and
      its colour, as the new best, with the length the queue then has, and
      the children after it are dropped. */
  ghost predicate QueuedThenReported(s: State, children: seq<(Colour, Covered)>, queue: seq<State>,
                                     reports: seq<Report>, best: nat,
                                     todo: seq<State>, found: seq<Report>, newBest: nat)
  {
    s.moves.Valid() && s.moves.Len() < MAX_MOVES &&
    (forall j :: 0 <= j < |children| ==> children[j].1.Valid()) &&
    |queue| <= |todo| <= |queue| + |children| &&
    todo == queue + ChildStates(s, children, |todo| - |queue|) &&
    (forall j :: 0 <= j < |todo| - |queue| ==> children[j].1.Score() < CELLS) &&
    (found == reports ==> |todo| - |queue| == |children| && newBest == best) &&
    (found != reports ==>
      |todo| - |queue| < |children| && children[|todo| - |queue|].1.Score() == CELLS &&
      newBest == s.moves.Len() + 1 &&
      found == reports + [Report(newBest, s.moves.Deref() + [children[|todo| - |queue|].0], |todo|)])
  }

  /** The loop of the search over the children of the popped state `s`:
      queues each child after `queue`, until a child covers the whole board;
      that child's moves are reported as the new best and the remaining
      children are dropped. */
  method QueueChildren(s: State, children: seq<(Colour, Covered)>, queue: seq<State>,
                       reports: seq<Report>, best: nat)
    returns (todo: seq<State>, found: seq<Report>, newBest: nat)
    requires s.moves.Valid() && s.moves.Len() < MAX_MOVES
    requires forall j :: 0 <= j < |children| ==> children[j].1.Valid()
    ensures QueuedThenReported(s, children, queue, reports, best, todo, found, newBest)
  {
    todo, found, newBest := queue, reports, best;
    ghost var pushed := [];
    var i := 0;
    while i < |children|
      invariant PushedInOrder(s, children, i, pushed) && todo == queue + pushed
      invariant found == reports && newBest == best
      decreases |children| - i
    {
      var (colour, childMask) := children[i];
      var solution := s.moves.Push(colour);
      var score := childMask.Score();
      if score == CELLS {
        newBest := solution.Len();
        found := found + [Report(solution.Len(), solution.Deref(), |todo|)];
        ReportedChild(s, children, queue, reports, best, todo, pushed, i, found, newBest);
        return;
      }
      var child := State(score, solution, childMask);
      PushedNext(s, children, i, pushed);
      pushed := pushed + [child];
      todo := todo + [child];
      i := i + 1;
    }
    QueuedAll(s, children, queue, reports, best, todo, pushed, i);
  }

  /** The states the loop queues are sound and each lighter than a
      seventh of `s`, so the measure falls. */
  lemma QueuedChildrenSound(board: Board, s: State, children: seq<(Colour, Covered)>, queue: seq<State>,
                            reports: seq<Report>, best: nat,
                            todo: seq<State>, found: seq<Report>, newBest: nat)
    requires |board.cells| == CELLS && StateOk(board, s) && QueueOk(board, queue)
    requires |children| <= COLOURS
    requires forall i :: 0 <= i < |children| ==> IsChild(board, s.mask, s.moves.Get(s.moves.Len() - 1), children[i])
    requires QueuedThenReported(s, children, queue, reports, best, todo, found, newBest)
    ensures QueueOk(board, todo) && Potential(todo) < Potential(queue) + Weight(s)
  {
    var added := ChildStates(s, children, |todo| - |queue|);
    ChildStatesSound(board, s, children, |added|);
    QueueOkConcat(board, queue, added);
    PushedLighter(queue, s, added);
  }

  /** Two sound queues joined make a sound queue. A separate lemma, so
      that the soundness of each state is not unfolded where it is used. */
  lemma QueueOkConcat(board: Board, a: seq<State>, b: seq<State>)
    requires |board.cells| == CELLS && QueueOk(board, a) && QueueOk(board, b)
    ensures QueueOk(board, a + b)
  {
  }

  /** The states of the first `n` children of `s` are sound, and each
      weighs at most a seventh of `s`. */
  lemma ChildStatesSound(board: Board, s: State, children: seq<(Colour, Covered)>, n: nat)
    requires |board.cells| == CELLS && StateOk(board, s) && s.moves.Len() < MAX_MOVES && n <= |children|
    requires forall i :: 0 <= i < |children| ==> IsChild(board, s.mask, s.moves.Get(s.moves.Len() - 1), children[i])
    requires forall j :: 0 <= j < |children| ==> children[j].1.Valid()
    requires forall j :: 0 <= j < n ==> children[j].1.Score() < CELLS
    ensures QueueOk(board, ChildStates(s, children, n)) && Lighter(ChildStates(s, children, n), Weight(s))
  {
    var added := ChildStates(s, children, n);
    forall j | 0 <= j < n
      ensures StateOk(board, added[j]) && (COLOURS + 1) * Weight(added[j]) <= Weight(s)
    {
      ChildState(board, s, children[j].0, children[j].1);
    }
  }

  /** The child the loop reports, if any, is a solution shorter than the
      best, so the reports stay sound. */
  lemma ReportedChildSound(board: Board, s: State, children: seq<(Colour, Covered)>, queue: seq<State>,
                           reports: seq<Report>, best: nat,
                           todo: seq<State>, found: seq<Report>, newBest: nat)
    requires |board.cells| == CELLS && StateOk(board, s)
    requires forall i :: 0 <= i < |children| ==> IsChild(board, s.mask, s.moves.Get(s.moves.Len() - 1), children[i])
    requires children != [] ==> s.moves.Len() + 1 < best
    requires ReportsOk(board, reports, best)
    requires QueuedThenReported(s, children, queue, reports, best, todo, found, newBest)
    ensures ReportsOk(board, found, newBest) && newBest <= best
  {
    if found != reports {
      var n := |todo| - |queue|;
      ChildState(board, s, children[n].0, children[n].1);
      AddReport(board, reports, best, found[|reports|]);
    }
  }

  /** The loop only appends to the queue and to the reports, at most one
      report, and none without children. */
  lemma QueuedThenReportedAppends(s: State, children: seq<(Colour, Covered)>, queue: seq<State>,
                                  reports: seq<Report>, best: nat,
                                  todo: seq<State>, found: seq<Report>, newBest: nat)
    requires QueuedThenReported(s, children, queue, reports, best, todo, found, newBest)
    ensures |queue| <= |todo| && todo[..|queue|] == queue
    ensures |reports| <= |found| <= |reports| + 1 && found[..|reports|] == reports
    ensures children == [] ==> found == reports
  {
    if found != reports {
      assert found[..|reports|] == reports;
    }
  }

  /** The loop stops at child `i`, the first that covers the board. */
  lemma ReportedChild(s: State, children: seq<(Colour, Covered)>, queue: seq<State>,
                      reports: seq<Report>, best: nat, todo: seq<State>, pushed: seq<State>, i: nat,
                      found: seq<Report>, newBest: nat)
    requires PushedInOrder(s, children, i, pushed) && todo == queue + pushed && i < |children|
    requires children[i].1.Score() == CELLS && newBest == s.moves.Len() + 1
    requires found == reports + [Report(newBest, s.moves.Push(children[i].0).Deref(), |todo|)]
    ensures QueuedThenReported(s, children, queue, reports, best, todo, found, newBest)
  {
    var n := |todo| - |queue|;
    assert n == i;
    assert todo == queue + ChildStates(s, children, n);
    assert s.moves.Push(children[i].0).Deref() == s.moves.Deref() + [children[i].0];
  }

  /** The first `i` children were pushed, in order, and none of them covers
      the board. */
  ghost predicate PushedInOrder(s: State, children: seq<(Colour, Covered)>, i: nat, pushed: seq<State>) {
    s.moves.Valid() && s.moves.Len() < MAX_MOVES && i <= |children| &&
    (forall j :: 0 <= j < |children| ==> children[j].1.Valid()) &&
    pushed == ChildStates(s, children, i) &&
    (forall j :: 0 <= j < i ==> children[j].1.Score() < CELLS)
  }

  /** Queueing child `i`, which does not cover the board, keeps the loop's
      record of what it queued. */
  lemma PushedNext(s: State, children: seq<(Colour, Covered)>, i: nat, pushed: seq<State>)
    requires PushedInOrder(s, children, i, pushed) && i < |children| && children[i].1.Score() < CELLS
    ensures PushedInOrder(s, children, i + 1,
      pushed + [State(children[i].1.Score(), s.moves.Push(children[i].0), children[i].1)])
  {
  }

  /** The loop runs through every child when none covers the board. */
  lemma QueuedAll(s: State, children: seq<(Colour, Covered)>, queue: seq<State>,
                  reports: seq<Report>, best: nat, todo: seq<State>, pushed: seq<State>, i: nat)
    requires PushedInOrder(s, children, i, pushed) && todo == queue + pushed && i == |children|
    ensures QueuedThenReported(s, children, queue, reports, best, todo, reports, best)
  {
    assert |todo| - |queue| == i;
  }

  /** When the colour of the origin cell floods the whole board, every
      queued state covers the whole board. */
  lemma FullWhenNoMoveNeeded(board: Board, s: State)
    requires |board.cells| == CELLS && StateOk(board, s)
    ensures NoMoveNeeded(board) ==> s.mask.Full()
  {
    var m := s.moves.Deref();
    ApplyIncludesPrefix(board, New(), m, 1);
    assert m[..1] == [] + [board.cells[0]];
    ApplySnoc(board, New(), [], board.cells[0]);
  }

  /** Popping a state takes its weight out of the potential, and leaves
      queued only states that were queued. */
  lemma PopPotential(queued: seq<State>, s: State, rest: seq<State>)
    requires multiset(queued) == multiset(rest) + multiset{s}
    ensures Potential(queued) == Potential(rest) + Weight(s)
    ensures s in queued && forall x :: x in rest ==> x in queued
    ensures forall x :: x in queued && x != s ==> x in rest
  {
    PotentialPermutation(queued, rest + [s]);
    PotentialAppend(rest, [s]);
    assert [s][..0] == [];
    assert s in multiset(queued);
    forall x | x in rest ensures x in queued {
      assert x in multiset(rest);
      assert x in multiset(queued);
    }
    forall x | x in queued && x != s ensures x in rest {
      assert x in multiset(queued);
      assert x in multiset(rest);
    }
  }

  /** Some queued state has a move list of length `len` and region `mask`. */
  ghost predicate Queued(todo: seq<State>, len: nat, mask: Covered) {
    exists t :: t in todo && t.moves.len == len && t.mask == mask
  }

  /** Each child before the first that covers the board is queued with one
      move more than `s`; the children after it lie at the new best. */
  lemma QueuedThenReportedQueues(s: State, children: seq<(Colour, Covered)>, queue: seq<State>,
                                 reports: seq<Report>, best: nat,
                                 todo: seq<State>, found: seq<Report>, newBest: nat)
    requires QueuedThenReported(s, children, queue, reports, best, todo, found, newBest)
    ensures forall j :: 0 <= j < |children| ==>
      newBest <= s.moves.Len() + 1 || Queued(todo, s.moves.Len() + 1, children[j].1)
  {
    var n := |todo| - |queue|;
    var added := ChildStates(s, children, n);
    forall j | 0 <= j < |children| && newBest > s.moves.Len() + 1
      ensures Queued(todo, s.moves.Len() + 1, children[j].1)
    {
      assert j < n;
      assert todo[|queue| + j] == added[j];
      assert added[j].moves.len == |added[j].moves.Deref()|;
    }
  }

  /** The state `t` can still lead to a solution of `n` moves: it has made at
      most `n` moves, and the rest finish from its region. */
  ghost predicate Witness(board: Board, t: State, n: nat)
    requires |board.cells| == CELLS
  {
    t.mask.Valid() && t.moves.len <= n && CanFinish(board, t.mask, n - t.moves.len)
  }

  /** Nothing is lost by the search: every solution shorter than the best
      found so far can still be reached from some queued state. */
  ghost predicate Complete(board: Board, todo: seq<State>, best: nat)
    requires |board.cells| == CELLS
  {
    forall n: nat :: n < best && SolvableIn(board, n) ==> exists t :: t in todo && Witness(board, t, n)
  }

  /** Every solution that starts with the colour of the origin cell goes
      through the first state. */
  lemma RootComplete(board: Board, root: State)
    requires board.Valid() && root.mask == Flood(board, New(), board.cells[0]) && root.moves.len == 1
    ensures Complete(board, [root], MAX_MOVES)
  {
    forall n: nat | n < MAX_MOVES && SolvableIn(board, n) ensures Witness(board, root, n) {
      var m :| |m| == n && m != [] && m[0] == board.cells[0] && Solves(board, m);
      FirstThenRest(board, New(), m);
      assert CanFinish(board, root.mask, n - 1);
    }
  }

  /** A dropped state leads to no solution shorter than `best`, since it
      needs at least one move per colour left. */
  lemma PrunedComplete(board: Board, queued: seq<State>, s: State, rest: seq<State>, best: nat, count: nat)
    requires |board.cells| == CELLS && Complete(board, queued, best) && StateOk(board, s)
    requires forall x :: x in queued && x != s ==> x in rest
    requires count == |UncoveredColours(board, s.mask)| && s.moves.Len() + count >= best
    ensures Complete(board, rest, best)
  {
    forall n: nat | n < best && SolvableIn(board, n) ensures exists t :: t in rest && Witness(board, t, n) {
      var t :| t in queued && Witness(board, t, n);
      if t == s {
        var r :| |r| <= n - s.moves.len && Apply(board, s.mask, r).Full();
        LowerBound(board, s.mask, r);
      }
      assert t in rest;
    }
  }

  /** The region of a queued state is closed under its last move. */
  lemma ClosedUnderLast(board: Board, s: State)
    requires |board.cells| == CELLS && StateOk(board, s)
    ensures Closed(board, s.mask, s.moves.Get(s.moves.Len() - 1))
  {
    var m := s.moves.Deref();
    assert m == m[..|m| - 1] + [m[|m| - 1]];
  }

  /** What expanding a state of region `mask`, last move `last` and `len`
      moves leaves behind: `children` are all the children of the region
      (the colours other than `last` that grow it), and each is queued with
      `len + 1` moves, unless the best is already at most that. */
  ghost predicate Expansion(board: Board, mask: Covered, last: Colour, len: nat,
                            children: seq<(Colour, Covered)>, todo: seq<State>, newBest: nat)
    requires |board.cells| == CELLS && mask.Valid()
  {
    (forall i :: 0 <= i < |children| ==> IsChild(board, mask, last, children[i])) &&
    (forall c: Colour :: c < COLOURS && c != last && Grows(board, mask, c) ==> Listed(children, c)) &&
    (forall j :: 0 <= j < |children| ==> newBest <= len + 1 || Queued(todo, len + 1, children[j].1))
  }

  /** A queued state that can lead to a solution of `n` moves has a
      productive next move, and room for it. */
  lemma WitnessProductive(board: Board, s: State, n: nat)
    requires board.Valid() && StateOk(board, s) && !NoMoveNeeded(board) && Witness(board, s, n)
    ensures s.moves.len + 1 <= n
    ensures ProductiveStart(board, s.mask, s.moves.Get(s.moves.Len() - 1), n - s.moves.len - 1)
  {
    var r :| |r| <= n - s.moves.len && Apply(board, s.mask, r).Full();
    ClosedUnderLast(board, s);
    FirstProductiveMove(board, s.mask, s.moves.Get(s.moves.Len() - 1), r);
    ProductiveStartWeaken(board, s.mask, s.moves.Get(s.moves.Len() - 1), |r| - 1, n - s.moves.len - 1);
  }

  /** A productive move from an expanded region is one of its children, so
      a state queued for it can lead to the same solution. */
  lemma SolvedThroughChild(board: Board, mask: Covered, last: Colour, len: nat,
                           children: seq<(Colour, Covered)>, todo: seq<State>, newBest: nat, n: nat)
    requires |board.cells| == CELLS && mask.Valid()
    requires Expansion(board, mask, last, len, children, todo, newBest)
    requires len + 1 <= n < newBest && ProductiveStart(board, mask, last, n - len - 1)
    ensures exists t :: t in todo && Witness(board, t, n)
  {
    var c: Colour :| c < COLOURS && c != last && Grows(board, mask, c) &&
      CanFinish(board, Flood(board, mask, c), n - len - 1);
    var j :| 0 <= j < |children| && children[j].0 == c;
    assert IsChild(board, mask, last, children[j]);
    var t :| t in todo && t.moves.len == len + 1 && t.mask == children[j].1;
    assert Witness(board, t, n);
  }

  /** Expanding a state keeps the search complete: a solution through it
      goes through one of its children, queued or beaten by the best. */
  lemma ExpandedComplete(board: Board, queued: seq<State>, s: State, rest: seq<State>,
                         children: seq<(Colour, Covered)>, todo: seq<State>, best: nat, newBest: nat)
    requires board.Valid() && !NoMoveNeeded(board) && Complete(board, queued, best) && StateOk(board, s)
    requires forall x :: x in queued && x != s ==> x in rest
    requires forall x :: x in rest ==> x in todo
    requires Expansion(board, s.mask, s.moves.Get(s.moves.Len() - 1), s.moves.Len(), children, todo, newBest)
    requires newBest <= best
    ensures Complete(board, todo, newBest)
  {
    forall n: nat | n < newBest && SolvableIn(board, n) ensures exists t :: t in todo && Witness(board, t, n) {
      var t :| t in queued && Witness(board, t, n);
      if t == s {
        WitnessProductive(board, s, n);
        SolvedThroughChild(board, s.mask, s.moves.Get(s.moves.Len() - 1), s.moves.Len(), children, todo, newBest, n);
      } else {
        assert t in todo;
      }
    }
  }

  /** With nothing left queued, no solution is shorter than the best. */
  lemma NothingBelowBest(board: Board, todo: seq<State>, best: nat)
    requires |board.cells| == CELLS && todo == [] && Complete(board, todo, best)
    ensures forall n: nat :: n < best ==> !SolvableIn(board, n)
  {
  }
}
