/** A search state and the priority queue of states. States are compared
    by score alone; the queue hands out a state of highest score. */
module States {
  import opened Grid
  import opened Coverage
  import opened Moves

  /** The moves made so far, the region they flood, and the score the state
      is queued with. */
  datatype State = State(score: nat, moves: TinyVec, mask: Covered)

  datatype Ordering = Less | Equal | Greater

  datatype Option<T> = None | Some(value: T)

  /** Equality of states looks at the score only. */
  predicate Eq(a: State, b: State) {
    a.score == b.score
  }

  /** Equality on states is an equivalence, as `Eq` demands, and it holds
      exactly when Cmp finds the states equal. */
  lemma EqIsEquivalence(a: State, b: State, c: State)
    ensures Eq(a, a)
    ensures Eq(a, b) ==> Eq(b, a)
    ensures Eq(a, b) && Eq(b, c) ==> Eq(a, c)
    ensures Eq(a, b) <==> Cmp(a, b) == Equal
  {
  }

  /** The total order on states: the order of their scores. */
  function Cmp(a: State, b: State): (o: Ordering)
    ensures o == Less <==> a.score < b.score
    ensures o == Equal <==> Eq(a, b)
    ensures o == Greater <==> a.score > b.score
  {
    if a.score < b.score then Less else if a.score == b.score then Equal else Greater
  }

  /** The partial order is total and agrees with Cmp. */
  function PartialCmp(a: State, b: State): (o: Option<Ordering>)
    ensures o == Some(Cmp(a, b))
  {
    if a.score < b.score then Some(Less)
    else if a.score > b.score then Some(Greater)
    else Some(Equal)
  }

  /** Cmp is antisymmetric and transitive, so it is a total preorder, as a
      BinaryHeap needs of its ordering. */
  lemma CmpIsOrder(a: State, b: State, c: State)
    ensures Cmp(a, b) == Less <==> Cmp(b, a) == Greater
    ensures Cmp(a, b) == Equal <==> Cmp(b, a) == Equal
    ensures Cmp(a, b) != Greater && Cmp(b, c) != Greater ==> Cmp(a, c) != Greater
    ensures Cmp(a, b) == Less && Cmp(b, c) != Greater ==> Cmp(a, c) == Less
  {
  }

  /** A non-empty list of states has a state of highest score. */
  lemma {:induction false} MaxExists(heap: seq<State>)
    requires heap != []
    ensures exists i :: 0 <= i < |heap| && forall j :: 0 <= j < |heap| ==> Cmp(heap[j], heap[i]) != Greater
  {
    if |heap| > 1 {
      var init := heap[..|heap| - 1];
      MaxExists(init);
      var i :| 0 <= i < |init| && forall j :: 0 <= j < |init| ==> Cmp(init[j], init[i]) != Greater;
      if heap[|heap| - 1].score > heap[i].score {
        assert forall j :: 0 <= j < |heap| ==> Cmp(heap[j], heap[|heap| - 1]) != Greater;
      } else {
        assert forall j :: 0 <= j < |heap| ==> Cmp(heap[j], heap[i]) != Greater;
      }
    } else {
      assert forall j :: 0 <= j < |heap| ==> Cmp(heap[j], heap[0]) != Greater;
    }
  }

  /** Removes a state of highest score from the queue; nothing when it is
      empty. Which of several such states is returned is left open. */
  method Pop(heap: seq<State>) returns (top: Option<State>, rest: seq<State>)
    ensures heap == [] ==> top == None && rest == []
    ensures heap != [] ==> top.Some? && multiset(heap) == multiset(rest) + multiset{top.value}
    ensures top.Some? ==> top.value in heap
    ensures top.Some? ==> forall s :: s in heap ==> Cmp(s, top.value) != Greater
  {
    if heap == [] {
      return None, [];
    }
    MaxExists(heap);
    var i :| 0 <= i < |heap| && forall j :: 0 <= j < |heap| ==> Cmp(heap[j], heap[i]) != Greater;
    top := Some(heap[i]);
    rest := heap[..i] + heap[i + 1..];
    assert heap == heap[..i] + [heap[i]] + heap[i + 1..];
  }

  ghost function Pow(base: nat, exp: nat): (p: nat)
    ensures base > 0 ==> p > 0
  {
    if exp == 0 then 1 else base * Pow(base, exp - 1)
  }

  /** The weight of a queued state: larger for lower scores, so that one
      state outweighs all the children it can have, each of higher score. */
  ghost function Weight(s: State): (w: nat)
    ensures w > 0
  {
    Pow(COLOURS + 1, if s.score < CELLS then CELLS - s.score else 0)
  }

  /** The summed weight of a queue; it falls with every pass of the search. */
  ghost function Potential(heap: seq<State>): nat {
    if heap == [] then 0 else Potential(heap[..|heap| - 1]) + Weight(heap[|heap| - 1])
  }

  lemma {:induction false} PotentialAppend(a: seq<State>, b: seq<State>)
    ensures Potential(a + b) == Potential(a) + Potential(b)
  {
    if b != [] {
      assert (a + b)[..|a + b| - 1] == a + b[..|b| - 1];
      PotentialAppend(a, b[..|b| - 1]);
    } else {
      assert a + b == a;
    }
  }

  /** The potential of a queue is that of any rearrangement of it. */
  lemma {:induction false} PotentialPermutation(a: seq<State>, b: seq<State>)
    requires multiset(a) == multiset(b)
    ensures Potential(a) == Potential(b)
  {
    if a != [] {
      var last := a[|a| - 1];
      assert last in multiset(b);
      var i :| 0 <= i < |b| && b[i] == last;
      var b' := b[..i] + b[i + 1..];
      assert b == b[..i] + [b[i]] + b[i + 1..];
      assert a == a[..|a| - 1] + [last];
      assert multiset(b) == multiset(b[..i]) + multiset{last} + multiset(b[i + 1..]);
      assert multiset(a) == multiset(a[..|a| - 1]) + multiset{last};
      assert multiset(b') == multiset(b[..i]) + multiset(b[i + 1..]);
      assert multiset(b') == multiset(b) - multiset{last};
      assert multiset(a[..|a| - 1]) == multiset(a) - multiset{last};
      PotentialPermutation(a[..|a| - 1], b');
      PotentialAppend(b[..i] + [b[i]], b[i + 1..]);
      PotentialAppend(b[..i], [b[i]]);
      PotentialAppend(b[..i], b[i + 1..]);
      assert Potential([b[i]]) == Weight(last) by {
        assert [b[i]][..0] == [];
      }
    } else {
      assert b == [];
    }
  }

  /** A higher score weighs at most a seventh as much. */
  lemma WeightOfChild(parent: State, child: State)
    requires parent.score < child.score && parent.score < CELLS
    ensures (COLOURS + 1) * Weight(child) <= Weight(parent)
  {
    var k := CELLS - parent.score;
    var j := if child.score < CELLS then CELLS - child.score else 0;
    PowMonotone(COLOURS + 1, j, k - 1);
  }

  lemma {:induction false} PowMonotone(base: nat, i: nat, j: nat)
    requires base > 0 && i <= j
    ensures Pow(base, i) <= Pow(base, j)
  {
    if i < j {
      PowMonotone(base, i, j - 1);
    }
  }
}
