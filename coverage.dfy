/** The coverage mask: one bit per board cell, set for the cells that belong
    to the flooded region. The packed words of the implementation are seen
    here as a sequence of CELLS booleans. */
module Coverage {
  import opened Grid

  /** The number of `true` entries. The program counts covered cells as a
      sum of popcounts over packed words; those words are not modelled. */
  function CountTrue(s: seq<bool>): (n: nat)
    ensures n <= |s|
  {
    if s == [] then 0 else CountTrue(s[..|s| - 1]) + (if s[|s| - 1] then 1 else 0)
  }

  /** Every position set in `small` is set in `big`. */
  ghost predicate Includes(big: seq<bool>, small: seq<bool>) {
    |big| == |small| && forall p :: 0 <= p < |small| && small[p] ==> big[p]
  }

  lemma {:induction false} CountTrueAllSet(s: seq<bool>)
    ensures CountTrue(s) == |s| <==> forall p :: 0 <= p < |s| ==> s[p]
  {
    if s != [] {
      var init := s[..|s| - 1];
      CountTrueAllSet(init);
      assert forall p :: 0 <= p < |init| ==> init[p] == s[p];
    }
  }

  lemma {:induction false} CountTrueSet(s: seq<bool>, i: nat)
    requires i < |s|
    ensures CountTrue(s[i := true]) == CountTrue(s) + (if s[i] then 0 else 1)
  {
    var t := s[i := true];
    if i < |s| - 1 {
      assert t[..|t| - 1] == s[..|s| - 1][i := true];
      CountTrueSet(s[..|s| - 1], i);
    } else {
      assert t[..|t| - 1] == s[..|s| - 1];
    }
  }

  lemma {:induction false} CountTrueGrows(big: seq<bool>, small: seq<bool>)
    requires Includes(big, small)
    ensures CountTrue(small) <= CountTrue(big)
    ensures big != small ==> CountTrue(small) < CountTrue(big)
  {
    if small != [] {
      var n := |small| - 1;
      assert Includes(big[..n], small[..n]);
      CountTrueGrows(big[..n], small[..n]);
      if big != small && big[..n] == small[..n] {
        assert big[n] != small[n];
      }
    }
  }

  /** The set of indices whose bit is set. */
  ghost function Members(s: seq<bool>): set<nat> {
    set p: nat | p < |s| && s[p]
  }

  lemma {:induction false} CountTrueIsCardinality(s: seq<bool>)
    ensures CountTrue(s) == |Members(s)|
  {
    if s != [] {
      var n := |s| - 1;
      CountTrueIsCardinality(s[..n]);
      if s[n] {
        assert Members(s) == Members(s[..n]) + {n};
      } else {
        assert Members(s) == Members(s[..n]);
      }
    }
  }

  datatype Covered = Covered(bits: seq<bool>) {

    predicate Valid() { |bits| == CELLS }

    /** Every cell is in the region. */
    predicate Full()
      requires Valid()
    {
      forall p :: 0 <= p < CELLS ==> bits[p]
    }

    /** The covered positions. */
    ghost function Cells(): set<nat> { Members(bits) }

    /** Tests the bit of `pos`: whether the cell is in the region. */
    function GetRaw(pos: nat): (b: bool)
      requires Valid() && pos < CELLS
      ensures b <==> pos in Cells()
    {
      bits[pos]
    }

    /** Sets the bit of `pos` (an OR into its storage word). */
    function SetRaw(pos: nat): (r: Covered)
      requires Valid() && pos < CELLS
      ensures r.Valid() && r.GetRaw(pos)
      ensures forall q :: 0 <= q < CELLS && q != pos ==> r.GetRaw(q) == GetRaw(q)
      ensures r.Cells() == Cells() + {pos}
      ensures r.Score() == if GetRaw(pos) then Score() else Score() + 1
    {
      CountTrueSet(bits, pos);
      assert Members(bits[pos := true]) == Members(bits) + {pos};
      Covered(bits[pos := true])
    }

    /** Number of covered cells. */
    function Score(): (n: nat)
      requires Valid()
      ensures n == |Cells()| && n <= CELLS
      ensures n == CELLS <==> Full()
    {
      CountTrueIsCardinality(bits);
      CountTrueAllSet(bits);
      CountTrue(bits)
    }
  }

  /** The initial mask: only the origin cell (column 0, row 0) is covered. */
  function New(): (c: Covered)
    ensures c.Valid() && c.Cells() == {0} && c.Score() == 1
    ensures forall p :: 0 <= p < CELLS ==> (c.GetRaw(p) <==> p == 0)
  {
    var empty := Covered(seq(CELLS, _ => false));
    assert empty.Cells() == {};
    empty.SetRaw(Coord(0, 0))
  }

  /** A mask that is a superset of another and differs from it has a strictly
      higher score. */
  lemma ScoreGrows(big: Covered, small: Covered)
    requires big.Valid() && small.Valid() && Includes(big.bits, small.bits)
    ensures small.Score() <= big.Score()
    ensures big != small ==> small.Score() < big.Score()
  {
    CountTrueGrows(big.bits, small.bits);
  }
}
