/** The fixed-capacity move list: MAX_MOVES slots and a length. It is a
    `Copy` value; every branch of the search works on its own copy. */
module Moves {
  import opened Grid

  datatype TinyVec = TinyVec(elements: seq<Colour>, len: nat) {

    /** MAX_MOVES slots, of which the first `len` are in use. */
    predicate Valid() {
      |elements| == MAX_MOVES && len <= MAX_MOVES
    }

    /** The slots in use, in push order. */
    function Deref(): (s: seq<Colour>)
      requires Valid()
      ensures |s| == len
    {
      elements[..len]
    }

    function Len(): (n: nat)
      requires Valid()
      ensures n == |Deref()| && n <= MAX_MOVES
    {
      len
    }

    /** Reads slot `idx`; any slot of the storage may be read, and a slot in
        use holds the element pushed there. */
    function Get(idx: nat): (e: Colour)
      requires Valid() && idx < MAX_MOVES
      ensures idx < len ==> e == Deref()[idx]
    {
      elements[idx]
    }

    /** Writes `element` into the first free slot and counts it. Only a list
        with a free slot can be pushed onto. */
    function Push(element: Colour): (r: TinyVec)
      requires Valid() && len < MAX_MOVES
      ensures r.Valid() && r.Len() == Len() + 1
      ensures r.Deref() == Deref() + [element]
    {
      var r := TinyVec(elements[len := element], len + 1);
      assert r.elements[..r.len] == elements[..len] + [element];
      r
    }
  }

  /** An empty list: every slot zero, nothing in use. */
  function NewTinyVec(): (v: TinyVec)
    ensures v.Valid() && v.Len() == 0 && v.Deref() == []
    ensures forall i :: 0 <= i < MAX_MOVES ==> v.Get(i) == 0
  {
    TinyVec(seq(MAX_MOVES, _ => 0), 0)
  }

  /** Pushing and then reading the last slot gives back what was pushed;
      the slots before it are as they were. */
  lemma PushThenGet(v: TinyVec, element: Colour)
    requires v.Valid() && v.len < MAX_MOVES
    ensures v.Push(element).Get(v.Len()) == element
    ensures forall i :: 0 <= i < v.Len() ==> v.Push(element).Get(i) == v.Get(i)
  {
    var r := v.Push(element);
    assert r.Deref()[v.Len()] == element;
    forall i | 0 <= i < v.Len() ensures r.Get(i) == v.Get(i) {
      assert r.Deref()[i] == v.Deref()[i];
    }
  }
}
