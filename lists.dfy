// The list of TCASM_list.c. The source links nodes through prev/next
// pointers; here the list is the sequence of node values from first to last,
// and a node pointer is the node's position in that sequence (None plays the
// role of the NULL pointer).
module Lists {
  import opened Common

  class DList<T> {
    /** value_size: the byte size of one value; 0 marks a list calloc left untouched. */
    var valueSize: nat
    /** The values of the nodes, first to last. */
    var elems: seq<T>

    /** The node after position p, or None when p is the last node (next). */
    function Next(p: nat): (r: Option<nat>)
      reads this
      requires p < |elems|
      ensures r.Some? <==> p + 1 < |elems|
      ensures r.Some? ==> r.value == p + 1
    {
      if p + 1 < |elems| then Some(p + 1) else None
    }

    /** The first node, or None for an empty list (first). */
    function First(): (r: Option<nat>)
      reads this
      ensures r.Some? <==> |elems| > 0
      ensures r.Some? ==> r.value == 0
    {
      if |elems| > 0 then Some(0) else None
    }

    /** A list object as calloc leaves it: every field zero. */
    constructor Zeroed()
      ensures valueSize == 0 && elems == []
    {
      valueSize := 0;
      elems := [];
    }

    /** TCASM_list_init: an empty list whose values have the given size. */
    method Init(valueSize: nat)
      modifies this
      ensures this.valueSize == valueSize && elems == []
    {
      this.valueSize := valueSize;
      elems := [];
    }

    /**
     * TCASM_list_insert: v becomes the node immediately before position, or
     * the last node when position is None; every other node keeps its order.
     */
    method Insert(position: Option<nat>, v: T)
      requires position.Some? ==> position.value < |elems|
      modifies this
      ensures valueSize == old(valueSize)
      ensures position.None? ==> elems == old(elems) + [v]
      ensures position.Some? ==>
        elems == old(elems)[..position.value] + [v] + old(elems)[position.value..]
    {
      if position.Some? {
        elems := elems[..position.value] + [v] + elems[position.value..];
      } else {
        elems := elems + [v];
      }
    }

    /** TCASM_list_erase: the node at position is removed; None removes nothing. */
    method Erase(position: Option<nat>)
      requires position.Some? ==> position.value < |elems|
      modifies this
      ensures valueSize == old(valueSize)
      ensures position.None? ==> elems == old(elems)
      ensures position.Some? ==>
        elems == old(elems)[..position.value] + old(elems)[position.value + 1..]
    {
      if position.Some? {
        elems := elems[..position.value] + elems[position.value + 1..];
      }
    }
  }

  /** Erasing the node just inserted gives back the original list. */
  lemma InsertThenErase<T>(s: seq<T>, p: nat, v: T)
    requires p <= |s|
    ensures var t := s[..p] + [v] + s[p..];
      |t| == |s| + 1 && t[p] == v && t[..p] + t[p + 1..] == s
  {
    var t := s[..p] + [v] + s[p..];
    assert t[..p] == s[..p];
    assert t[p + 1..] == s[p..];
  }
}
