/** `utils.Stack`. */
module Stacks {
  import opened Results

  class Stack<T> {
    var elements: seq<T>

    constructor ()
      ensures elements == []
    {
      elements := [];
    }

    method Push(value: T)
      modifies this
      ensures elements == old(elements) + [value]
    {
      elements := elements + [value];
    }

    /** An empty stack is left alone and reported. */
    method Pop() returns (r: Option<T>)
      modifies this
      ensures r.None? <==> old(elements) == []
      ensures r.None? ==> elements == old(elements)
      ensures r.Some? ==> old(elements) == elements + [r.value]
    {
      if |elements| == 0 {
        return None;
      }
      var a := elements;
      elements := a[..|a| - 1];
      return Some(a[|a| - 1]);
    }

    method IsEmpty() returns (b: bool)
      ensures b <==> elements == []
    {
      b := |elements| == 0;
    }
  }
}
