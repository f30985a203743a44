/** A last-in, first-out stack over a growable buffer. */
module Stacks {
  import opened Wrappers
  import opened GrowableBuffers

  class Stack<T(0)> {
    const buffer: GrowableBuffer<T>
    var count: nat

    ghost predicate Valid()
      reads this, buffer
    {
      buffer.Valid() && count <= buffer.capacity
    }

    /** The elements from the bottom of the stack to its top. */
    ghost function Elements(): seq<T>
      reads this, buffer, buffer.base
      requires Valid()
    {
      buffer.base[..count]
    }

    constructor (initialCapacity: nat)
      ensures Valid() && fresh(buffer) && fresh(buffer.base)
      ensures Elements() == []
    {
      buffer := new GrowableBuffer(initialCapacity);
      count := 0;
    }

    function IsEmpty(): (r: bool)
      reads this, buffer, buffer.base
      requires Valid()
      ensures r <==> Elements() == []
    {
      count == 0
    }

    /** The top element, if any (the source hands out a pointer to it; reading through it is this). */
    function Last(): (r: Option<T>)
      reads this, buffer, buffer.base
      requires Valid()
      ensures r.None? <==> Elements() == []
      ensures r.Some? ==> r.value == Elements()[|Elements()| - 1]
    {
      if count == 0 then None else Some(buffer.base[count - 1])
    }

    /** Writing through the pointer `last` returns: only the top element changes. */
    method SetLast(x: T)
      requires Valid() && count > 0
      modifies buffer.base
      ensures Valid()
      ensures Elements() == old(Elements())[..count - 1] + [x]
    {
      buffer.base[count - 1] := x;
    }

    method Push(x: T)
      requires Valid()
      modifies this, buffer, buffer.base
      ensures Valid()
      ensures Elements() == old(Elements()) + [x]
      ensures buffer.base == old(buffer.base) || fresh(buffer.base)
    {
      if count == buffer.capacity {
        buffer.GrowMoving(count);
      }
      buffer.base[count] := x;
      count := count + 1;
    }

    /** Removes the top element and hands it back, as the source passes it to `body` before dropping it. */
    method Pop() returns (top: T)
      requires Valid() && count > 0
      modifies this
      ensures Valid()
      ensures old(Elements()) == Elements() + [top]
    {
      top := buffer.base[count - 1];
      count := count - 1;
    }

    /** `forEach`: the elements in the order visited, bottom to top. */
    method ForEach() returns (visited: seq<T>)
      requires Valid()
      ensures visited == Elements()
    {
      visited := buffer.Visit(count);
    }
  }
}
