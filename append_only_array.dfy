/**
 * An append-only, forward-iterable array: appending is allowed only when the
 * cursor is at the end, and `next` reads the elements in append order.
 */
module AppendOnlyArrays {
  import opened GrowableBuffers

  class AppendOnlyArray<T(0)> {
    const buffer: GrowableBuffer<T>
    var cursor: nat
    var count: nat

    ghost predicate Valid()
      reads this, buffer
    {
      buffer.Valid() && cursor <= count <= buffer.capacity
    }

    /** The appended elements, in append order. */
    ghost function Elements(): seq<T>
      reads this, buffer, buffer.base
      requires Valid()
    {
      buffer.base[..count]
    }

    constructor (initialCapacity: nat)
      ensures Valid() && fresh(buffer) && fresh(buffer.base)
      ensures Elements() == [] && cursor == 0
    {
      buffer := new GrowableBuffer(initialCapacity);
      cursor := 0;
      count := 0;
    }

    function HasNext(): (r: bool)
      reads this, buffer
      requires Valid()
      ensures r <==> cursor < |Elements()|
    {
      cursor < count
    }

    method ResetCursor()
      requires Valid()
      modifies this
      ensures Valid() && cursor == 0 && Elements() == old(Elements())
    {
      cursor := 0;
    }

    method Reset()
      requires Valid()
      modifies this
      ensures Valid() && cursor == 0 && Elements() == []
    {
      cursor := 0;
      count := 0;
    }

    method Append(x: T)
      requires Valid() && cursor == count
      modifies this, buffer, buffer.base
      ensures Valid()
      ensures Elements() == old(Elements()) + [x] && cursor == |Elements()|
      ensures buffer.base == old(buffer.base) || fresh(buffer.base)
    {
      if count == buffer.capacity {
        buffer.GrowMoving(count);
      }
      buffer.base[cursor] := x;
      cursor := cursor + 1;
      count := count + 1;
    }

    method Next() returns (x: T)
      requires Valid() && cursor < count
      modifies this
      ensures Valid() && Elements() == old(Elements())
      ensures x == Elements()[old(cursor)] && cursor == old(cursor) + 1
    {
      x := buffer.base[cursor];
      cursor := cursor + 1;
    }

    /** `forEach`: every element, in append order, whatever the cursor. */
    method ForEach() returns (visited: seq<T>)
      requires Valid()
      ensures visited == Elements()
    {
      visited := buffer.Visit(count);
    }
  }
}
