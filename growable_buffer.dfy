/**
 * A buffer with an exponential growth strategy: growing allocates a new
 * buffer of twice the capacity (at least two), moves the live prefix over
 * and replaces the old buffer.
 */
module GrowableBuffers {
  /** The capacity after one growth step: double the old one, counting an empty buffer as one. */
  function GrownCapacity(capacity: nat): (r: nat)
    ensures r > capacity && r >= 2
    ensures r == 2 * capacity || (capacity == 0 && r == 2)
  {
    (if capacity < 1 then 1 else capacity) * 2
  }

  class GrowableBuffer<T(0)> {
    var base: array<T>
    var capacity: nat

    ghost predicate Valid()
      reads this
    {
      base.Length == capacity
    }

    constructor (initialCapacity: nat)
      ensures Valid() && capacity == initialCapacity && fresh(base)
    {
      base := new T[initialCapacity];
      capacity := initialCapacity;
    }

    /**
     * `grow(moving:)`: a fresh buffer of the grown capacity receives the
     * first `count` elements in order, and becomes the buffer.
     */
    method GrowMoving(count: nat)
      requires Valid() && count <= capacity
      modifies this
      ensures Valid() && fresh(base)
      ensures capacity == GrownCapacity(old(capacity))
      ensures base[..count] == old(base[..count])
    {
      var newCapacity := GrownCapacity(capacity);
      var newBuffer := new T[newCapacity];
      forall i | 0 <= i < count {
        newBuffer[i] := base[i];
      }
      base := newBuffer;
      capacity := newCapacity;
    }

    /**
     * The walk both `forEach`s take over their buffer: the first `count`
     * elements, one pointer step at a time from the base.
     */
    method Visit(count: nat) returns (visited: seq<T>)
      requires Valid() && count <= capacity
      ensures visited == base[..count]
    {
      visited := [];
      var i := 0;
      while i < count
        invariant 0 <= i <= count
        invariant visited == base[..i]
      {
        visited := visited + [base[i]];
        i := i + 1;
      }
    }
  }
}
