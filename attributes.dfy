/**
 * An element's attributes as libxml's SAX2 start-element callback passes
 * them: five pointer slots per attribute (local name, prefix, namespace URI,
 * value start, value end), read through `UnsafeAttributes` and walked by the
 * attribute iterator.
 */
module Attributes {
  import opened Wrappers
  import opened StringPointers
  import opened Names

  datatype UnsafeAttribute = UnsafeAttribute(name: UnsafeName, unsafeValue: UnsafeStringPointer)

  /** `ptr` is the slot array (absent when libxml passes null), `count` the attribute count. */
  datatype UnsafeAttributes = UnsafeAttributes(ptr: Option<seq<Option<Pointer>>>, count: int)

  /**
   * What libxml guarantees of the five slots of attribute `i`, which start
   * at `5 * i`: local name, prefix, namespace URI, value start, value end.
   */
  predicate SlotsWellFormed(slots: seq<Option<Pointer>>, i: int)
  {
    0 <= i && 5 * i + 5 <= |slots| &&
    var b := 5 * i;
    (slots[b].Some? ==> IsNullTerminated(slots[b].value)) &&
    (slots[b + 2].Some? ==> IsNullTerminated(slots[b + 2].value)) &&
    (slots[b + 3].Some? && slots[b + 4].Some? ==>
      slots[b + 3].value.buffer == slots[b + 4].value.buffer &&
      slots[b + 3].value.offset <= slots[b + 4].value.offset <= |slots[b + 4].value.buffer|)
  }

  predicate WellFormed(a: UnsafeAttributes)
  {
    0 <= a.count &&
    (a.ptr.Some? ==> forall i :: 0 <= i < a.count ==> SlotsWellFormed(a.ptr.value, i))
  }

  /** The value bytes between the start and end pointers of a well-formed attribute. */
  function ValueBetween(start: Pointer, end: Pointer): seq<Byte>
    requires start.buffer == end.buffer && start.offset <= end.offset <= |end.buffer|
  {
    end.buffer[start.offset..end.offset]
  }

  /**
   * `attribute(at:)`: no attribute when the slot array is absent or the
   * local name, value start or value end slot is null; the namespace slot
   * may be null.
   */
  function AttributeAt(a: UnsafeAttributes, i: int): (r: Option<UnsafeAttribute>)
    requires WellFormed(a) && 0 <= i < a.count
    ensures r.Some? <==> IsPresent(a, i)
  {
    if a.ptr.None? then None
    else
      var slots := a.ptr.value;
      assert SlotsWellFormed(slots, i);
      var b := 5 * i;
      if slots[b].None? || slots[b + 3].None? || slots[b + 4].None? then None
      else
        var start, end := slots[b + 3].value, slots[b + 4].value;
        var valueLength := end.offset - start.offset;
        Some(UnsafeAttribute(
          UnsafeName(OptionalFromNullTerminated(slots[b + 2]), FromNullTerminated(slots[b].value)),
          UnsafeStringPointer(start, valueLength)))
  }

  /**
   * The attribute read from the slots has the local name and namespace URI
   * of the null-terminated name slots and the value between the two value
   * pointers.
   */
  lemma AttributeAtReadsSlots(a: UnsafeAttributes, i: int)
    requires WellFormed(a) && IsPresent(a, i)
    ensures ReadableName(AttributeAt(a, i).value.name) && Readable(AttributeAt(a, i).value.unsafeValue)
    ensures AsName(AttributeAt(a, i).value.name) == SlotName(a, i)
    ensures Bytes(AttributeAt(a, i).value.unsafeValue) == SlotValue(a, i)
  {
    assert SlotsWellFormed(a.ptr.value, i);
  }

  /** Attribute `i` exists: its local name, value start and value end slots are set. */
  predicate IsPresent(a: UnsafeAttributes, i: int)
    requires WellFormed(a)
  {
    0 <= i < a.count && a.ptr.Some? &&
    var b := 5 * i;
    assert SlotsWellFormed(a.ptr.value, i);
    a.ptr.value[b].Some? && a.ptr.value[b + 3].Some? && a.ptr.value[b + 4].Some?
  }

  /** The value bytes libxml delimited for present attribute `i`. */
  function SlotValue(a: UnsafeAttributes, i: int): seq<Byte>
    requires WellFormed(a) && IsPresent(a, i)
  {
    var slots, b := a.ptr.value, 5 * i;
    assert SlotsWellFormed(slots, i);
    ValueBetween(slots[b + 3].value, slots[b + 4].value)
  }

  /** Attribute `i` exists and its name equals `name`. */
  predicate NameMatches(a: UnsafeAttributes, name: Name, i: int)
    requires WellFormed(a)
  {
    IsPresent(a, i) && SlotName(a, i) == name
  }

  /** The name libxml stored in the slots of present attribute `i`. */
  function SlotName(a: UnsafeAttributes, i: int): Name
    requires WellFormed(a) && IsPresent(a, i)
  {
    var slots, b := a.ptr.value, 5 * i;
    assert SlotsWellFormed(slots, i);
    Name(if slots[b + 2].Some? then Some(Namespace(CString(slots[b + 2].value))) else None,
         CString(slots[b].value))
  }

  /** The first attribute at or after `from` whose name is `name`. */
  function FirstMatch(a: UnsafeAttributes, name: Name, from: nat): (r: Option<nat>)
    requires WellFormed(a)
    ensures r.Some? ==> from <= r.value < a.count && NameMatches(a, name, r.value)
    ensures r.Some? ==> forall j :: from <= j < r.value ==> !NameMatches(a, name, j)
    ensures r.None? ==> forall j :: from <= j < a.count ==> !NameMatches(a, name, j)
    decreases a.count - from
  {
    if from >= a.count then None
    else if NameMatches(a, name, from) then Some(from)
    else FirstMatch(a, name, from + 1)
  }

  /** The value of the first attribute named `name`, as the subscript promises. */
  function Lookup(a: UnsafeAttributes, name: Name): Option<seq<Byte>>
    requires WellFormed(a)
  {
    match FirstMatch(a, name, 0)
    case None => None
    case Some(i) => Some(SlotValue(a, i))
  }

  /** `subscript(_: Name)`: scans the attributes in order and returns the first match's value. */
  method Subscript(a: UnsafeAttributes, name: Name) returns (r: Option<seq<Byte>>)
    requires WellFormed(a)
    ensures r == Lookup(a, name)
    ensures r.Some? <==> exists j :: NameMatches(a, name, j)
  {
    var i := 0;
    while i < a.count
      invariant 0 <= i <= a.count
      invariant FirstMatch(a, name, 0) == FirstMatch(a, name, i)
    {
      var attribute := AttributeAt(a, i);
      if attribute.Some? {
        AttributeAtReadsSlots(a, i);
      }
      if attribute.Some? && Equals(attribute.value.name, name) {
        return Some(Bytes(attribute.value.unsafeValue));
      }
      i := i + 1;
    }
    return None;
  }

  /** The first present attribute at or after `from`. */
  function NextPresent(a: UnsafeAttributes, from: nat): (r: Option<nat>)
    requires WellFormed(a)
    ensures r.Some? ==> from <= r.value && IsPresent(a, r.value)
    ensures r.Some? ==> forall j :: from <= j < r.value ==> !IsPresent(a, j)
    ensures r.None? ==> forall j :: from <= j < a.count ==> !IsPresent(a, j)
    decreases a.count - from
  {
    if from >= a.count then None
    else if IsPresent(a, from) then Some(from)
    else NextPresent(a, from + 1)
  }

  /** The indices of the present attributes at or after `from`, in document order. */
  function PresentFrom(a: UnsafeAttributes, from: nat): seq<nat>
    requires WellFormed(a)
    decreases a.count - from
  {
    if from >= a.count then []
    else (if IsPresent(a, from) then [from] else []) + PresentFrom(a, from + 1)
  }

  /** The indices an iterator positioned before `from` visits by repeated advancing. */
  function Walk(a: UnsafeAttributes, from: nat): seq<nat>
    requires WellFormed(a)
    decreases a.count - from
  {
    match NextPresent(a, from)
    case None => []
    case Some(j) => [j] + Walk(a, j + 1)
  }

  lemma WalkStep(a: UnsafeAttributes, from: nat, j: nat)
    requires WellFormed(a) && NextPresent(a, from) == Some(j)
    ensures Walk(a, from) == [j] + Walk(a, j + 1)
  {
  }

  lemma {:induction false} PresentFromSkipsAbsent(a: UnsafeAttributes, from: nat, to: int)
    requires WellFormed(a) && from <= to
    requires forall j :: from <= j < to ==> !IsPresent(a, j)
    ensures PresentFrom(a, from) == PresentFrom(a, to)
    decreases (to as int) - (from as int)
  {
    if from < to && from < a.count {
      PresentFromSkipsAbsent(a, from + 1, to);
    }
  }

  /** Advancing one attribute at a time visits exactly the present attributes, in document order. */
  lemma {:induction false} WalkEnumeratesPresent(a: UnsafeAttributes, from: nat)
    requires WellFormed(a)
    ensures Walk(a, from) == PresentFrom(a, from)
    decreases a.count - from
  {
    match NextPresent(a, from)
    case None =>
      PresentFromSkipsAbsent(a, from, if from <= a.count then a.count else from);
    case Some(j) =>
      PresentFromSkipsAbsent(a, from, j);
      WalkEnumeratesPresent(a, j + 1);
  }

  /**
   * An iterator standing on present attribute `index`, holding its value
   * `attribute`, after visiting `visited`: the walk's indices up to and
   * including `index`.
   */
  ghost predicate Positioned(a: UnsafeAttributes, index: int, attribute: UnsafeAttribute, visited: seq<nat>)
  {
    WellFormed(a) && 0 <= index < a.count &&
    AttributeAt(a, index) == Some(attribute) &&
    visited + Walk(a, index + 1) == Walk(a, 0)
  }

  /** Standing on the next present attribute extends the visited prefix of the walk by it. */
  lemma WalkAdvance(a: UnsafeAttributes, visited: seq<nat>, index: int, attribute: UnsafeAttribute, i: nat)
    requires Positioned(a, index, attribute, visited)
    requires NextPresent(a, index + 1) == Some(i)
    ensures 0 <= i < a.count && AttributeAt(a, i).Some?
    ensures Positioned(a, i, AttributeAt(a, i).value, visited + [i])
  {
    WalkStep(a, index + 1, i);
    ghost var rest := Walk(a, i + 1);
    assert (visited + [i]) + rest == visited + ([i] + rest);
  }

  /** When no present attribute follows, the visited indices are all the present ones. */
  lemma WalkEnds(a: UnsafeAttributes, visited: seq<nat>, index: int)
    requires WellFormed(a) && 0 <= index
    requires visited + Walk(a, index + 1) == Walk(a, 0)
    requires NextPresent(a, index + 1).None?
    ensures visited == PresentFrom(a, 0)
  {
    assert Walk(a, index + 1) == [];
    WalkEnumeratesPresent(a, 0);
  }

  /**
   * The iterator state (`AttributeIterator.Raw`): always positioned on a
   * present attribute. `visited` records the indices it has stood on.
   */
  class RawAttributeIterator {
    const attributes: UnsafeAttributes
    var attribute: UnsafeAttribute
    var index: int
    ghost var visited: seq<nat>

    ghost predicate Valid()
      reads this
    {
      Positioned(attributes, index, attribute, visited)
    }

    constructor (attributes: UnsafeAttributes, index: int, attribute: UnsafeAttribute, ghost visited: seq<nat>)
      ensures this.attributes == attributes && this.index == index
      ensures this.attribute == attribute && this.visited == visited
    {
      this.attributes := attributes;
      this.index := index;
      this.attribute := attribute;
      this.visited := visited;
    }

    /** `init?(over:)`: positioned on the first present attribute, or none when there is none. */
    static method Over(attributes: UnsafeAttributes) returns (r: RawAttributeIterator?)
      requires WellFormed(attributes)
      ensures r == null <==> NextPresent(attributes, 0).None?
      ensures r != null ==>
        fresh(r) && r.Valid() && r.attributes == attributes &&
        NextPresent(attributes, 0) == Some(r.index) && r.visited == [r.index]
    {
      var i := 0;
      while i < attributes.count
        invariant 0 <= i <= attributes.count || i == 0
        invariant NextPresent(attributes, 0) == NextPresent(attributes, i)
      {
        var attribute := AttributeAt(attributes, i);
        if attribute.Some? {
          r := new RawAttributeIterator(attributes, i, attribute.value, [i]);
          return;
        }
        i := i + 1;
      }
      r := null;
    }

    /** `next()`: moves to the following present attribute; when there is none nothing changes. */
    method Next() returns (advanced: bool)
      requires Valid()
      modifies this
      ensures Valid()
      ensures advanced <==> NextPresent(attributes, old(index) + 1).Some?
      ensures advanced ==> Some(index) == NextPresent(attributes, old(index) + 1) && visited == old(visited) + [index]
      ensures !advanced ==> index == old(index) && attribute == old(attribute) && visited == old(visited)
      ensures !advanced ==> visited == PresentFrom(attributes, 0)
    {
      var i := index + 1;
      while i < attributes.count
        invariant index + 1 <= i && Valid()
        invariant index == old(index) && attribute == old(attribute) && visited == old(visited)
        invariant NextPresent(attributes, index + 1) == NextPresent(attributes, i)
      {
        var candidate := AttributeAt(attributes, i);
        if candidate.Some? {
          assert NextPresent(attributes, index + 1) == Some(i);
          MoveTo(i, candidate.value);
          return true;
        }
        i := i + 1;
      }
      WalkEnds(attributes, visited, index);
      return false;
    }

    /** The body of the `for` loop in `next()` once attribute `i` is present: the iterator stands on it. */
    method MoveTo(i: nat, candidate: UnsafeAttribute)
      requires Valid() && NextPresent(attributes, index + 1) == Some(i)
      requires 0 <= i < attributes.count && AttributeAt(attributes, i) == Some(candidate)
      modifies this
      ensures Valid()
      ensures index == i && attribute == candidate && visited == old(visited) + [i]
    {
      WalkAdvance(attributes, visited, index, attribute, i);
      visited := visited + [i];
      index := i;
      attribute := candidate;
    }

    /** `name()`: the current attribute's name; no namespace when it has none. */
    function Name(): (n: Name)
      reads this
      requires Valid()
      ensures n == SlotName(attributes, index)
    {
      AttributeAtReadsSlots(attributes, index);
      AsName(attribute.name)
    }

    /** `value()`. */
    function Value(): (v: seq<Byte>)
      reads this
      requires Valid()
      ensures v == SlotValue(attributes, index)
    {
      AttributeAtReadsSlots(attributes, index);
      Bytes(attribute.unsafeValue)
    }

    /** `has(name:)`: exact match, so an attribute without a namespace matches only a name without one. */
    function HasName(other: Name): (r: bool)
      reads this
      requires Valid()
      ensures r <==> NameMatches(attributes, other, index)
    {
      AttributeAtReadsSlots(attributes, index);
      Equals(attribute.name, other)
    }

    /** `has(value:)`. */
    function HasValue(other: seq<Byte>): (r: bool)
      reads this
      requires Valid()
      ensures r <==> SlotValue(attributes, index) == other
    {
      AttributeAtReadsSlots(attributes, index);
      EqualsPointer(attribute.unsafeValue, WithString(other))
    }
  }
}
