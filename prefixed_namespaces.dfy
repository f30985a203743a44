/**
 * The namespace declarations libxml passes with a start-element callback:
 * two pointer slots (prefix, URI) per declaration, either of which may be
 * null.
 */
module PrefixedNamespaces {
  import opened Wrappers
  import opened StringPointers

  datatype UnsafePrefixedNamespace = UnsafePrefixedNamespace(
    prefix: Option<UnsafeNullTerminatedStringPointer>,
    uri: UnsafeNullTerminatedStringPointer)

  datatype UnsafePrefixedNamespaces = UnsafePrefixedNamespaces(slots: seq<Option<Pointer>>, count: int)

  /** What libxml guarantees of the two slots of declaration `i`. */
  predicate DeclarationWellFormed(slots: seq<Option<Pointer>>, i: int)
  {
    0 <= i && 2 * i + 2 <= |slots| &&
    (slots[2 * i].Some? ==> IsNullTerminated(slots[2 * i].value)) &&
    (slots[2 * i + 1].Some? ==> IsNullTerminated(slots[2 * i + 1].value))
  }

  predicate WellFormed(ns: UnsafePrefixedNamespaces)
  {
    0 <= ns.count && forall i :: 0 <= i < ns.count ==> DeclarationWellFormed(ns.slots, i)
  }

  /** `init?(ptr:count:)`: a null slot array gives no declarations at all. */
  function Make(ptr: Option<seq<Option<Pointer>>>, count: int): (r: Option<UnsafePrefixedNamespaces>)
    ensures r.None? <==> ptr.None?
    ensures r.Some? ==> r.value.slots == ptr.value && r.value.count == count
  {
    if ptr.None? then None else Some(UnsafePrefixedNamespaces(ptr.value, count))
  }

  /** `tuple(at:in:)`: the prefix and URI of declaration `i`, each absent when its slot is null. */
  function Tuple(ns: UnsafePrefixedNamespaces, i: int): (r: (Option<UnsafeNullTerminatedStringPointer>, Option<UnsafeNullTerminatedStringPointer>))
    requires WellFormed(ns) && 0 <= i < ns.count
    ensures DeclarationWellFormed(ns.slots, i)
    ensures r.0.Some? ==> IsNullTerminated(r.0.value.raw)
    ensures r.1.Some? ==> IsNullTerminated(r.1.value.raw)
    ensures r.0.None? <==> ns.slots[2 * i].None?
    ensures r.1.None? <==> ns.slots[2 * i + 1].None?
  {
    assert DeclarationWellFormed(ns.slots, i);
    (OptionalNullTerminated(ns.slots[2 * i]), OptionalNullTerminated(ns.slots[2 * i + 1]))
  }

  /** The declarations from index `from` on that have a URI, in order: what iteration yields. */
  function EntriesFrom(ns: UnsafePrefixedNamespaces, from: nat): seq<UnsafePrefixedNamespace>
    requires WellFormed(ns)
    decreases ns.count - from
  {
    if from >= ns.count then []
    else
      var (prefix, uri) := Tuple(ns, from);
      (if uri.Some? then [UnsafePrefixedNamespace(prefix, uri.value)] else []) + EntriesFrom(ns, from + 1)
  }

  /** The state of `makeIterator()`'s closure: the index of the next declaration to look at. */
  class NamespaceIterator {
    const namespaces: UnsafePrefixedNamespaces
    var namespaceIndex: int

    ghost predicate Valid()
      reads this
    {
      WellFormed(namespaces) && 0 <= namespaceIndex
    }

    /** What the iterator has yet to yield. */
    ghost function Remaining(): seq<UnsafePrefixedNamespace>
      reads this
      requires Valid()
    {
      EntriesFrom(namespaces, namespaceIndex)
    }

    /** `makeIterator()`. */
    constructor (namespaces: UnsafePrefixedNamespaces)
      requires WellFormed(namespaces)
      ensures Valid() && this.namespaces == namespaces && namespaceIndex == 0
      ensures Remaining() == EntriesFrom(namespaces, 0)
    {
      this.namespaces := namespaces;
      namespaceIndex := 0;
    }

    /** One call of the closure: skips declarations without a URI and yields the next one with one. */
    method Next() returns (r: Option<UnsafePrefixedNamespace>)
      requires Valid()
      modifies this
      ensures Valid()
      ensures old(Remaining()) == (if r.Some? then [r.value] else []) + Remaining()
      ensures r.None? ==> Remaining() == []
    {
      while namespaceIndex < namespaces.count
        invariant Valid()
        invariant old(Remaining()) == Remaining()
      {
        var (prefix, uri) := Tuple(namespaces, namespaceIndex);
        namespaceIndex := namespaceIndex + 1;
        if uri.Some? {
          return Some(UnsafePrefixedNamespace(prefix, uri.value));
        }
      }
      return None;
    }
  }

  /** The first declaration at or after `from` without a prefix. */
  function FirstUnprefixed(ns: UnsafePrefixedNamespaces, from: nat): (r: Option<nat>)
    requires WellFormed(ns)
    ensures r.Some? ==> from <= r.value < ns.count && Tuple(ns, r.value).0.None?
    ensures r.Some? ==> forall j :: from <= j < r.value ==> Tuple(ns, j).0.Some?
    ensures r.None? ==> forall j :: from <= j < ns.count ==> Tuple(ns, j).0.Some?
    decreases ns.count - from
  {
    if from >= ns.count then None
    else if Tuple(ns, from).0.None? then Some(from)
    else FirstUnprefixed(ns, from + 1)
  }

  /** What the fast search promises: the first unprefixed declaration, if it carries a URI. */
  function DefaultNamespace(ns: UnsafePrefixedNamespaces): Option<UnsafePrefixedNamespace>
    requires WellFormed(ns)
  {
    match FirstUnprefixed(ns, 0)
    case None => None
    case Some(j) =>
      var (prefix, uri) := Tuple(ns, j);
      if uri.Some? then Some(UnsafePrefixedNamespace(prefix, uri.value)) else None
  }

  /**
   * `findFirstUnprefixedNamespaceFast()`: stops at the first declaration
   * without a prefix and answers with it only when it has a URI; later
   * declarations are never looked at.
   */
  method FindFirstUnprefixedNamespaceFast(ns: UnsafePrefixedNamespaces) returns (r: Option<UnsafePrefixedNamespace>)
    requires WellFormed(ns)
    ensures r == DefaultNamespace(ns)
    ensures r.Some? ==> r.value.prefix.None? && IsNullTerminated(r.value.uri.raw)
  {
    var namespaceIndex := 0;
    while namespaceIndex < ns.count
      invariant 0 <= namespaceIndex <= ns.count
      invariant FirstUnprefixed(ns, 0) == FirstUnprefixed(ns, namespaceIndex)
    {
      var (prefix, uri) := Tuple(ns, namespaceIndex);
      if prefix.None? {
        if uri.Some? {
          return Some(UnsafePrefixedNamespace(prefix, uri.value));
        }
        break;
      }
      namespaceIndex := namespaceIndex + 1;
    }
    return None;
  }

  lemma {:induction false} EntriesBeforeUnprefixedArePrefixed(ns: UnsafePrefixedNamespaces, from: nat, j: nat)
    requires WellFormed(ns) && from <= j < ns.count
    requires forall k :: from <= k < j ==> Tuple(ns, k).0.Some?
    ensures forall e :: e in EntriesFrom(ns, from) ==> e in EntriesFrom(ns, j) || e.prefix.Some?
    decreases j - from
  {
    if from < j {
      EntriesBeforeUnprefixedArePrefixed(ns, from + 1, j);
    }
  }

  /**
   * The default namespace found by the fast search is also yielded by
   * iteration, and no declaration iteration yields before it lacks a prefix.
   */
  lemma DefaultNamespaceIsFirstUnprefixedEntry(ns: UnsafePrefixedNamespaces)
    requires WellFormed(ns) && DefaultNamespace(ns).Some?
    ensures DefaultNamespace(ns).value in EntriesFrom(ns, 0)
    ensures DefaultNamespace(ns).value.prefix.None?
    ensures forall e :: e in EntriesFrom(ns, 0) && e.prefix.None? ==> e in EntriesFrom(ns, FirstUnprefixed(ns, 0).value)
  {
    var j := FirstUnprefixed(ns, 0).value;
    EntriesBeforeUnprefixedArePrefixed(ns, 0, j);
    EntriesContainLater(ns, 0, j);
  }

  lemma {:induction false} EntriesContainLater(ns: UnsafePrefixedNamespaces, from: nat, j: nat)
    requires WellFormed(ns) && from <= j < ns.count
    ensures forall e :: e in EntriesFrom(ns, j) ==> e in EntriesFrom(ns, from)
    decreases j - from
  {
    if from < j {
      EntriesContainLater(ns, from + 1, j);
    }
  }
}
