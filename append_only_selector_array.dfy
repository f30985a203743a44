/**
 * The scratch array a chain keeps its link selectors in: type-erased
 * selector pointers with their kinds, replayed in order on every run and
 * appended to when the chain reaches a link for the first time.
 */
module AppendOnlySelectorArrays {
  import opened Memory
  import opened AppendOnlyArrays
  import opened SelectorKinds

  datatype SelectorEntry = SelectorEntry(kind: SelectorKind, pointer: SelectorPointer)

  /** Every entry holds a selector of its kind, and no selector is held twice. */
  ghost predicate EntriesValid(entries: seq<SelectorEntry>)
  {
    (forall i :: 0 <= i < |entries| ==> IsLinkSelector(entries[i].pointer, entries[i].kind)) &&
    (forall i, j :: 0 <= i < j < |entries| ==> Target(entries[i].pointer) != Target(entries[j].pointer))
  }

  /** The selector objects the entries point to. */
  ghost function Pointers(entries: seq<SelectorEntry>): set<object>
  {
    set i | 0 <= i < |entries| && !entries[i].pointer.NullPointer? :: Target(entries[i].pointer)
  }

  /** The state of every selector, in entry order. */
  ghost function Values(entries: seq<SelectorEntry>): (r: seq<SelectorValue>)
    requires EntriesValid(entries)
    reads Pointers(entries)
    ensures |r| == |entries|
    ensures forall i :: 0 <= i < |entries| ==> r[i] == ValueOf(entries[i].pointer)
  {
    seq(|entries|, i requires 0 <= i < |entries| reads Pointers(entries) => ValueOf(entries[i].pointer))
  }

  /** An entry's tag is the kind of the selector its pointer holds. */
  lemma EntryKindsAreValueKinds(entries: seq<SelectorEntry>)
    requires EntriesValid(entries)
    ensures forall i :: 0 <= i < |entries| ==> entries[i].kind == KindOfValue(Values(entries)[i])
  {
    forall i | 0 <= i < |entries|
      ensures entries[i].kind == KindOfValue(Values(entries)[i])
    {
      KindsAreExclusive(entries[i].pointer, entries[i].kind, KindOfValue(Values(entries)[i]));
    }
  }

  /** The selectors the entries hold, in entry order. */
  ghost function Targets(entries: seq<SelectorEntry>): (r: seq<object>)
    requires forall i :: 0 <= i < |entries| ==> !entries[i].pointer.NullPointer?
    ensures |r| == |entries| && forall i :: 0 <= i < |entries| ==> r[i] == Target(entries[i].pointer)
  {
    seq(|entries|, i requires 0 <= i < |entries| => Target(entries[i].pointer))
  }

  /**
   * What `deinitialize` releases as written: each selector is deinitialized
   * through its kind, in append order, and none is deallocated, although
   * `pointerToNextSelector` allocated every one of them.
   */
  ghost function EntriesReleaseLogAsWritten(entries: seq<SelectorEntry>): seq<MemoryEvent>
    requires forall i :: 0 <= i < |entries| ==> !entries[i].pointer.NullPointer?
  {
    DeinitializeLog(Targets(entries))
  }

  /** As written, releasing the array deallocates none of the selectors it holds. */
  lemma AsWrittenLinkSelectorsLeak(entries: seq<SelectorEntry>, i: nat)
    requires EntriesValid(entries) && i < |entries|
    ensures Deallocations(EntriesReleaseLogAsWritten(entries), Targets(entries)[i]) == 0
    ensures !ReleasedOnce(EntriesReleaseLogAsWritten(entries), Targets(entries)[i])
  {
    DeinitializeLogDeallocatesNothing(Targets(entries), Targets(entries)[i]);
  }

  /** What `deinitialize` releases once corrected: each selector is deinitialized through its kind and then deallocated, in append order. */
  ghost function EntriesReleaseLog(entries: seq<SelectorEntry>): seq<MemoryEvent>
    requires forall i :: 0 <= i < |entries| ==> !entries[i].pointer.NullPointer?
  {
    ReleaseLog(Targets(entries))
  }

  /** Corrected, every selector the array holds is deinitialized and then deallocated exactly once. */
  lemma EveryLinkSelectorReleasedOnce(entries: seq<SelectorEntry>, i: nat)
    requires EntriesValid(entries) && i < |entries|
    ensures ReleasedOnce(EntriesReleaseLog(entries), Targets(entries)[i])
  {
    ReleaseLogReleasesEachOnce(Targets(entries), i);
  }

  class AppendOnlySelectorArray {
    const elements: AppendOnlyArray<SelectorEntry>

    ghost function Repr(): set<object>
      reads this, elements, elements.buffer
    {
      {this, elements, elements.buffer, elements.buffer.base}
    }

    ghost predicate Valid()
      reads this, elements, elements.buffer, elements.buffer.base
    {
      elements.Valid() && EntriesValid(elements.Elements())
    }

    ghost function Entries(): seq<SelectorEntry>
      reads this, elements, elements.buffer, elements.buffer.base
      requires Valid()
    {
      elements.Elements()
    }

    function Cursor(): nat
      reads this, elements
    {
      elements.cursor
    }

    constructor (initialCapacity: nat)
      ensures Valid() && fresh(Repr()) && Entries() == [] && Cursor() == 0
    {
      elements := new AppendOnlyArray(initialCapacity);
    }

    function HasNext(): (r: bool)
      reads this, elements, elements.buffer, elements.buffer.base
      requires Valid()
      ensures r <==> Cursor() < |Entries()|
    {
      elements.HasNext()
    }

    method ResetCursor()
      requires Valid()
      modifies elements
      ensures Valid() && Entries() == old(Entries()) && Cursor() == 0
    {
      elements.ResetCursor();
    }

    method Append(pointer: SelectorPointer, kind: SelectorKind)
      requires Valid() && Cursor() == |Entries()|
      requires IsLinkSelector(pointer, kind) && Target(pointer) !in Pointers(Entries())
      modifies elements, elements.buffer, elements.buffer.base
      ensures Valid() && Entries() == old(Entries()) + [SelectorEntry(kind, pointer)] && Cursor() == |Entries()|
      ensures elements.buffer.base == old(elements.buffer.base) || fresh(elements.buffer.base)
    {
      elements.Append(SelectorEntry(kind, pointer));
      assert Entries()[|Entries()| - 1].pointer == pointer;
    }

    method Next() returns (pointer: SelectorPointer, kind: SelectorKind)
      requires Valid() && Cursor() < |Entries()|
      modifies elements
      ensures Valid() && Entries() == old(Entries())
      ensures SelectorEntry(kind, pointer) == Entries()[old(Cursor())] && Cursor() == old(Cursor()) + 1
    {
      var entry := elements.Next();
      pointer, kind := entry.pointer, entry.kind;
    }

    /**
     * `deinitialize`, corrected: every selector is released through its
     * kind and deallocated, in append order.
     */
    method Deinitialize() returns (ghost log: seq<MemoryEvent>)
      requires Valid()
      ensures log == EntriesReleaseLog(Entries())
    {
      var entries := elements.ForEach();
      log := [];
      var i := 0;
      while i < |entries|
        invariant 0 <= i <= |entries|
        invariant log + ReleaseLog(Targets(entries)[i..]) == EntriesReleaseLog(entries)
      {
        assert Targets(entries)[i..][1..] == Targets(entries)[i + 1..];
        var o := Target(entries[i].pointer);
        log := log + [Deinitialized(o), Deallocated(o)];
        i := i + 1;
      }
      assert entries[i..] == [];
    }
  }
}
