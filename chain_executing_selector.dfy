/**
 * The selector a `select` over a whole chain stores in its node's state:
 * it owns the scratch array of link selectors, replays the chain against
 * it at every event, and insists that the chain is the same every time.
 */
module ChainExecutingSelectors {
  import opened Wrappers
  import opened Errors
  import opened Events
  import opened Selection
  import opened Memory
  import opened SelectorKinds
  import opened AppendOnlySelectorArrays
  import opened SelectorChains

  /**
   * The chain run link by link against the stored selectors, from the
   * first one: `RunLinks` from the root.
   */
  method RunChain(selectors: AppendOnlySelectorArray, links: seq<Link>, e: AnyContextualizedEvent) returns (r: Result<SelectorChainResult, Error>)
    requires selectors.Valid() && selectors.Cursor() == 0
    requires |selectors.Entries()| <= |links| && KindsAgree(links, Values(selectors.Entries()))
    modifies selectors.elements, selectors.elements.buffer, selectors.elements.buffer.base, Pointers(selectors.Entries())
    ensures selectors.Valid() && |selectors.Entries()| <= |links|
    ensures var run := RunLinks(links, 0, Root(), old(Values(selectors.Entries())), e);
      Values(selectors.Entries()) == run.values && r == run.outcome
    ensures selectors.elements.buffer.base == old(selectors.elements.buffer.base) || fresh(selectors.elements.buffer.base)
    ensures forall o :: o in Pointers(selectors.Entries()) ==> o in old(Pointers(selectors.Entries())) || fresh(o)
  {
    ghost var initial := Values(selectors.Entries());
    ghost var run := RunLinks(links, 0, Root(), initial, e);
    var chain := Root();
    var i := 0;
    while i < |links|
      invariant i <= |links| && Replaying(selectors, links, i, chain, e, run)
      invariant selectors.elements.buffer.base == old(selectors.elements.buffer.base) || fresh(selectors.elements.buffer.base)
      invariant forall o :: o in Pointers(selectors.Entries()) ==> o in old(Pointers(selectors.Entries())) || fresh(o)
    {
      var step := RunNextLink(selectors, links, i, chain, e, run);
      match step {
        case Err(err) =>
          return Err(err);
        case Ok(next) =>
          chain := next;
      }
      i := i + 1;
    }
    r := Ok(chain);
  }

  /**
   * Links `0` to `i - 1` have run: the cursor is at link `i`, the stored
   * selectors still fit the chain, and running the rest of the chain from
   * here ends as `run`.
   */
  ghost predicate Replaying(selectors: AppendOnlySelectorArray, links: seq<Link>, i: nat, chain: SelectorChainResult, e: AnyContextualizedEvent, run: ChainRun)
    reads selectors, selectors.elements, selectors.elements.buffer, selectors.elements.buffer.base
    reads if selectors.Valid() then Pointers(selectors.Entries()) else {}
  {
    selectors.Valid() && selectors.Cursor() == i <= |selectors.Entries()| <= |links| &&
    KindsAgree(links, Values(selectors.Entries())) &&
    RunLinks(links, i, chain, Values(selectors.Entries()), e) == run
  }

  /**
   * One turn of that run: link `i` selects with its own selector, and
   * either the run ends there with the link's error or it goes on from
   * link `i + 1` with the chain the link produced.
   */
  method RunNextLink(selectors: AppendOnlySelectorArray, links: seq<Link>, i: nat, chain: SelectorChainResult, e: AnyContextualizedEvent, ghost run: ChainRun)
    returns (r: Result<SelectorChainResult, Error>)
    requires i < |links| && Replaying(selectors, links, i, chain, e, run)
    modifies selectors.elements, selectors.elements.buffer, selectors.elements.buffer.base, Pointers(selectors.Entries())
    ensures selectors.Valid() && selectors.Cursor() == i + 1 <= |selectors.Entries()| <= |links|
    ensures r.Err? ==> run == ChainRun(Values(selectors.Entries()), r)
    ensures r.Ok? ==> Replaying(selectors, links, i + 1, r.value, e, run)
    ensures selectors.elements.buffer.base == old(selectors.elements.buffer.base) || fresh(selectors.elements.buffer.base)
    ensures forall o :: o in Pointers(selectors.Entries()) ==> o in old(Pointers(selectors.Entries())) || fresh(o)
  {
    EntryKindsAreValueKinds(selectors.Entries());
    r := SelectLink(selectors, links[i], chain, e);
  }

  /** Link selectors are of the four link kinds, so the chain's own selector is never one of them. */
  lemma NoLinkSelectorIsAChainSelector(entries: seq<SelectorEntry>, c: ChainExecutingSelector)
    ensures c !in Pointers(entries)
  {
    forall i | 0 <= i < |entries| && !entries[i].pointer.NullPointer?
      ensures Target(entries[i].pointer) != c
    {
    }
  }

  class ChainExecutingSelector {
    const selectors: AppendOnlySelectorArray
    /** The length of the first chain that completed, or 0 before one has. */
    var chainLength: int

    ghost function Repr(): set<object>
      reads this, selectors, selectors.elements, selectors.elements.buffer
    {
      {this} + selectors.Repr()
    }

    ghost predicate Valid()
      reads this, selectors, selectors.elements, selectors.elements.buffer, selectors.elements.buffer.base
    {
      selectors.Valid() && chainLength >= 0
    }

    /** The stored selectors were made by `links`: at most one per link, each of its link's kind. */
    ghost predicate Fits(links: seq<Link>)
      reads this, selectors, selectors.elements, selectors.elements.buffer, selectors.elements.buffer.base
      reads if selectors.Valid() then Pointers(selectors.Entries()) else {}
    {
      selectors.Valid() &&
      |selectors.Entries()| <= |links| && KindsAgree(links, Values(selectors.Entries()))
    }

    constructor ()
      ensures Valid() && fresh(Repr()) && selectors.Entries() == [] && chainLength == 0
    {
      selectors := new AppendOnlySelectorArray(4);
      chainLength := 0;
    }

    /**
     * `select(using:in:)`: the chain is run from the root with the cursor
     * back at the first stored selector, exactly as `RunLinks` says; the
     * first completed run fixes the chain length.
     */
    method Select(links: seq<Link>, e: AnyContextualizedEvent) returns (r: Result<SelectionEvent, Error>)
      requires Valid() && Fits(links)
      requires chainLength == 0 || chainLength == |links|
      modifies this, selectors.elements, selectors.elements.buffer, selectors.elements.buffer.base, Pointers(selectors.Entries())
      ensures Valid() && Fits(links)
      ensures var run := RunLinks(links, 0, Root(), old(Values(selectors.Entries())), e);
        Values(selectors.Entries()) == run.values &&
        match run.outcome
        case Err(err) => r == Err(err) && chainLength == old(chainLength)
        case Ok(chain) => r == Ok(chain.selectionEvent) && chainLength == |links|
      ensures selectors.elements.buffer.base == old(selectors.elements.buffer.base) || fresh(selectors.elements.buffer.base)
      ensures forall o :: o in Pointers(selectors.Entries()) ==> o in old(Pointers(selectors.Entries())) || fresh(o)
    {
      ghost var initial := Values(selectors.Entries());
      selectors.ResetCursor();
      assert Values(selectors.Entries()) == initial;
      RunLinksShape(links, 0, Root(), initial, e);
      var result := RunChain(selectors, links, e);
      match result {
        case Err(err) =>
          r := Err(err);
        case Ok(chain) =>
          if chainLength == 0 {
            RecordChainLength(chain.chainLength);
          }
          r := Ok(chain.selectionEvent);
      }
    }

    /** The first completed run fixes the chain length; the stored selectors are untouched. */
    method RecordChainLength(length: nat)
      requires Valid()
      modifies this
      ensures Valid() && chainLength == length
      ensures selectors.Entries() == old(selectors.Entries())
      ensures Values(selectors.Entries()) == old(Values(selectors.Entries()))
    {
      NoLinkSelectorIsAChainSelector(selectors.Entries(), this);
      chainLength := length;
    }

    /** `deinitialize`: releases the link selectors as the scratch array does. */
    method Deinitialize() returns (ghost log: seq<MemoryEvent>)
      requires Valid()
      ensures log == EntriesReleaseLog(selectors.Entries())
    {
      log := selectors.Deinitialize();
    }
  }
}
