/**
 * Selector chains: `child(...)`, `descendant(...)` and `text()` links
 * written one after another. Each link owns a selector kept, by position,
 * in the scratch array of the chain being run; a link evaluates its
 * selector only while the chain so far is inside a matched container, and
 * otherwise resets it and reports no match.
 */
module SelectorChains {
  import opened Wrappers
  import opened Names
  import opened Errors
  import opened Events
  import opened Selection
  import opened Conditions
  import opened SelectorKinds
  import opened AppendOnlySelectorArrays
  import CS = ChildSelectors
  import CCS = ChildContainerSelectors
  import DS = DescendantSelectors
  import DCS = DescendantContainerSelectors

  /**
   * The link constructors. `text()` is `DescendantText`, and a dynamic
   * member `.name` is `ChildNamed` with a name that has no namespace. A
   * user condition is what the autoclosure would evaluate to at an event.
   */
  datatype Link =
    | ChildText
    | DescendantText
    | ChildNamed(name: Name)
    | ChildWhere(condition: AnyContextualizedEvent -> Result<bool, Error>)
    | DescendantNamed(name: Name)
    | DescendantWhere(condition: AnyContextualizedEvent -> Result<bool, Error>)

  /** The selector type each link constructor uses. */
  function LinkKind(l: Link): (k: SelectorKind)
    ensures k != Chain
    ensures l.ChildText? <==> k == Child
    ensures l.DescendantText? <==> k == Descendant
    ensures l.ChildNamed? || l.ChildWhere? <==> k == ChildContainer
    ensures l.DescendantNamed? || l.DescendantWhere? <==> k == DescendantContainer
  {
    match l
    case ChildText => Child
    case DescendantText => Descendant
    case ChildNamed(_) => ChildContainer
    case ChildWhere(_) => ChildContainer
    case DescendantNamed(_) => DescendantContainer
    case DescendantWhere(_) => DescendantContainer
  }

  /** Name matching as the named links use it (the events Zemel forwards are always readable). */
  function MatchesName(e: AnyContextualizedEvent, n: Name): bool
  {
    ReadableEvent(e) && StartsElementMatchingName(e, WithUnsafeName(n))
  }

  /** The start condition a container link hands its selector: its verdict on each event. */
  function StartCondition(l: Link): AnyContextualizedEvent -> Result<bool, Error>
    requires LinkKind(l) == ChildContainer || LinkKind(l) == DescendantContainer
  {
    e => StartVerdict(l, e)
  }

  /**
   * What a container link's start condition answers for one event: it is
   * only ever true on an element start, and rejects every other event
   * without consulting the link's name or closure.
   */
  function StartVerdict(l: Link, e: AnyContextualizedEvent): (r: Result<bool, Error>)
    requires LinkKind(l) == ChildContainer || LinkKind(l) == DescendantContainer
    ensures r == Ok(true) ==> IsElementStart(e)
    ensures !IsElementStart(e) ==> r == Ok(false)
  {
    match l
    case ChildNamed(n) => Ok(MatchesName(e, n))
    case DescendantNamed(n) => Ok(MatchesName(e, n))
    case ChildWhere(c) => ConditionTrueForElementStart(c(e), e)
    case DescendantWhere(c) => ConditionTrueForElementStart(c(e), e)
  }

  datatype SelectorChainResult = SelectorChainResult(selectionEvent: SelectionEvent, chainLength: int)

  /** A chain with no links: inside the current element, of length zero. */
  function Root(): (r: SelectorChainResult)
    ensures r.chainLength == 0 && AppropriateBodyExecution(r.selectionEvent) == Some(Selectors)
  {
    SelectorChainResult(MatchedContainer(Within), 0)
  }

  function Lengthened(chain: SelectorChainResult, selectionEvent: SelectionEvent): (r: SelectorChainResult)
    ensures r.selectionEvent == selectionEvent && r.chainLength == chain.chainLength + 1
  {
    SelectorChainResult(selectionEvent, chain.chainLength + 1)
  }

  /** The link's selector, in state `v`, processing `e`: its new state and its verdict. */
  function ProcessLink(l: Link, v: SelectorValue, e: AnyContextualizedEvent): (r: Result<(SelectorValue, SelectionEvent), Error>)
    requires KindOfValue(v) == LinkKind(l)
    ensures r.Ok? ==> KindOfValue(r.value.0) == LinkKind(l)
  {
    match l
    case ChildText =>
      var step := CS.ChildStep(v.child, e, IsTextCondition);
      Ok((ChildValue(step.0), step.1))
    case DescendantText =>
      Ok((DescendantValue, DS.DescendantVerdict(e, IsTextCondition)))
    case ChildNamed(_) => ProcessChildContainer(l, v, e)
    case ChildWhere(_) => ProcessChildContainer(l, v, e)
    case DescendantNamed(_) => ProcessDescendantContainer(l, v, e)
    case DescendantWhere(_) => ProcessDescendantContainer(l, v, e)
  }

  function ProcessChildContainer(l: Link, v: SelectorValue, e: AnyContextualizedEvent): Result<(SelectorValue, SelectionEvent), Error>
    requires LinkKind(l) == ChildContainer && v.ChildContainerValue?
  {
    match CCS.ChildContainerStep(v.childContainer, e, StartCondition(l))
    case Err(err) => Err(err)
    case Ok(step) => Ok((ChildContainerValue(step.0), step.1))
  }

  function ProcessDescendantContainer(l: Link, v: SelectorValue, e: AnyContextualizedEvent): Result<(SelectorValue, SelectionEvent), Error>
    requires LinkKind(l) == DescendantContainer && v.DescendantContainerValue?
  {
    match DCS.DescendantContainerStep(v.pendingDepths, e, StartCondition(l))
    case Err(err) => Err(err)
    case Ok(step) => Ok((DescendantContainerValue(step.0), step.1))
  }

  /**
   * `select(usingSelector:body:)` for one link: inside a matched container
   * the selector processes the event; otherwise it is reset to its initial
   * state and the link reports no match. Either way the chain grows by one.
   */
  function LinkStep(l: Link, chain: SelectorChainResult, v: SelectorValue, e: AnyContextualizedEvent): (r: Result<(SelectorValue, SelectorChainResult), Error>)
    requires KindOfValue(v) == LinkKind(l)
    ensures r.Ok? ==> KindOfValue(r.value.0) == LinkKind(l) && r.value.1.chainLength == chain.chainLength + 1
    ensures chain.selectionEvent != MatchedContainer(Within) ==>
      r == Ok((InitialValue(LinkKind(l)), Lengthened(chain, Unmatched)))
  {
    if chain.selectionEvent == MatchedContainer(Within) then
      match ProcessLink(l, v, e)
      case Err(err) => Err(err)
      case Ok(processed) => Ok((processed.0, Lengthened(chain, processed.1)))
    else Ok((InitialValue(LinkKind(l)), Lengthened(chain, Unmatched)))
  }

  /** The stored selectors agree in kind with the links at the same positions. */
  predicate KindsAgree(links: seq<Link>, values: seq<SelectorValue>)
  {
    forall j :: 0 <= j < |links| && j < |values| ==> KindOfValue(values[j]) == LinkKind(links[j])
  }

  /** The selectors once link `k` has its own: the existing one, or a new one appended in its initial state. */
  function WithSelectorFor(values: seq<SelectorValue>, k: nat, kind: SelectorKind): (r: seq<SelectorValue>)
    requires k <= |values| && kind != Chain
    ensures k < |r| && |r| == (if k < |values| then |values| else k + 1)
    ensures r[..|values|] == values
  {
    if k < |values| then values else values + [InitialValue(kind)]
  }

  /** Giving link `k` its selector keeps the stored selectors in agreement with the links. */
  lemma WithSelectorKindsAgree(links: seq<Link>, values: seq<SelectorValue>, k: nat)
    requires k < |links| && k <= |values| && KindsAgree(links, values)
    ensures KindsAgree(links, WithSelectorFor(values, k, LinkKind(links[k])))
  {
    var r := WithSelectorFor(values, k, LinkKind(links[k]));
    forall j | 0 <= j < |links| && j < |r|
      ensures KindOfValue(r[j]) == LinkKind(links[j])
    {
      if j < |values| {
        assert r[j] == r[..|values|][j] == values[j];
      }
    }
  }

  /** Storing a selector of link `k`'s kind at position `k` keeps that agreement. */
  lemma ReplacedKindsAgree(links: seq<Link>, values: seq<SelectorValue>, k: nat, v: SelectorValue)
    requires k < |links| && k < |values| && KindsAgree(links, values) && KindOfValue(v) == LinkKind(links[k])
    ensures KindsAgree(links, values[k := v])
  {
  }

  datatype ChainRun = ChainRun(values: seq<SelectorValue>, outcome: Result<SelectorChainResult, Error>)

  /**
   * The links from `k` on, run against the stored selectors `values`: the
   * selectors afterwards and the chain's result, or the first error a
   * condition throws (the selectors up to that link having been updated).
   */
  function RunLinks(links: seq<Link>, k: nat, chain: SelectorChainResult, values: seq<SelectorValue>, e: AnyContextualizedEvent): ChainRun
    requires k <= |links| && k <= |values| && KindsAgree(links, values)
    decreases |links| - k
  {
    if k == |links| then ChainRun(values, Ok(chain))
    else
      var withSelector := WithSelectorFor(values, k, LinkKind(links[k]));
      match LinkStep(links[k], chain, withSelector[k], e)
      case Err(err) => ChainRun(withSelector, Err(err))
      case Ok(step) => RunLinks(links, k + 1, step.1, withSelector[k := step.0], e)
  }

  /** A run keeps every stored selector of its link's kind. */
  lemma {:induction false} RunLinksKeepKinds(links: seq<Link>, k: nat, chain: SelectorChainResult, values: seq<SelectorValue>, e: AnyContextualizedEvent)
    requires k <= |links| && k <= |values| && KindsAgree(links, values)
    ensures KindsAgree(links, RunLinks(links, k, chain, values, e).values)
    decreases |links| - k
  {
    if k < |links| {
      var withSelector := WithSelectorFor(values, k, LinkKind(links[k]));
      WithSelectorKindsAgree(links, values, k);
      match LinkStep(links[k], chain, withSelector[k], e)
      case Err(err) =>
        assert RunLinks(links, k, chain, values, e) == ChainRun(withSelector, Err(err));
      case Ok(step) =>
        ReplacedKindsAgree(links, withSelector, k, step.0);
        RunLinksKeepKinds(links, k + 1, step.1, withSelector[k := step.0], e);
        assert RunLinks(links, k, chain, values, e) == RunLinks(links, k + 1, step.1, withSelector[k := step.0], e);
    }
  }

  /** A run only appends selectors and leaves those of the links before `k` as they were. */
  lemma {:induction false} RunLinksKeepEarlierSelectors(links: seq<Link>, k: nat, chain: SelectorChainResult, values: seq<SelectorValue>, e: AnyContextualizedEvent)
    requires k <= |links| && k <= |values| && KindsAgree(links, values)
    ensures var run := RunLinks(links, k, chain, values, e);
      |run.values| >= |values| && run.values[..k] == values[..k]
    decreases |links| - k
  {
    if k < |links| {
      var withSelector := WithSelectorFor(values, k, LinkKind(links[k]));
      WithSelectorKindsAgree(links, values, k);
      assert withSelector[..k] == values[..k] by {
        assert withSelector[..|values|] == values;
      }
      match LinkStep(links[k], chain, withSelector[k], e)
      case Err(err) =>
        assert RunLinks(links, k, chain, values, e) == ChainRun(withSelector, Err(err));
      case Ok(step) =>
        var next := withSelector[k := step.0];
        ReplacedKindsAgree(links, withSelector, k, step.0);
        RunLinksKeepEarlierSelectors(links, k + 1, step.1, next, e);
        var run := RunLinks(links, k + 1, step.1, next, e);
        assert RunLinks(links, k, chain, values, e) == run;
        assert next[..k] == values[..k];
        assert run.values[..k] == run.values[..k + 1][..k];
    }
  }

  /** A run that completes grows the chain by one per remaining link and leaves a selector for every link. */
  lemma {:induction false} RunLinksCompleteLength(links: seq<Link>, k: nat, chain: SelectorChainResult, values: seq<SelectorValue>, e: AnyContextualizedEvent)
    requires k <= |links| && k <= |values| && KindsAgree(links, values)
    ensures var run := RunLinks(links, k, chain, values, e);
      run.outcome.Ok? ==> run.outcome.value.chainLength == chain.chainLength + |links| - k && |run.values| >= |links|
    decreases |links| - k
  {
    if k < |links| {
      var withSelector := WithSelectorFor(values, k, LinkKind(links[k]));
      WithSelectorKindsAgree(links, values, k);
      match LinkStep(links[k], chain, withSelector[k], e)
      case Err(err) =>
        assert RunLinks(links, k, chain, values, e) == ChainRun(withSelector, Err(err));
      case Ok(step) =>
        ReplacedKindsAgree(links, withSelector, k, step.0);
        RunLinksCompleteLength(links, k + 1, step.1, withSelector[k := step.0], e);
        assert RunLinks(links, k, chain, values, e) == RunLinks(links, k + 1, step.1, withSelector[k := step.0], e);
    }
  }

  /**
   * A run that completes grows the chain by one per remaining link, keeps
   * every selector's kind, and leaves a selector for every link.
   */
  lemma RunLinksShape(links: seq<Link>, k: nat, chain: SelectorChainResult, values: seq<SelectorValue>, e: AnyContextualizedEvent)
    requires k <= |links| && k <= |values| && KindsAgree(links, values)
    ensures var run := RunLinks(links, k, chain, values, e);
      KindsAgree(links, run.values) && |run.values| >= |values| && run.values[..k] == values[..k] &&
      (run.outcome.Ok? ==> run.outcome.value.chainLength == chain.chainLength + |links| - k && |run.values| >= |links|)
  {
    RunLinksKeepKinds(links, k, chain, values, e);
    RunLinksKeepEarlierSelectors(links, k, chain, values, e);
    RunLinksCompleteLength(links, k, chain, values, e);
  }

  /**
   * Once a link reports anything but being inside a match, every later link
   * reports no match and its selector is back in its initial state: a chain
   * matches only through links that are all inside matched containers.
   */
  lemma {:induction false} OutsideAMatchNothingLaterMatches(links: seq<Link>, k: nat, chain: SelectorChainResult, values: seq<SelectorValue>, e: AnyContextualizedEvent)
    requires k < |links| && k <= |values| && KindsAgree(links, values)
    requires chain.selectionEvent != MatchedContainer(Within)
    ensures var run := RunLinks(links, k, chain, values, e);
      run.outcome == Ok(SelectorChainResult(Unmatched, chain.chainLength + |links| - k)) &&
      |run.values| >= |links| &&
      forall j :: k <= j < |links| ==> run.values[j] == InitialValue(LinkKind(links[j]))
    decreases |links| - k
  {
    var withSelector := WithSelectorFor(values, k, LinkKind(links[k]));
    var next := withSelector[k := InitialValue(LinkKind(links[k]))];
    var lengthened := Lengthened(chain, Unmatched);
    WithSelectorKindsAgree(links, values, k);
    ReplacedKindsAgree(links, withSelector, k, InitialValue(LinkKind(links[k])));
    assert RunLinks(links, k, chain, values, e) == RunLinks(links, k + 1, lengthened, next, e);
    if k + 1 < |links| {
      OutsideAMatchNothingLaterMatches(links, k + 1, lengthened, next, e);
      RunLinksKeepEarlierSelectors(links, k + 1, lengthened, next, e);
      var run := RunLinks(links, k + 1, lengthened, next, e);
      assert run.values[k] == run.values[..k + 1][k] == next[k];
    } else {
      assert RunLinks(links, k + 1, lengthened, next, e) == ChainRun(next, Ok(lengthened));
    }
  }

  /** A chain of one link reports what that link's selector reports, because a chain starts inside the current element. */
  lemma SingleLinkIsItsSelector(l: Link, values: seq<SelectorValue>, e: AnyContextualizedEvent)
    requires KindsAgree([l], values)
    ensures var v := WithSelectorFor(values, 0, LinkKind(l))[0];
      var run := RunLinks([l], 0, Root(), values, e);
      match ProcessLink(l, v, e)
      case Err(err) => run.outcome == Err(err)
      case Ok(processed) => run.outcome == Ok(SelectorChainResult(processed.1, 1)) && |run.values| > 0 && run.values[0] == processed.0
  {
  }

  /**
   * `pointerToNextSelector(defaultingTo:)`: the selector stored at the
   * cursor, which must be of the requested kind, or else a new selector in
   * its initial state appended at the end.
   */
  method PointerToNextSelector(selectors: AppendOnlySelectorArray, kind: SelectorKind) returns (p: SelectorPointer)
    requires selectors.Valid() && kind != Chain
    requires selectors.HasNext() ==> selectors.Entries()[selectors.Cursor()].kind == kind
    modifies selectors.elements, selectors.elements.buffer, selectors.elements.buffer.base
    ensures selectors.Valid() && IsLinkSelector(p, kind)
    ensures selectors.Cursor() == old(selectors.Cursor()) + 1
    ensures old(selectors.HasNext()) ==>
      selectors.Entries() == old(selectors.Entries()) && p == selectors.Entries()[old(selectors.Cursor())].pointer
    ensures !old(selectors.HasNext()) ==>
      fresh(Target(p)) && selectors.Entries() == old(selectors.Entries()) + [SelectorEntry(kind, p)] &&
      ValueOf(p) == InitialValue(kind)
    ensures selectors.elements.buffer.base == old(selectors.elements.buffer.base) || fresh(selectors.elements.buffer.base)
  {
    if selectors.HasNext() {
      var storedKind;
      p, storedKind := selectors.Next();
      return;
    }
    p := NewLinkSelector(kind);
    selectors.Append(p, kind);
  }

  /** The chain grown by a link's verdict, or the error its condition threw. */
  function LengthenedBy(chain: SelectorChainResult, verdict: Result<SelectionEvent, Error>): Result<SelectorChainResult, Error>
  {
    match verdict
    case Err(err) => Err(err)
    case Ok(v) => Ok(Lengthened(chain, v))
  }

  /**
   * The body of `select(usingSelector:body:)` on the selector `p` points
   * to: inside a matched container it processes the event, otherwise it is
   * reset to a fresh selector's state; the result is `LinkStep`'s.
   */
  method SelectWith(p: SelectorPointer, l: Link, chain: SelectorChainResult, e: AnyContextualizedEvent) returns (r: Result<SelectorChainResult, Error>)
    requires IsLinkSelector(p, LinkKind(l))
    modifies Target(p)
    ensures match LinkStep(l, chain, old(ValueOf(p)), e)
      case Err(err) => r == Err(err) && ValueOf(p) == old(ValueOf(p))
      case Ok(step) => r == Ok(step.1) && ValueOf(p) == step.0
  {
    if chain.selectionEvent == MatchedContainer(Within) {
      match l {
        case ChildText =>
          var v := p.child.Process(e, IsTextCondition);
          r := Ok(Lengthened(chain, v));
        case DescendantText =>
          var v := p.descendant.Process(e, IsTextCondition);
          r := Ok(Lengthened(chain, v));
        case ChildNamed(_) =>
          var v := p.childContainer.Process(e, StartCondition(l));
          r := LengthenedBy(chain, v);
        case ChildWhere(_) =>
          var v := p.childContainer.Process(e, StartCondition(l));
          r := LengthenedBy(chain, v);
        case DescendantNamed(_) =>
          var v := p.descendantContainer.Process(e, StartCondition(l));
          r := LengthenedBy(chain, v);
        case DescendantWhere(_) =>
          var v := p.descendantContainer.Process(e, StartCondition(l));
          r := LengthenedBy(chain, v);
      }
    } else {
      match p {
        case ChildPointer(o) => o.state := CS.WaitingForMatch;
        case ChildContainerPointer(o) => o.state := CCS.WaitingForMatch;
        case DescendantPointer(_) =>
        case DescendantContainerPointer(o) => o.pendingDepths := [];
      }
      r := Ok(Lengthened(chain, Unmatched));
    }
  }

  /**
   * One link of a chain run against the scratch array: the link's selector
   * is fetched at the cursor (or appended), then does what `LinkStep` says;
   * every other stored selector is left as it was.
   */
  method SelectLink(selectors: AppendOnlySelectorArray, l: Link, chain: SelectorChainResult, e: AnyContextualizedEvent) returns (r: Result<SelectorChainResult, Error>)
    requires selectors.Valid()
    requires selectors.HasNext() ==> selectors.Entries()[selectors.Cursor()].kind == LinkKind(l)
    modifies selectors.elements, selectors.elements.buffer, selectors.elements.buffer.base, Pointers(selectors.Entries())
    ensures selectors.Valid() && selectors.Cursor() == old(selectors.Cursor()) + 1
    ensures |selectors.Entries()| == |WithSelectorFor(old(Values(selectors.Entries())), old(selectors.Cursor()), LinkKind(l))|
    ensures var k := old(selectors.Cursor());
      var before := WithSelectorFor(old(Values(selectors.Entries())), k, LinkKind(l));
      match LinkStep(l, chain, before[k], e)
      case Err(err) => r == Err(err) && Values(selectors.Entries()) == before
      case Ok(step) => r == Ok(step.1) && Values(selectors.Entries()) == before[k := step.0]
    ensures selectors.elements.buffer.base == old(selectors.elements.buffer.base) || fresh(selectors.elements.buffer.base)
    ensures forall o :: o in Pointers(selectors.Entries()) ==> o in old(Pointers(selectors.Entries())) || fresh(o)
  {
    var kind := LinkKind(l);
    ghost var k := selectors.Cursor();
    ghost var before := WithSelectorFor(Values(selectors.Entries()), k, kind);
    var p := PointerToNextSelector(selectors, kind);
    ghost var entries := selectors.Entries();
    assert Values(entries) == before;
    assert entries[k].pointer == p;
    r := SelectWithEntry(p, entries, k, l, chain, e);
    assert selectors.Entries() == entries;
  }

  /** `SelectWith` on the selector of entry `k`: of all the stored states, only that one changes. */
  method SelectWithEntry(p: SelectorPointer, ghost entries: seq<SelectorEntry>, ghost k: nat, l: Link, chain: SelectorChainResult, e: AnyContextualizedEvent)
    returns (r: Result<SelectorChainResult, Error>)
    requires EntriesValid(entries) && k < |entries| && entries[k].pointer == p && IsLinkSelector(p, LinkKind(l))
    modifies Target(p)
    ensures match LinkStep(l, chain, old(Values(entries))[k], e)
      case Err(err) => r == Err(err) && Values(entries) == old(Values(entries))
      case Ok(step) => r == Ok(step.1) && Values(entries) == old(Values(entries))[k := step.0]
  {
    r := SelectWith(p, l, chain, e);
  }
}
