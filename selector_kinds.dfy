/**
 * The runtime tag naming a selector's type, used to check and release the
 * type-erased selector pointers that positions and chains store.
 */
module SelectorKinds {
  import CS = ChildSelectors
  import CCS = ChildContainerSelectors
  import DS = DescendantSelectors
  import DCS = DescendantContainerSelectors

  /** Five distinct tags; kind equality is tag equality. */
  datatype SelectorKind = Child | ChildContainer | Descendant | DescendantContainer | Chain

  /**
   * A type-erased pointer to one of the four selectors a chain link can
   * hold, or null (an uninitialised slot). The variant is the type the
   * pointer was allocated with.
   */
  datatype SelectorPointer =
    | NullPointer
    | ChildPointer(child: CS.ChildSelector)
    | ChildContainerPointer(childContainer: CCS.ChildContainerSelector)
    | DescendantPointer(descendant: DS.DescendantSelector)
    | DescendantContainerPointer(descendantContainer: DCS.DescendantContainerSelector)

  /** The object a non-null pointer points to. */
  function Target(p: SelectorPointer): object
    requires !p.NullPointer?
  {
    match p
    case ChildPointer(o) => o
    case ChildContainerPointer(o) => o
    case DescendantPointer(o) => o
    case DescendantContainerPointer(o) => o
  }

  /** `p` points to a selector of the type `k` names. */
  predicate IsLinkSelector(p: SelectorPointer, k: SelectorKind)
  {
    match k
    case Child => p.ChildPointer?
    case ChildContainer => p.ChildContainerPointer?
    case Descendant => p.DescendantPointer?
    case DescendantContainer => p.DescendantContainerPointer?
    case Chain => false
  }

  /** The state a link selector holds, read off the object. */
  datatype SelectorValue =
    | ChildValue(child: CS.ChildState)
    | ChildContainerValue(childContainer: CCS.ChildContainerState)
    | DescendantValue
    | DescendantContainerValue(pendingDepths: seq<int>)

  function KindOfValue(v: SelectorValue): SelectorKind
  {
    match v
    case ChildValue(_) => Child
    case ChildContainerValue(_) => ChildContainer
    case DescendantValue => Descendant
    case DescendantContainerValue(_) => DescendantContainer
  }

  /** The state of a freshly made selector of kind `k`. */
  function InitialValue(k: SelectorKind): (v: SelectorValue)
    requires k != Chain
    ensures KindOfValue(v) == k
  {
    match k
    case Child => ChildValue(CS.WaitingForMatch)
    case ChildContainer => ChildContainerValue(CCS.WaitingForMatch)
    case Descendant => DescendantValue
    case DescendantContainer => DescendantContainerValue([])
  }

  /** The state of the selector `p` points to. */
  ghost function ValueOf(p: SelectorPointer): (v: SelectorValue)
    requires !p.NullPointer?
    reads Target(p)
    ensures IsLinkSelector(p, KindOfValue(v))
  {
    match p
    case ChildPointer(o) => ChildValue(o.state)
    case ChildContainerPointer(o) => ChildContainerValue(o.state)
    case DescendantPointer(_) => DescendantValue
    case DescendantContainerPointer(o) => DescendantContainerValue(o.pendingDepths)
  }

  /** A pointer is to a selector of at most one kind, so a tag names its pointer's type unambiguously. */
  lemma KindsAreExclusive(p: SelectorPointer, k1: SelectorKind, k2: SelectorKind)
    requires IsLinkSelector(p, k1) && IsLinkSelector(p, k2)
    ensures k1 == k2
  {
  }

  /** A new selector of kind `k`, in its initial state (`S()` in the source, allocated). */
  method NewLinkSelector(k: SelectorKind) returns (p: SelectorPointer)
    requires k != Chain
    ensures IsLinkSelector(p, k) && fresh(Target(p)) && ValueOf(p) == InitialValue(k)
  {
    match k {
      case Child =>
        var o := new CS.ChildSelector();
        p := ChildPointer(o);
      case ChildContainer =>
        var o := new CCS.ChildContainerSelector();
        p := ChildContainerPointer(o);
      case Descendant =>
        var o := new DS.DescendantSelector();
        p := DescendantPointer(o);
      case DescendantContainer =>
        var o := new DCS.DescendantContainerSelector();
        p := DescendantContainerPointer(o);
    }
  }
}
