/**
 * The per-node selector box: a type-erased pointer to any of the five
 * selector types together with the kind tag it was boxed with, so that
 * reading it back and releasing it go through the right type.
 */
module SelectorPointerBoxes {
  import opened Memory
  import opened SelectorKinds
  import opened AppendOnlySelectorArrays
  import opened ChainExecutingSelectors

  /** A pointer to a selector of any of the five types. */
  datatype BoxedPointer =
    | LinkSelector(link: SelectorPointer)
    | ChainSelector(chain: ChainExecutingSelector)

  /** `raw` was allocated as a selector of the type `kind` names. */
  predicate PointsTo(raw: BoxedPointer, kind: SelectorKind)
  {
    match raw
    case LinkSelector(p) => IsLinkSelector(p, kind)
    case ChainSelector(_) => kind == Chain
  }

  /** The selector a pointer that points to one is at. */
  function BoxedTarget(raw: BoxedPointer): object
    requires raw.ChainSelector? || !raw.link.NullPointer?
  {
    match raw
    case LinkSelector(p) => Target(p)
    case ChainSelector(c) => c
  }

  /** A new selector of the type `kind` names, in its initial state (`S()`, allocated). */
  method NewSelector(kind: SelectorKind) returns (raw: BoxedPointer)
    ensures PointsTo(raw, kind) && (raw.ChainSelector? || !raw.link.NullPointer?) && fresh(BoxedTarget(raw))
    ensures raw.LinkSelector? ==> ValueOf(raw.link) == InitialValue(kind)
    ensures raw.ChainSelector? ==>
      raw.chain.Valid() && fresh(raw.chain.Repr()) && raw.chain.selectors.Entries() == [] && raw.chain.chainLength == 0
  {
    if kind == Chain {
      var c := new ChainExecutingSelector();
      raw := ChainSelector(c);
    } else {
      var p := NewLinkSelector(kind);
      raw := LinkSelector(p);
    }
  }

  datatype SelectorPointerBox = SelectorPointerBox(kind: SelectorKind, raw: BoxedPointer)

  /** The stored tag is the type the pointer was allocated with. */
  predicate BoxValid(b: SelectorPointerBox)
  {
    PointsTo(b.raw, b.kind)
  }

  /** `init(boxing:)`: the box records the kind of the selector type it is created with. */
  function Boxing(raw: BoxedPointer, kind: SelectorKind): (b: SelectorPointerBox)
    requires PointsTo(raw, kind)
    ensures BoxValid(b) && b.kind == kind
  {
    SelectorPointerBox(kind, raw)
  }

  /**
   * `unbox(expecting:)`: asking for the boxed kind gives back a pointer of
   * that type (asking for any other kind is a precondition failure).
   */
  function Unbox(b: SelectorPointerBox, expected: SelectorKind): (p: BoxedPointer)
    requires BoxValid(b) && b.kind == expected
    ensures PointsTo(p, expected)
  {
    b.raw
  }

  /** Unboxing with the kind a pointer was boxed with returns that very pointer. */
  lemma UnboxReturnsBoxedPointer(raw: BoxedPointer, kind: SelectorKind)
    requires PointsTo(raw, kind)
    ensures Unbox(Boxing(raw, kind), kind) == raw
  {
  }

  /** A valid box's pointer is of its tag's type and of no other, so no other kind may unbox it. */
  lemma BoxedKindIsUnique(b: SelectorPointerBox, k: SelectorKind)
    requires BoxValid(b) && PointsTo(b.raw, k)
    ensures k == b.kind
  {
    match b.raw
    case LinkSelector(p) => KindsAreExclusive(p, k, b.kind);
    case ChainSelector(_) =>
  }

  /** The frame a release reads: the chain selector and its scratch array, when the box holds a chain. */
  ghost function ReleaseFrame(raw: BoxedPointer): set<object>
    reads if raw.ChainSelector? then {raw.chain, raw.chain.selectors, raw.chain.selectors.elements, raw.chain.selectors.elements.buffer} else {}
  {
    if raw.ChainSelector? then raw.chain.Repr() else {}
  }

  /** The selector's own resources are ready to release: a chain selector's array is well formed. */
  ghost predicate Releasable(raw: BoxedPointer)
    reads if raw.ChainSelector? then {raw.chain, raw.chain.selectors, raw.chain.selectors.elements, raw.chain.selectors.elements.buffer} else {}
    reads ReleaseFrame(raw)
  {
    raw.ChainSelector? ==> raw.chain.Valid()
  }

  /**
   * `SelectorKind.deinitialize` on `raw` as a selector of the type `kind`
   * names: the selector releases what it owns (a chain, its link
   * selectors) and is then deinitialized in place.
   */
  ghost function DeinitializeLogFor(raw: BoxedPointer, kind: SelectorKind): (log: seq<MemoryEvent>)
    requires PointsTo(raw, kind) && Releasable(raw)
    reads if raw.ChainSelector? then {raw.chain, raw.chain.selectors, raw.chain.selectors.elements, raw.chain.selectors.elements.buffer} else {}
    reads ReleaseFrame(raw)
  {
    match raw
    case LinkSelector(p) => [Deinitialized(Target(p))]
    case ChainSelector(c) => EntriesReleaseLog(c.selectors.Entries()) + [Deinitialized(c)]
  }

  /** `deinitializeAndDeallocateBoxedPointer`: dispatch on the stored kind, then deallocate. */
  ghost function BoxReleaseLog(b: SelectorPointerBox): (log: seq<MemoryEvent>)
    requires BoxValid(b) && Releasable(b.raw)
    reads if b.raw.ChainSelector? then {b.raw.chain, b.raw.chain.selectors, b.raw.chain.selectors.elements, b.raw.chain.selectors.elements.buffer} else {}
    reads ReleaseFrame(b.raw)
  {
    DeinitializeLogFor(b.raw, b.kind) + [Deallocated(BoxedTarget(b.raw))]
  }

  /** The kind-dispatched release of `raw`. */
  method DeinitializeSelector(raw: BoxedPointer, kind: SelectorKind) returns (ghost log: seq<MemoryEvent>)
    requires PointsTo(raw, kind) && Releasable(raw)
    ensures log == DeinitializeLogFor(raw, kind)
  {
    match raw {
      case LinkSelector(p) =>
        log := [Deinitialized(Target(p))];
      case ChainSelector(c) =>
        log := c.Deinitialize();
        log := log + [Deinitialized(c)];
    }
  }

  method DeinitializeAndDeallocateBoxedPointer(b: SelectorPointerBox) returns (ghost log: seq<MemoryEvent>)
    requires BoxValid(b) && Releasable(b.raw)
    ensures log == BoxReleaseLog(b)
  {
    log := DeinitializeSelector(b.raw, b.kind);
    log := log + [Deallocated(BoxedTarget(b.raw))];
  }

  /** Releasing a box deinitializes its selector and then deallocates it, exactly once. */
  lemma BoxedSelectorReleasedOnce(b: SelectorPointerBox)
    requires BoxValid(b) && Releasable(b.raw)
    ensures ReleasedOnce(BoxReleaseLog(b), BoxedTarget(b.raw))
  {
    var o := BoxedTarget(b.raw);
    match b.raw
    case LinkSelector(p) =>
      assert BoxReleaseLog(b) == [] + [Deinitialized(o), Deallocated(o)] + [];
      ReleasedOnceBetween([], o, []);
    case ChainSelector(c) =>
      var inner := EntriesReleaseLog(c.selectors.Entries());
      ReleaseLogMentionsOnlyItsObjects(Targets(c.selectors.Entries()), o);
      assert BoxReleaseLog(b) == inner + [Deinitialized(o), Deallocated(o)] + [];
      ReleasedOnceBetween(inner, o, []);
  }
}
