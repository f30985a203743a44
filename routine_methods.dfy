/**
 * The queries a routine body may ask about the node it is looking at
 * (`RoutineMethods`): attribute lookups, which walk the element's attributes
 * with a raw attribute iterator, and the element name and text accessors. Each
 * fails with `expectedElementNode` (or `expectedTextNode`) when the run's
 * event is of the other kind.
 */
module RoutineMethods {
  import opened Wrappers
  import opened Errors
  import opened StringPointers
  import opened Names
  import opened Attributes
  import opened Events
  import opened RoutineContexts

  /** The run's event and the strings it points to can be read. */
  predicate InReadableRun(ctx: UnsafeRoutineContext)
    reads ctx
  {
    ctx.runSpecificState.Some? && ReadableEvent(ctx.Event())
  }

  /** The attributes of the element the run's event starts. */
  function StartedAttributes(ctx: UnsafeRoutineContext): UnsafeAttributes
    reads ctx
    requires InReadableRun(ctx) && IsElementStart(ctx.Event())
  {
    ctx.Event().event.start.attributes
  }

  /** The name of the element the run's event starts. */
  function StartedName(ctx: UnsafeRoutineContext): Name
    reads ctx
    requires InReadableRun(ctx) && IsElementStart(ctx.Event())
  {
    AsName(ctx.Event().event.start.name)
  }

  /** Skipping attributes that do not carry `name` does not change where the first one that does is. */
  lemma {:induction false} FirstMatchSkipsNonMatching(a: UnsafeAttributes, name: Name, from: nat, to: nat)
    requires WellFormed(a) && from <= to
    requires forall j :: from <= j < to ==> !NameMatches(a, name, j)
    ensures FirstMatch(a, name, from) == FirstMatch(a, name, to)
    decreases (to as int) - (from as int)
  {
    if from < to && from < a.count {
      FirstMatchSkipsNonMatching(a, name, from + 1, to);
    }
  }

  /** Absent attributes carry no name, so the first match is at or after the next present attribute. */
  lemma FirstMatchFromNextPresent(a: UnsafeAttributes, name: Name, from: nat)
    requires WellFormed(a)
    ensures NextPresent(a, from).None? ==> FirstMatch(a, name, from).None?
    ensures NextPresent(a, from).Some? ==> FirstMatch(a, name, from) == FirstMatch(a, name, NextPresent(a, from).value)
  {
    match NextPresent(a, from)
    case None =>
      FirstMatchSkipsNonMatching(a, name, from, if from <= a.count then a.count else from);
    case Some(j) =>
      FirstMatchSkipsNonMatching(a, name, from, j);
  }

  /** When attribute `k` does not carry `name`, the first match from `k` is the first from the next present attribute. */
  lemma FirstMatchAfterMiss(a: UnsafeAttributes, name: Name, k: int)
    requires WellFormed(a) && 0 <= k < a.count && !NameMatches(a, name, k)
    ensures NextPresent(a, k + 1).None? ==> FirstMatch(a, name, k).None?
    ensures NextPresent(a, k + 1).Some? ==> FirstMatch(a, name, k) == FirstMatch(a, name, NextPresent(a, k + 1).value)
  {
    assert FirstMatch(a, name, k) == FirstMatch(a, name, k + 1);
    FirstMatchFromNextPresent(a, name, k + 1);
  }

  /**
   * The iterator loop shared by `attribute(exists:)` and `attribute(_:is:)`:
   * starting on the first attribute, it stops on the first one named `name`
   * and hands back the iterator standing there, or null when there is none.
   */
  method FindFirstNamed(attributes: UnsafeAttributes, name: Name) returns (attributeIterator: RawAttributeIterator?)
    requires WellFormed(attributes)
    ensures attributeIterator == null <==> FirstMatch(attributes, name, 0).None?
    ensures attributeIterator != null ==>
      attributeIterator.Valid() && attributeIterator.attributes == attributes &&
      FirstMatch(attributes, name, 0) == Some(attributeIterator.index)
  {
    FirstMatchFromNextPresent(attributes, name, 0);
    attributeIterator := RawAttributeIterator.Over(attributes);
    if attributeIterator == null {
      return;
    }
    while true
      invariant attributeIterator != null && attributeIterator.Valid() && attributeIterator.attributes == attributes
      invariant FirstMatch(attributes, name, 0) == FirstMatch(attributes, name, attributeIterator.index)
      decreases attributes.count - attributeIterator.index
    {
      if attributeIterator.HasName(name) {
        return;
      }
      var advanced := AdvancePastMiss(attributeIterator, name);
      if !advanced {
        return null;
      }
    }
  }

  /** One turn of that loop once the iterator's attribute is not named `name`: `next()`, which may find none. */
  method AdvancePastMiss(attributeIterator: RawAttributeIterator, name: Name) returns (advanced: bool)
    requires attributeIterator.Valid() && !NameMatches(attributeIterator.attributes, name, attributeIterator.index)
    modifies attributeIterator
    ensures attributeIterator.Valid()
    ensures advanced ==> old(attributeIterator.index) < attributeIterator.index
    ensures advanced ==> FirstMatch(attributeIterator.attributes, name, old(attributeIterator.index)) ==
                         FirstMatch(attributeIterator.attributes, name, attributeIterator.index)
    ensures !advanced ==> FirstMatch(attributeIterator.attributes, name, old(attributeIterator.index)).None?
  {
    FirstMatchAfterMiss(attributeIterator.attributes, name, attributeIterator.index);
    advanced := attributeIterator.Next();
  }

  /**
   * `attribute(exists:)`: true exactly when some attribute of the started
   * element has `name`, compared exactly (an attribute without a namespace
   * matches only a name without one).
   */
  method AttributeExists(ctx: UnsafeRoutineContext, name: Name) returns (r: Result<bool, Error>)
    requires InReadableRun(ctx)
    ensures r.Err? <==> !IsElementStart(ctx.Event())
    ensures r.Err? ==> r.error == Zemel(ExpectedElementNode)
    ensures r.Ok? ==> (r.value <==> exists j :: NameMatches(StartedAttributes(ctx), name, j))
  {
    var start := ctx.ExpectedElementStartEvent();
    if start.Err? {
      return Err(start.error);
    }
    var attributes := start.value.attributes;
    var attributeIterator := FindFirstNamed(attributes, name);
    assert attributes == StartedAttributes(ctx);
    if attributeIterator == null {
      return Ok(false);
    }
    assert NameMatches(attributes, name, attributeIterator.index);
    return Ok(true);
  }

  /** `attribute(_:)`: the value of the first attribute named `name`, if any. */
  method Attribute(ctx: UnsafeRoutineContext, name: Name) returns (r: Result<Option<seq<Byte>>, Error>)
    requires InReadableRun(ctx)
    ensures r.Err? <==> !IsElementStart(ctx.Event())
    ensures r.Err? ==> r.error == Zemel(ExpectedElementNode)
    ensures r.Ok? ==> r.value == Lookup(StartedAttributes(ctx), name)
    ensures r.Ok? ==> (r.value.Some? <==> exists j :: NameMatches(StartedAttributes(ctx), name, j))
  {
    var start := ctx.ExpectedElementStartEvent();
    if start.Err? {
      return Err(start.error);
    }
    var value := Subscript(start.value.attributes, name);
    return Ok(value);
  }

  /**
   * `attribute(_:is:)`: only the first attribute named `name` is compared,
   * so the answer is the one `attribute(_:)` would give compared with `value`.
   */
  method AttributeIs(ctx: UnsafeRoutineContext, name: Name, value: seq<Byte>) returns (r: Result<bool, Error>)
    requires InReadableRun(ctx)
    ensures r.Err? <==> !IsElementStart(ctx.Event())
    ensures r.Err? ==> r.error == Zemel(ExpectedElementNode)
    ensures r.Ok? ==> (r.value <==> Lookup(StartedAttributes(ctx), name) == Some(value))
  {
    var start := ctx.ExpectedElementStartEvent();
    if start.Err? {
      return Err(start.error);
    }
    var attributeIterator := FindFirstNamed(start.value.attributes, name);
    if attributeIterator == null {
      return Ok(false);
    }
    return Ok(attributeIterator.HasValue(value));
  }

  /** `name()`: the started element's name, owned. */
  function ElementName(ctx: UnsafeRoutineContext): (r: Result<Name, Error>)
    reads ctx
    requires InReadableRun(ctx)
    ensures r.Ok? <==> IsElementStart(ctx.Event())
    ensures r.Ok? ==> r.value == StartedName(ctx)
    ensures r.Err? ==> r.error == Zemel(ExpectedElementNode)
  {
    match ctx.ExpectedElementStartName()
    case Ok(u) => Ok(AsName(u))
    case Err(e) => Err(e)
  }

  /**
   * `name(is:)`: exact comparison, so a name given without a namespace does
   * not match an element in the document's default namespace.
   */
  function ElementNameIs(ctx: UnsafeRoutineContext, other: Name): (r: Result<bool, Error>)
    reads ctx
    requires InReadableRun(ctx)
    ensures r.Ok? <==> IsElementStart(ctx.Event())
    ensures r.Ok? ==> (r.value <==> StartedName(ctx) == other)
    ensures r.Err? ==> r.error == Zemel(ExpectedElementNode)
  {
    match ctx.ExpectedElementStartName()
    case Ok(u) => Ok(Equals(u, other))
    case Err(e) => Err(e)
  }

  /** `localName()`: the started element's local name. */
  function ElementLocalName(ctx: UnsafeRoutineContext): (r: Result<seq<Byte>, Error>)
    reads ctx
    requires InReadableRun(ctx)
    ensures r.Ok? <==> IsElementStart(ctx.Event())
    ensures r.Ok? ==> r.value == StartedName(ctx).localName
    ensures r.Err? ==> r.error == Zemel(ExpectedElementNode)
  {
    match ElementName(ctx)
    case Ok(n) => Ok(n.localName)
    case Err(e) => Err(e)
  }

  /** `localName(is:)`: the namespace is not looked at. */
  function ElementLocalNameIs(ctx: UnsafeRoutineContext, other: seq<Byte>): (r: Result<bool, Error>)
    reads ctx
    requires InReadableRun(ctx)
    ensures r.Ok? <==> IsElementStart(ctx.Event())
    ensures r.Ok? ==> (r.value <==> StartedName(ctx).localName == other)
    ensures r.Err? ==> r.error == Zemel(ExpectedElementNode)
  {
    match ctx.ExpectedElementStartName()
    case Ok(u) => Ok(HasLocalName(u, other))
    case Err(e) => Err(e)
  }

  /** `text()`: the text node's content, else `expectedTextNode`. */
  function Text(ctx: UnsafeRoutineContext): (r: Result<seq<Byte>, Error>)
    reads ctx
    requires InReadableRun(ctx)
    ensures r.Ok? <==> IsText(ctx.Event())
    ensures r.Ok? ==> r.value == Bytes(ctx.Event().event.text.unsafeText)
    ensures r.Err? ==> r.error == Zemel(ExpectedTextNode)
  {
    match ctx.ExpectedTextEvent()
    case Ok(t) => Ok(Bytes(t.unsafeText))
    case Err(e) => Err(e)
  }

  /**
   * The two name checks agree with the name accessors: `name(is:)` is
   * `name() == other`, and `localName(is:)` holds for every name that has
   * the element's local name, whatever its namespace.
   */
  lemma NameChecksAgreeWithAccessors(ctx: UnsafeRoutineContext, other: Name)
    requires InReadableRun(ctx)
    ensures ElementNameIs(ctx, other).Ok? <==> ElementName(ctx).Ok?
    ensures ElementName(ctx).Ok? ==> (ElementNameIs(ctx, other).value <==> ElementName(ctx).value == other)
    ensures ElementNameIs(ctx, other) == Ok(true) ==> ElementLocalNameIs(ctx, other.localName) == Ok(true)
    ensures ElementLocalName(ctx).Ok? ==>
      ElementLocalNameIs(ctx, other.localName) == Ok(ElementLocalName(ctx).value == other.localName)
  {
  }
}
