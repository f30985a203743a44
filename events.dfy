/** The parser events Zemel forwards to a routine, each with its depth context. */
module Events {
  import opened Wrappers
  import opened StringPointers
  import opened Names
  import opened Attributes

  datatype EventContext = EventContext(depth: int, rootDefaultNS: Option<UnsafeStringPointer>)

  datatype ElementStartEvent = ElementStartEvent(name: UnsafeName, attributes: UnsafeAttributes)

  datatype TextEvent = TextEvent(unsafeText: UnsafeStringPointer)

  datatype AnyEvent = ElementStart(start: ElementStartEvent) | ElementEnd | Text(text: TextEvent)

  datatype AnyContextualizedEvent = AnyContextualizedEvent(context: EventContext, event: AnyEvent)

  /** The strings and slots an event points to can be read. */
  predicate ReadableEvent(e: AnyContextualizedEvent)
  {
    (e.context.rootDefaultNS.Some? ==> Readable(e.context.rootDefaultNS.value)) &&
    match e.event
    case ElementStart(s) => ReadableName(s.name) && WellFormed(s.attributes)
    case ElementEnd => true
    case Text(t) => Readable(t.unsafeText)
  }

  /** `isElementStart`: a start is neither text nor an end. */
  function IsElementStart(e: AnyContextualizedEvent): (b: bool)
    ensures b <==> !e.event.Text? && !e.event.ElementEnd?
  {
    e.event.ElementStart?
  }

  /** `isText`: text is neither a start nor an end. */
  function IsText(e: AnyContextualizedEvent): (b: bool)
    ensures b <==> !e.event.ElementStart? && !e.event.ElementEnd?
  {
    e.event.Text?
  }

  /**
   * `isElementEnd(atDepth:)`: the depth is compared first, then the kind, so
   * an end is an end only at its own depth, and nothing else ever is one.
   */
  function IsElementEnd(e: AnyContextualizedEvent, depth: int): (b: bool)
    ensures b ==> e.context.depth == depth && !e.event.ElementStart? && !e.event.Text?
    ensures e.event.ElementEnd? ==> (b <==> e.context.depth == depth)
  {
    e.context.depth == depth && e.event.ElementEnd?
  }
}
