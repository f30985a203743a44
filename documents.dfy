/**
 * The shape of a well-formed document as the event stream sees it: elements
 * with attributes and children, and character data. The events Zemel forwards
 * for such a tree are a start at the element's depth, its children's events
 * one level deeper, and an end back at its depth.
 */
module Documents {
  import opened Wrappers
  import opened StringPointers
  import opened Names
  import opened Attributes
  import opened Events

  datatype Node =
    | Element(name: UnsafeName, attributes: UnsafeAttributes, children: seq<Node>)
    | CharacterData(text: UnsafeStringPointer)

  function StartEvent(n: Node, depth: int, root: Option<UnsafeStringPointer>): AnyContextualizedEvent
    requires n.Element?
  {
    AnyContextualizedEvent(EventContext(depth, root), ElementStart(ElementStartEvent(n.name, n.attributes)))
  }

  function EndEvent(depth: int, root: Option<UnsafeStringPointer>): AnyContextualizedEvent
  {
    AnyContextualizedEvent(EventContext(depth, root), ElementEnd)
  }

  function TextEventAt(text: UnsafeStringPointer, depth: int, root: Option<UnsafeStringPointer>): AnyContextualizedEvent
  {
    AnyContextualizedEvent(EventContext(depth, root), Text(TextEvent(text)))
  }

  /** The events of one node placed at `depth`. */
  function NodeEvents(n: Node, depth: int, root: Option<UnsafeStringPointer>): seq<AnyContextualizedEvent>
    decreases n, 1
  {
    match n
    case CharacterData(t) => [TextEventAt(t, depth, root)]
    case Element(_, _, children) =>
      [StartEvent(n, depth, root)] + ForestEvents(children, depth + 1, root) + [EndEvent(depth, root)]
  }

  /** The events of a sequence of sibling nodes placed at `depth`. */
  function ForestEvents(ns: seq<Node>, depth: int, root: Option<UnsafeStringPointer>): seq<AnyContextualizedEvent>
    decreases ns, 0
  {
    if |ns| == 0 then [] else NodeEvents(ns[0], depth, root) + ForestEvents(ns[1..], depth, root)
  }

  /** Every event of a forest placed at `depth` is at that depth or deeper. */
  lemma {:induction false} ForestEventsAreDeepEnough(ns: seq<Node>, depth: int, root: Option<UnsafeStringPointer>)
    ensures forall k :: 0 <= k < |ForestEvents(ns, depth, root)| ==> ForestEvents(ns, depth, root)[k].context.depth >= depth
    decreases ns, 0
  {
    if |ns| > 0 {
      NodeEventsAreDeepEnough(ns[0], depth, root);
      ForestEventsAreDeepEnough(ns[1..], depth, root);
    }
  }

  lemma {:induction false} NodeEventsAreDeepEnough(n: Node, depth: int, root: Option<UnsafeStringPointer>)
    ensures forall k :: 0 <= k < |NodeEvents(n, depth, root)| ==> NodeEvents(n, depth, root)[k].context.depth >= depth
    decreases n, 1
  {
    match n
    case CharacterData(_) =>
    case Element(_, _, children) => ForestEventsAreDeepEnough(children, depth + 1, root);
  }

  /** The events of a non-empty forest are its first node's events followed by the events of the rest. */
  lemma ForestEventsSplit(ns: seq<Node>, depth: int, root: Option<UnsafeStringPointer>)
    requires |ns| > 0
    ensures ForestEvents(ns, depth, root) == NodeEvents(ns[0], depth, root) + ForestEvents(ns[1..], depth, root)
  {
  }
}
