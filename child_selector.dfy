/**
 * The child selector: matches the direct, non-element children of the
 * current element that satisfy its condition, and ignores everything inside
 * child elements.
 */
module ChildSelectors {
  import opened Wrappers
  import opened StringPointers
  import opened Events
  import opened Documents
  import opened Selection

  datatype ChildState = WaitingForMatch | WaitingForIgnoredContainerToEnd(depth: int)

  /**
   * One step of `process(event:usingCondition:)`: the new state and the
   * report. Only node matches are reported, and only for a non-start event
   * the condition accepts while no element is being skipped; an element
   * start met while waiting is skipped up to its end.
   */
  function ChildStep(s: ChildState, e: AnyContextualizedEvent, condition: AnyContextualizedEvent -> bool): (r: (ChildState, SelectionEvent))
    ensures r.1 == Unmatched || r.1 == MatchedNode
    ensures r.1 == MatchedNode <==> s == WaitingForMatch && !IsElementStart(e) && condition(e)
    ensures s == WaitingForMatch && IsElementStart(e) ==> r.0 == WaitingForIgnoredContainerToEnd(e.context.depth)
    ensures s.WaitingForIgnoredContainerToEnd? ==> (r.0 == WaitingForMatch <==> IsElementEnd(e, s.depth))
  {
    match s
    case WaitingForMatch =>
      if IsElementStart(e) then (WaitingForIgnoredContainerToEnd(e.context.depth), Unmatched)
      else if condition(e) then (WaitingForMatch, MatchedNode)
      else (WaitingForMatch, Unmatched)
    case WaitingForIgnoredContainerToEnd(depth) =>
      if IsElementEnd(e, depth) then (WaitingForMatch, Unmatched)
      else (s, Unmatched)
  }

  class ChildSelector {
    var state: ChildState

    constructor ()
      ensures state == WaitingForMatch
    {
      state := WaitingForMatch;
    }

    /**
     * `process(event:usingCondition:)`. An element start is never a match:
     * the selector skips to that element's end. The condition is consulted
     * only while waiting for a match and only for other events.
     */
    method Process(e: AnyContextualizedEvent, condition: AnyContextualizedEvent -> bool) returns (r: SelectionEvent)
      modifies this
      ensures (state, r) == ChildStep(old(state), e, condition)
    {
      match state {
        case WaitingForMatch =>
          if IsElementStart(e) {
            state := WaitingForIgnoredContainerToEnd(e.context.depth);
          } else if condition(e) {
            state := WaitingForMatch;
            return MatchedNode;
          }
          return Unmatched;
        case WaitingForIgnoredContainerToEnd(depth) =>
          if IsElementEnd(e, depth) {
            state := WaitingForMatch;
          }
          return Unmatched;
      }
    }
  }

  /** The selector run over a sequence of events: the final state and one report per event. */
  function RunChild(s: ChildState, events: seq<AnyContextualizedEvent>, condition: AnyContextualizedEvent -> bool): (r: (ChildState, seq<SelectionEvent>))
    ensures |r.1| == |events|
    decreases |events|
  {
    if |events| == 0 then (s, [])
    else
      var step := ChildStep(s, events[0], condition);
      var rest := RunChild(step.0, events[1..], condition);
      (rest.0, [step.1] + rest.1)
  }

  /** Entry k of a run is the step's verdict at event k, from the state the first k events left. */
  lemma RunChildPointwise(s: ChildState, events: seq<AnyContextualizedEvent>, condition: AnyContextualizedEvent -> bool)
    ensures forall k :: 0 <= k < |events| ==>
      RunChild(s, events, condition).1[k] == ChildStep(RunChild(s, events[..k], condition).0, events[k], condition).1
  {
    forall k | 0 <= k < |events|
      ensures RunChild(s, events, condition).1[k] == ChildStep(RunChild(s, events[..k], condition).0, events[k], condition).1
    {
      assert events == events[..k] + events[k..];
      assert events[k..][0] == events[k];
      RunChildConcat(s, events[..k], events[k..], condition);
    }
  }

  lemma {:induction false} RunChildConcat(s: ChildState, a: seq<AnyContextualizedEvent>, b: seq<AnyContextualizedEvent>, condition: AnyContextualizedEvent -> bool)
    ensures RunChild(s, a + b, condition) ==
      (RunChild(RunChild(s, a, condition).0, b, condition).0,
       RunChild(s, a, condition).1 + RunChild(RunChild(s, a, condition).0, b, condition).1)
    decreases |a|
  {
    if |a| == 0 {
      assert a + b == b;
      assert [] + RunChild(s, b, condition).1 == RunChild(s, b, condition).1;
    } else {
      assert (a + b)[0] == a[0];
      assert (a + b)[1..] == a[1..] + b;
      var step := ChildStep(s, a[0], condition);
      RunChildConcat(step.0, a[1..], b, condition);
      var first := RunChild(step.0, a[1..], condition);
      var second := RunChild(first.0, b, condition);
      assert [step.1] + (first.1 + second.1) == ([step.1] + first.1) + second.1;
    }
  }

  /** While ignoring an element at `depth`, nothing deeper ends the wait, and nothing matches. */
  lemma {:induction false} IgnoringDeeperEvents(depth: int, events: seq<AnyContextualizedEvent>, condition: AnyContextualizedEvent -> bool)
    requires forall k :: 0 <= k < |events| ==> events[k].context.depth > depth
    ensures RunChild(WaitingForIgnoredContainerToEnd(depth), events, condition) ==
      (WaitingForIgnoredContainerToEnd(depth), Repeated(Unmatched, |events|))
    decreases |events|
  {
    if |events| > 0 {
      IgnoringDeeperEvents(depth, events[1..], condition);
    }
  }

  /** What the child selector reports for the events of one direct child: a match for accepted text only. */
  function ChildReport(n: Node, depth: int, root: Option<UnsafeStringPointer>, condition: AnyContextualizedEvent -> bool): (r: seq<SelectionEvent>)
    ensures |r| == |NodeEvents(n, depth, root)|
  {
    match n
    case CharacterData(t) => [if condition(TextEventAt(t, depth, root)) then MatchedNode else Unmatched]
    case Element(_, _, _) => Repeated(Unmatched, |NodeEvents(n, depth, root)|)
  }

  /** What the child selector reports for each node of a forest placed directly inside the current element. */
  function ChildReports(ns: seq<Node>, depth: int, root: Option<UnsafeStringPointer>, condition: AnyContextualizedEvent -> bool): (r: seq<SelectionEvent>)
    ensures |r| == |ForestEvents(ns, depth, root)|
    decreases ns
  {
    if |ns| == 0 then [] else ChildReport(ns[0], depth, root, condition) + ChildReports(ns[1..], depth, root, condition)
  }

  lemma RunChildSingle(s: ChildState, e: AnyContextualizedEvent, condition: AnyContextualizedEvent -> bool)
    ensures RunChild(s, [e], condition) == (ChildStep(s, e, condition).0, [ChildStep(s, e, condition).1])
  {
    assert [e][1..] == [];
    assert [ChildStep(s, e, condition).1] + [] == [ChildStep(s, e, condition).1];
  }

  /**
   * Over the events of an element's children, a child selector starting
   * afresh matches exactly the text children its condition accepts, reports
   * nothing for child elements or anything inside them, and ends ready for
   * the next element.
   */
  lemma {:induction false} ChildSelectorMatchesDirectChildren(ns: seq<Node>, depth: int, root: Option<UnsafeStringPointer>, condition: AnyContextualizedEvent -> bool)
    ensures RunChild(WaitingForMatch, ForestEvents(ns, depth, root), condition) ==
      (WaitingForMatch, ChildReports(ns, depth, root, condition))
    decreases ns
  {
    if |ns| > 0 {
      var head, tail := NodeEvents(ns[0], depth, root), ForestEvents(ns[1..], depth, root);
      RunChildConcat(WaitingForMatch, head, tail, condition);
      ChildSelectorMatchesDirectChildren(ns[1..], depth, root, condition);
      assert RunChild(WaitingForMatch, head, condition) == (WaitingForMatch, ChildReport(ns[0], depth, root, condition)) by {
        match ns[0]
        case CharacterData(t) =>
          var e := TextEventAt(t, depth, root);
          assert head == [e];
          RunChildSingle(WaitingForMatch, e, condition);
        case Element(_, _, children) =>
          var start, inner, end := StartEvent(ns[0], depth, root), ForestEvents(children, depth + 1, root), EndEvent(depth, root);
          assert head == [start] + inner + [end];
          ForestEventsAreDeepEnough(children, depth + 1, root);
          RunChildConcat(WaitingForMatch, [start] + inner, [end], condition);
          RunChildConcat(WaitingForMatch, [start], inner, condition);
          RunChildSingle(WaitingForMatch, start, condition);
          IgnoringDeeperEvents(depth, inner, condition);
          RunChildSingle(WaitingForIgnoredContainerToEnd(depth), end, condition);
          RepeatedConcat(Unmatched, 1, |inner|);
          RepeatedConcat(Unmatched, 1 + |inner|, 1);
      }
    }
  }

  /**
   * Event by event: among the events of an element's children, the child
   * selector matches exactly the text events at the children's own depth
   * that its condition accepts.
   */
  lemma {:induction false} ChildReportsMatchDirectText(ns: seq<Node>, depth: int, root: Option<UnsafeStringPointer>, condition: AnyContextualizedEvent -> bool)
    ensures forall k :: 0 <= k < |ForestEvents(ns, depth, root)| ==>
      (ChildReports(ns, depth, root, condition)[k] == MatchedNode <==>
       IsText(ForestEvents(ns, depth, root)[k]) && ForestEvents(ns, depth, root)[k].context.depth == depth && condition(ForestEvents(ns, depth, root)[k]))
    decreases ns
  {
    if |ns| > 0 {
      var events, reports := ForestEvents(ns, depth, root), ChildReports(ns, depth, root, condition);
      var head, headReports := NodeEvents(ns[0], depth, root), ChildReport(ns[0], depth, root, condition);
      ChildReportsMatchDirectText(ns[1..], depth, root, condition);
      assert events == head + ForestEvents(ns[1..], depth, root);
      assert reports == headReports + ChildReports(ns[1..], depth, root, condition);
      forall k | 0 <= k < |head|
        ensures headReports[k] == MatchedNode <==> IsText(head[k]) && head[k].context.depth == depth && condition(head[k])
      {
        match ns[0]
        case CharacterData(t) =>
        case Element(_, _, children) =>
          RepeatedIsConstant(Unmatched, |head|, k);
          ForestEventsAreDeepEnough(children, depth + 1, root);
          if 0 < k < |head| - 1 {
            assert head[k] == ForestEvents(children, depth + 1, root)[k - 1];
          }
      }
    }
  }
}
