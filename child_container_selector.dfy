/**
 * The child container selector: matches the direct child elements whose start
 * satisfies its condition, and reports every event up to each one's end as
 * inside the container.
 */
module ChildContainerSelectors {
  import opened Wrappers
  import opened StringPointers
  import opened Errors
  import opened Events
  import opened Documents
  import opened Selection

  datatype ChildContainerState =
    | WaitingForMatch
    | WaitingForMatchEnd(depth: int)
    | WaitingForIgnoredContainerToEnd(depth: int)

  /**
   * The transition once the start condition's verdict is known. Only the
   * depth of an event is compared while a container is open: the next event
   * at the container's own depth is taken to be its end. A container match
   * is reported exactly while a matched container is open, or when one opens.
   */
  function ChildContainerTransition(s: ChildContainerState, e: AnyContextualizedEvent, accepted: bool): (r: (ChildContainerState, SelectionEvent))
    ensures r.1 != MatchedNode
    ensures r.1 == MatchedContainer(AtStart) <==> s.WaitingForMatch? && accepted
    ensures r.1 == MatchedContainer(AtEnd) <==> s.WaitingForMatchEnd? && e.context.depth == s.depth
    ensures r.1 == MatchedContainer(Within) <==> s.WaitingForMatchEnd? && e.context.depth != s.depth
  {
    match s
    case WaitingForMatch =>
      if accepted then (WaitingForMatchEnd(e.context.depth), MatchedContainer(AtStart))
      else if IsElementStart(e) then (WaitingForIgnoredContainerToEnd(e.context.depth), Unmatched)
      else (WaitingForMatch, Unmatched)
    case WaitingForMatchEnd(depth) =>
      if e.context.depth == depth then (WaitingForMatch, MatchedContainer(AtEnd))
      else (s, MatchedContainer(Within))
    case WaitingForIgnoredContainerToEnd(depth) =>
      if e.context.depth == depth then (WaitingForMatch, Unmatched)
      else (s, Unmatched)
  }

  /**
   * One step of `process(event:usingStartCondition:)`: the start condition
   * is consulted only while waiting for a match, and an error it throws
   * leaves the state as it was.
   */
  function ChildContainerStep(s: ChildContainerState, e: AnyContextualizedEvent, startCondition: AnyContextualizedEvent -> Result<bool, Error>): (r: Result<(ChildContainerState, SelectionEvent), Error>)
    ensures r.Err? <==> s.WaitingForMatch? && startCondition(e).Err?
    ensures r.Err? ==> r.error == startCondition(e).error
    ensures r.Ok? ==> r.value == ChildContainerTransition(s, e, s.WaitingForMatch? && startCondition(e) == Ok(true))
  {
    if s.WaitingForMatch? then
      match startCondition(e)
      case Err(err) => Err(err)
      case Ok(accepted) => Ok(ChildContainerTransition(s, e, accepted))
    else Ok(ChildContainerTransition(s, e, false))
  }

  class ChildContainerSelector {
    var state: ChildContainerState

    constructor ()
      ensures state == WaitingForMatch
    {
      state := WaitingForMatch;
    }

    method Process(e: AnyContextualizedEvent, startCondition: AnyContextualizedEvent -> Result<bool, Error>) returns (r: Result<SelectionEvent, Error>)
      modifies this
      ensures ChildContainerStep(old(state), e, startCondition).Err? ==>
        state == old(state) && r == Err(ChildContainerStep(old(state), e, startCondition).error)
      ensures ChildContainerStep(old(state), e, startCondition).Ok? ==>
        r.Ok? && (state, r.value) == ChildContainerStep(old(state), e, startCondition).value
    {
      match state {
        case WaitingForMatch =>
          var accepted := startCondition(e);
          if accepted.Err? {
            return Err(accepted.error);
          }
          if accepted.value {
            state := WaitingForMatchEnd(e.context.depth);
            return Ok(MatchedContainer(AtStart));
          } else if IsElementStart(e) {
            state := WaitingForIgnoredContainerToEnd(e.context.depth);
          }
          return Ok(Unmatched);
        case WaitingForMatchEnd(depth) =>
          if e.context.depth == depth {
            state := WaitingForMatch;
            return Ok(MatchedContainer(AtEnd));
          }
          return Ok(MatchedContainer(Within));
        case WaitingForIgnoredContainerToEnd(depth) =>
          if e.context.depth == depth {
            state := WaitingForMatch;
          }
          return Ok(Unmatched);
      }
    }
  }

  /** The selector run over a sequence of events under a start condition that never throws. */
  function RunChildContainer(s: ChildContainerState, events: seq<AnyContextualizedEvent>, accepts: AnyContextualizedEvent -> bool): (r: (ChildContainerState, seq<SelectionEvent>))
    ensures |r.1| == |events|
    decreases |events|
  {
    if |events| == 0 then (s, [])
    else
      var step := ChildContainerTransition(s, events[0], s.WaitingForMatch? && accepts(events[0]));
      var rest := RunChildContainer(step.0, events[1..], accepts);
      (rest.0, [step.1] + rest.1)
  }

  lemma RunChildContainerSingle(s: ChildContainerState, e: AnyContextualizedEvent, accepts: AnyContextualizedEvent -> bool)
    ensures var step := ChildContainerTransition(s, e, s.WaitingForMatch? && accepts(e));
      RunChildContainer(s, [e], accepts) == (step.0, [step.1])
  {
    assert [e][1..] == [];
    var step := ChildContainerTransition(s, e, s.WaitingForMatch? && accepts(e));
    assert [step.1] + [] == [step.1];
  }

  /** Entry k of a run is the transition's verdict at event k, from the state the first k events left. */
  lemma RunChildContainerPointwise(s: ChildContainerState, events: seq<AnyContextualizedEvent>, accepts: AnyContextualizedEvent -> bool)
    ensures forall k :: 0 <= k < |events| ==>
      var before := RunChildContainer(s, events[..k], accepts).0;
      RunChildContainer(s, events, accepts).1[k] == ChildContainerTransition(before, events[k], before.WaitingForMatch? && accepts(events[k])).1
  {
    forall k | 0 <= k < |events|
      ensures var before := RunChildContainer(s, events[..k], accepts).0;
        RunChildContainer(s, events, accepts).1[k] == ChildContainerTransition(before, events[k], before.WaitingForMatch? && accepts(events[k])).1
    {
      assert events == events[..k] + events[k..];
      assert events[k..][0] == events[k];
      RunChildContainerConcat(s, events[..k], events[k..], accepts);
    }
  }

  lemma {:induction false} RunChildContainerConcat(s: ChildContainerState, a: seq<AnyContextualizedEvent>, b: seq<AnyContextualizedEvent>, accepts: AnyContextualizedEvent -> bool)
    ensures RunChildContainer(s, a + b, accepts) ==
      (RunChildContainer(RunChildContainer(s, a, accepts).0, b, accepts).0,
       RunChildContainer(s, a, accepts).1 + RunChildContainer(RunChildContainer(s, a, accepts).0, b, accepts).1)
    decreases |a|
  {
    if |a| == 0 {
      assert a + b == b;
      assert [] + RunChildContainer(s, b, accepts).1 == RunChildContainer(s, b, accepts).1;
    } else {
      assert (a + b)[0] == a[0];
      assert (a + b)[1..] == a[1..] + b;
      var step := ChildContainerTransition(s, a[0], s.WaitingForMatch? && accepts(a[0]));
      RunChildContainerConcat(step.0, a[1..], b, accepts);
      var first := RunChildContainer(step.0, a[1..], accepts);
      var second := RunChildContainer(first.0, b, accepts);
      assert [step.1] + (first.1 + second.1) == ([step.1] + first.1) + second.1;
    }
  }

  /** The report given for every event inside an open (or ignored) container. */
  function InsideReport(s: ChildContainerState): SelectionEvent
  {
    if s.WaitingForMatchEnd? then MatchedContainer(Within) else Unmatched
  }

  /** Inside a container at `depth`, deeper events neither close it nor change the report. */
  lemma {:induction false} DeeperEventsStayInside(s: ChildContainerState, events: seq<AnyContextualizedEvent>, accepts: AnyContextualizedEvent -> bool)
    requires !s.WaitingForMatch?
    requires forall k :: 0 <= k < |events| ==> events[k].context.depth > s.depth
    ensures RunChildContainer(s, events, accepts) == (s, Repeated(InsideReport(s), |events|))
    decreases |events|
  {
    if |events| > 0 {
      DeeperEventsStayInside(s, events[1..], accepts);
    }
  }

  /** A start condition that can only accept the start of an element. */
  ghost predicate StartsOnly(accepts: AnyContextualizedEvent -> bool)
  {
    forall e :: accepts(e) ==> IsElementStart(e)
  }

  /**
   * What the selector reports for the events of one direct child: a matched
   * element opens at its start, is inside until its end and closes there;
   * everything else is unmatched.
   */
  function ChildContainerReport(n: Node, depth: int, root: Option<UnsafeStringPointer>, accepts: AnyContextualizedEvent -> bool): seq<SelectionEvent>
  {
    if n.Element? && accepts(StartEvent(n, depth, root)) then
      [MatchedContainer(AtStart)] + Repeated(MatchedContainer(Within), |ForestEvents(n.children, depth + 1, root)|) + [MatchedContainer(AtEnd)]
    else Repeated(Unmatched, |NodeEvents(n, depth, root)|)
  }

  function ChildContainerReports(ns: seq<Node>, depth: int, root: Option<UnsafeStringPointer>, accepts: AnyContextualizedEvent -> bool): seq<SelectionEvent>
    decreases ns
  {
    if |ns| == 0 then []
    else ChildContainerReport(ns[0], depth, root, accepts) + ChildContainerReports(ns[1..], depth, root, accepts)
  }

  /** One child's events, met while waiting: its start is reported as the child's report, and the selector waits again after its end. */
  lemma ChildContainerSelectorReportsNode(n: Node, depth: int, root: Option<UnsafeStringPointer>, accepts: AnyContextualizedEvent -> bool)
    requires StartsOnly(accepts)
    ensures RunChildContainer(WaitingForMatch, NodeEvents(n, depth, root), accepts) == (WaitingForMatch, ChildContainerReport(n, depth, root, accepts))
  {
    var head := NodeEvents(n, depth, root);
    match n
    case CharacterData(t) =>
      var e := TextEventAt(t, depth, root);
      assert head == [e];
      RunChildContainerSingle(WaitingForMatch, e, accepts);
    case Element(_, _, children) =>
      var start, inner, end := StartEvent(n, depth, root), ForestEvents(children, depth + 1, root), EndEvent(depth, root);
      assert head == [start] + inner + [end];
      ForestEventsAreDeepEnough(children, depth + 1, root);
      RunChildContainerConcat(WaitingForMatch, [start] + inner, [end], accepts);
      RunChildContainerConcat(WaitingForMatch, [start], inner, accepts);
      RunChildContainerSingle(WaitingForMatch, start, accepts);
      var afterStart := RunChildContainer(WaitingForMatch, [start], accepts).0;
      DeeperEventsStayInside(afterStart, inner, accepts);
      RunChildContainerSingle(afterStart, end, accepts);
      if !accepts(start) {
        RepeatedConcat(Unmatched, 1, |inner|);
        RepeatedConcat(Unmatched, 1 + |inner|, 1);
      }
  }

  /**
   * Over the events of an element's children, a child container selector
   * starting afresh opens a container exactly at each direct child element
   * its condition accepts, keeps it open through that element's content,
   * closes it at the element's end, and ends ready for the next element.
   */
  lemma {:induction false} ChildContainerSelectorMatchesDirectChildren(ns: seq<Node>, depth: int, root: Option<UnsafeStringPointer>, accepts: AnyContextualizedEvent -> bool)
    requires StartsOnly(accepts)
    ensures RunChildContainer(WaitingForMatch, ForestEvents(ns, depth, root), accepts) ==
      (WaitingForMatch, ChildContainerReports(ns, depth, root, accepts))
    decreases ns
  {
    if |ns| > 0 {
      var head, tail := NodeEvents(ns[0], depth, root), ForestEvents(ns[1..], depth, root);
      RunChildContainerConcat(WaitingForMatch, head, tail, accepts);
      ChildContainerSelectorMatchesDirectChildren(ns[1..], depth, root, accepts);
      ChildContainerSelectorReportsNode(ns[0], depth, root, accepts);
    }
  }
}
