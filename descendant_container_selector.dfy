/**
 * The descendant container selector: matches every element, at any depth,
 * whose start satisfies its condition, keeping a stack of the depths of the
 * containers that are open so that nested matches close in order.
 */
module DescendantContainerSelectors {
  import opened Wrappers
  import opened StringPointers
  import opened Errors
  import opened Events
  import opened Documents
  import opened Selection

  /**
   * The transition once the start condition's verdict is known: an accepted
   * event opens a container at its depth; otherwise the next event at the
   * innermost open container's depth closes it, and any other event is
   * inside it. A report is unmatched exactly when no container is open
   * before or after the event.
   */
  function DescendantContainerTransition(pending: seq<int>, e: AnyContextualizedEvent, accepted: bool): (r: (seq<int>, SelectionEvent))
    ensures r.1 != MatchedNode
    ensures r.1 == Unmatched <==> |pending| == 0 && |r.0| == 0
    ensures r.1 == MatchedContainer(AtStart) <==> r.0 == pending + [e.context.depth]
    ensures r.1 == MatchedContainer(AtEnd) <==> |pending| > 0 && r.0 == pending[..|pending| - 1]
  {
    if accepted then (pending + [e.context.depth], MatchedContainer(AtStart))
    else if |pending| > 0 then
      if e.context.depth == pending[|pending| - 1] then (pending[..|pending| - 1], MatchedContainer(AtEnd))
      else (pending, MatchedContainer(Within))
    else (pending, Unmatched)
  }

  /** One step of `process(event:usingStartCondition:)`: an error the condition throws leaves the stack as it was. */
  function DescendantContainerStep(pending: seq<int>, e: AnyContextualizedEvent, startCondition: AnyContextualizedEvent -> Result<bool, Error>): (r: Result<(seq<int>, SelectionEvent), Error>)
    ensures r.Err? <==> startCondition(e).Err?
    ensures r.Err? ==> r.error == startCondition(e).error
    ensures r.Ok? ==> r.value == DescendantContainerTransition(pending, e, startCondition(e) == Ok(true))
  {
    match startCondition(e)
    case Err(err) => Err(err)
    case Ok(accepted) => Ok(DescendantContainerTransition(pending, e, accepted))
  }

  class DescendantContainerSelector {
    /** The depths of the matched containers still open, innermost last. */
    var pendingDepths: seq<int>

    constructor ()
      ensures pendingDepths == []
    {
      pendingDepths := [];
    }

    method Process(e: AnyContextualizedEvent, startCondition: AnyContextualizedEvent -> Result<bool, Error>) returns (r: Result<SelectionEvent, Error>)
      modifies this
      ensures DescendantContainerStep(old(pendingDepths), e, startCondition).Err? ==>
        pendingDepths == old(pendingDepths) && r == Err(DescendantContainerStep(old(pendingDepths), e, startCondition).error)
      ensures DescendantContainerStep(old(pendingDepths), e, startCondition).Ok? ==>
        r.Ok? && (pendingDepths, r.value) == DescendantContainerStep(old(pendingDepths), e, startCondition).value
    {
      var accepted := startCondition(e);
      if accepted.Err? {
        return Err(accepted.error);
      }
      if accepted.value {
        pendingDepths := pendingDepths + [e.context.depth];
        return Ok(MatchedContainer(AtStart));
      }
      if |pendingDepths| > 0 {
        var lastDepth := pendingDepths[|pendingDepths| - 1];
        if e.context.depth == lastDepth {
          pendingDepths := pendingDepths[..|pendingDepths| - 1];
          return Ok(MatchedContainer(AtEnd));
        }
        return Ok(MatchedContainer(Within));
      }
      return Ok(Unmatched);
    }
  }

  /** The selector run over a sequence of events under a start condition that never throws. */
  function RunDescendantContainer(pending: seq<int>, events: seq<AnyContextualizedEvent>, accepts: AnyContextualizedEvent -> bool): (r: (seq<int>, seq<SelectionEvent>))
    ensures |r.1| == |events|
    decreases |events|
  {
    if |events| == 0 then (pending, [])
    else
      var step := DescendantContainerTransition(pending, events[0], accepts(events[0]));
      var rest := RunDescendantContainer(step.0, events[1..], accepts);
      (rest.0, [step.1] + rest.1)
  }

  lemma RunDescendantContainerSingle(pending: seq<int>, e: AnyContextualizedEvent, accepts: AnyContextualizedEvent -> bool)
    ensures var step := DescendantContainerTransition(pending, e, accepts(e));
      RunDescendantContainer(pending, [e], accepts) == (step.0, [step.1])
  {
    assert [e][1..] == [];
    var step := DescendantContainerTransition(pending, e, accepts(e));
    assert [step.1] + [] == [step.1];
  }

  /** Entry k of a run is the transition's verdict at event k, from the open depths the first k events left. */
  lemma RunDescendantContainerPointwise(pending: seq<int>, events: seq<AnyContextualizedEvent>, accepts: AnyContextualizedEvent -> bool)
    ensures forall k :: 0 <= k < |events| ==>
      RunDescendantContainer(pending, events, accepts).1[k] ==
        DescendantContainerTransition(RunDescendantContainer(pending, events[..k], accepts).0, events[k], accepts(events[k])).1
  {
    forall k | 0 <= k < |events|
      ensures RunDescendantContainer(pending, events, accepts).1[k] ==
        DescendantContainerTransition(RunDescendantContainer(pending, events[..k], accepts).0, events[k], accepts(events[k])).1
    {
      assert events == events[..k] + events[k..];
      assert events[k..][0] == events[k];
      RunDescendantContainerConcat(pending, events[..k], events[k..], accepts);
    }
  }

  lemma {:induction false} RunDescendantContainerConcat(pending: seq<int>, a: seq<AnyContextualizedEvent>, b: seq<AnyContextualizedEvent>, accepts: AnyContextualizedEvent -> bool)
    ensures RunDescendantContainer(pending, a + b, accepts) ==
      (RunDescendantContainer(RunDescendantContainer(pending, a, accepts).0, b, accepts).0,
       RunDescendantContainer(pending, a, accepts).1 + RunDescendantContainer(RunDescendantContainer(pending, a, accepts).0, b, accepts).1)
    decreases |a|
  {
    if |a| == 0 {
      assert a + b == b;
      assert [] + RunDescendantContainer(pending, b, accepts).1 == RunDescendantContainer(pending, b, accepts).1;
    } else {
      assert (a + b)[0] == a[0];
      assert (a + b)[1..] == a[1..] + b;
      var step := DescendantContainerTransition(pending, a[0], accepts(a[0]));
      RunDescendantContainerConcat(step.0, a[1..], b, accepts);
      var first := RunDescendantContainer(step.0, a[1..], accepts);
      var second := RunDescendantContainer(first.0, b, accepts);
      assert [step.1] + (first.1 + second.1) == ([step.1] + first.1) + second.1;
    }
  }

  /** How many of the reports are `v`. */
  function CountOf(reports: seq<SelectionEvent>, v: SelectionEvent): (n: nat)
    ensures n <= |reports|
  {
    if |reports| == 0 then 0
    else (if reports[0] == v then 1 else 0) + CountOf(reports[1..], v)
  }

  /**
   * Every container start pushes a depth and every container end pops one,
   * so over any events the open depths grow by the starts reported less the
   * ends reported; an end is never reported with nothing open.
   */
  lemma {:induction false} OpenDepthsCountStartsLessEnds(pending: seq<int>, events: seq<AnyContextualizedEvent>, accepts: AnyContextualizedEvent -> bool)
    ensures var r := RunDescendantContainer(pending, events, accepts);
      |pending| + CountOf(r.1, MatchedContainer(AtStart)) == |r.0| + CountOf(r.1, MatchedContainer(AtEnd))
    decreases |events|
  {
    if |events| > 0 {
      var step := DescendantContainerTransition(pending, events[0], accepts(events[0]));
      OpenDepthsCountStartsLessEnds(step.0, events[1..], accepts);
      var rest := RunDescendantContainer(step.0, events[1..], accepts);
      assert RunDescendantContainer(pending, events, accepts) == (rest.0, [step.1] + rest.1);
      assert ([step.1] + rest.1)[1..] == rest.1;
    }
  }

  /** A start condition that can only accept the start of an element. */
  ghost predicate StartsOnly(accepts: AnyContextualizedEvent -> bool)
  {
    forall e :: accepts(e) ==> IsElementStart(e)
  }

  /** Every open container lies above `depth`. */
  predicate AllAbove(pending: seq<int>, depth: int)
  {
    forall i :: 0 <= i < |pending| ==> pending[i] < depth
  }

  /** The report for an event that opens and closes nothing. */
  function Surrounding(inside: bool): SelectionEvent
  {
    if inside then MatchedContainer(Within) else Unmatched
  }

  /**
   * What the selector reports for the events of a node placed at `depth`,
   * `inside` telling whether some matched container is already open around
   * it: a matched element opens at its start and closes at its end, with
   * all its content inside; any other event is inside exactly when a
   * container is open around it.
   */
  function DescendantContainerReport(n: Node, depth: int, root: Option<UnsafeStringPointer>, accepts: AnyContextualizedEvent -> bool, inside: bool): (r: seq<SelectionEvent>)
    ensures |r| == |NodeEvents(n, depth, root)|
    decreases n, 1
  {
    match n
    case CharacterData(_) => [Surrounding(inside)]
    case Element(_, _, children) =>
      if accepts(StartEvent(n, depth, root)) then
        [MatchedContainer(AtStart)] + DescendantContainerReports(children, depth + 1, root, accepts, true) + [MatchedContainer(AtEnd)]
      else
        [Surrounding(inside)] + DescendantContainerReports(children, depth + 1, root, accepts, inside) + [Surrounding(inside)]
  }

  function DescendantContainerReports(ns: seq<Node>, depth: int, root: Option<UnsafeStringPointer>, accepts: AnyContextualizedEvent -> bool, inside: bool): (r: seq<SelectionEvent>)
    ensures |r| == |ForestEvents(ns, depth, root)|
    decreases ns, 0
  {
    if |ns| == 0 then []
    else DescendantContainerReport(ns[0], depth, root, accepts, inside) + DescendantContainerReports(ns[1..], depth, root, accepts, inside)
  }

  /**
   * Over the events of a forest placed below every open container, the
   * selector reports as `DescendantContainerReports` says and leaves the
   * stack of open containers as it found it: every container it opens in
   * the forest is closed at its own element's end.
   */
  lemma {:induction false} DescendantContainerSelectorOverForest(pending: seq<int>, ns: seq<Node>, depth: int, root: Option<UnsafeStringPointer>, accepts: AnyContextualizedEvent -> bool)
    requires StartsOnly(accepts) && AllAbove(pending, depth)
    ensures RunDescendantContainer(pending, ForestEvents(ns, depth, root), accepts) ==
      (pending, DescendantContainerReports(ns, depth, root, accepts, |pending| > 0))
    decreases ns, 0
  {
    if |ns| > 0 {
      var head, tail := NodeEvents(ns[0], depth, root), ForestEvents(ns[1..], depth, root);
      RunDescendantContainerConcat(pending, head, tail, accepts);
      DescendantContainerSelectorOverNode(pending, ns[0], depth, root, accepts);
      DescendantContainerSelectorOverForest(pending, ns[1..], depth, root, accepts);
    }
  }

  lemma {:induction false} DescendantContainerSelectorOverNode(pending: seq<int>, n: Node, depth: int, root: Option<UnsafeStringPointer>, accepts: AnyContextualizedEvent -> bool)
    requires StartsOnly(accepts) && AllAbove(pending, depth)
    ensures RunDescendantContainer(pending, NodeEvents(n, depth, root), accepts) ==
      (pending, DescendantContainerReport(n, depth, root, accepts, |pending| > 0))
    decreases n, 1
  {
    match n
    case CharacterData(t) =>
      RunDescendantContainerSingle(pending, TextEventAt(t, depth, root), accepts);
    case Element(_, _, children) =>
      var start, inner, end := StartEvent(n, depth, root), ForestEvents(children, depth + 1, root), EndEvent(depth, root);
      assert NodeEvents(n, depth, root) == [start] + inner + [end];
      RunDescendantContainerConcat(pending, [start] + inner, [end], accepts);
      RunDescendantContainerConcat(pending, [start], inner, accepts);
      RunDescendantContainerSingle(pending, start, accepts);
      assert !accepts(end);
      if accepts(start) {
        var withStart := pending + [depth];
        DescendantContainerSelectorOverForest(withStart, children, depth + 1, root, accepts);
        RunDescendantContainerSingle(withStart, end, accepts);
        assert withStart[..|withStart| - 1] == pending;
      } else {
        DescendantContainerSelectorOverForest(pending, children, depth + 1, root, accepts);
        RunDescendantContainerSingle(pending, end, accepts);
      }
  }

  /** Starting with no container open, the stack is empty again after a whole forest. */
  lemma DescendantContainerSelectorClosesEverything(ns: seq<Node>, depth: int, root: Option<UnsafeStringPointer>, accepts: AnyContextualizedEvent -> bool)
    requires StartsOnly(accepts)
    ensures RunDescendantContainer([], ForestEvents(ns, depth, root), accepts).0 == []
    ensures forall k :: 0 <= k < |ForestEvents(ns, depth, root)| ==>
      RunDescendantContainer([], ForestEvents(ns, depth, root), accepts).1[k] != MatchedNode
  {
    DescendantContainerSelectorOverForest([], ns, depth, root, accepts);
    NoNodeMatchesInReports(ns, depth, root, accepts, false);
  }

  lemma {:induction false} NoNodeMatchesInReports(ns: seq<Node>, depth: int, root: Option<UnsafeStringPointer>, accepts: AnyContextualizedEvent -> bool, inside: bool)
    ensures MatchedNode !in DescendantContainerReports(ns, depth, root, accepts, inside)
    decreases ns, 0
  {
    if |ns| > 0 {
      NoNodeMatchesInReport(ns[0], depth, root, accepts, inside);
      NoNodeMatchesInReports(ns[1..], depth, root, accepts, inside);
    }
  }

  lemma {:induction false} NoNodeMatchesInReport(n: Node, depth: int, root: Option<UnsafeStringPointer>, accepts: AnyContextualizedEvent -> bool, inside: bool)
    ensures MatchedNode !in DescendantContainerReport(n, depth, root, accepts, inside)
    decreases n, 1
  {
    match n
    case CharacterData(_) =>
    case Element(_, _, children) =>
      NoNodeMatchesInReports(children, depth + 1, root, accepts, true);
      NoNodeMatchesInReports(children, depth + 1, root, accepts, inside);
  }
}
