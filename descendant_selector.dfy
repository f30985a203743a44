/** The descendant selector: matches every event at any depth that satisfies its condition. */
module DescendantSelectors {
  import opened Wrappers
  import opened StringPointers
  import opened Events
  import opened Documents
  import opened Selection
  import ChildSelectors

  /** The verdict for one event: a node match exactly when the condition accepts it. */
  function DescendantVerdict(e: AnyContextualizedEvent, condition: AnyContextualizedEvent -> bool): (r: SelectionEvent)
    ensures r == MatchedNode <==> condition(e)
    ensures r == Unmatched <==> !condition(e)
  {
    if condition(e) then MatchedNode else Unmatched
  }

  /** The selector keeps no state of its own: only the allocation that the chain holds. */
  class DescendantSelector {
    constructor ()
    {
    }

    method Process(e: AnyContextualizedEvent, condition: AnyContextualizedEvent -> bool) returns (r: SelectionEvent)
      ensures r == DescendantVerdict(e, condition)
    {
      r := if condition(e) then MatchedNode else Unmatched;
    }
  }

  /** The selector run over a sequence of events: one verdict per event. */
  function RunDescendant(events: seq<AnyContextualizedEvent>, condition: AnyContextualizedEvent -> bool): (r: seq<SelectionEvent>)
    ensures |r| == |events|
    decreases |events|
  {
    if |events| == 0 then [] else [DescendantVerdict(events[0], condition)] + RunDescendant(events[1..], condition)
  }

  lemma {:induction false} RunDescendantPointwise(events: seq<AnyContextualizedEvent>, condition: AnyContextualizedEvent -> bool)
    ensures forall k :: 0 <= k < |events| ==> RunDescendant(events, condition)[k] == DescendantVerdict(events[k], condition)
    decreases |events|
  {
    if |events| > 0 {
      RunDescendantPointwise(events[1..], condition);
    }
  }

  /**
   * Under the same condition, every node the child selector matches among an
   * element's children is matched by the descendant selector too, and the
   * descendant selector matches in addition the accepted events deeper down.
   */
  lemma ChildMatchesAreDescendantMatches(ns: seq<Node>, depth: int, root: Option<UnsafeStringPointer>, condition: AnyContextualizedEvent -> bool)
    ensures var events := ForestEvents(ns, depth, root);
      forall k :: 0 <= k < |events| ==>
        (ChildSelectors.ChildReports(ns, depth, root, condition)[k] == MatchedNode ==> RunDescendant(events, condition)[k] == MatchedNode) &&
        (RunDescendant(events, condition)[k] == MatchedNode && IsText(events[k]) && events[k].context.depth == depth ==>
          ChildSelectors.ChildReports(ns, depth, root, condition)[k] == MatchedNode)
  {
    ChildSelectors.ChildReportsMatchDirectText(ns, depth, root, condition);
    RunDescendantPointwise(ForestEvents(ns, depth, root), condition);
  }
}
