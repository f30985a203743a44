/**
 * What a selector reports for an event, and which kinds of routine
 * expressions the body under a selector may run for that report.
 */
module Selection {
  import opened Wrappers

  datatype ContainerMatchEvent = AtStart | Within | AtEnd

  datatype SelectionEvent = Unmatched | MatchedNode | MatchedContainer(match_: ContainerMatchEvent)

  /** The expression kinds a routine body may currently run; `Nothing` is Swift's `.none`. */
  datatype RoutineExpressionExecution = Any | Nothing | Selectors | ParentEndSelectors | UserHandlers

  /** `appropriateBodyExecution`: what a selector's body runs for each report; nothing when unmatched. */
  function AppropriateBodyExecution(s: SelectionEvent): (r: Option<RoutineExpressionExecution>)
    ensures r.None? <==> s == Unmatched
    ensures r.Some? ==> r.value != Any && r.value != Nothing
  {
    match s
    case MatchedContainer(AtStart) => Some(UserHandlers)
    case MatchedContainer(Within) => Some(Selectors)
    case MatchedContainer(AtEnd) => Some(ParentEndSelectors)
    case MatchedNode => Some(UserHandlers)
    case Unmatched => None
  }

  predicate AllowsSelectors(m: RoutineExpressionExecution)
  {
    m == Any || m == Selectors
  }

  predicate AllowsParentEndSelectors(m: RoutineExpressionExecution)
  {
    m == Any || m == ParentEndSelectors
  }

  predicate AllowsUserHandlers(m: RoutineExpressionExecution)
  {
    m == Any || m == UserHandlers
  }

  /**
   * Under a matched selector exactly one kind of expression runs: user
   * handlers on a match or a container's start, nested selectors inside a
   * container, parent-end selectors at its end.
   */
  lemma MatchedBodyRunsExactlyOneKind(s: SelectionEvent)
    requires s != Unmatched
    ensures var m := AppropriateBodyExecution(s).value;
      (if AllowsSelectors(m) then 1 else 0) + (if AllowsParentEndSelectors(m) then 1 else 0) +
      (if AllowsUserHandlers(m) then 1 else 0) == 1
    ensures AllowsUserHandlers(AppropriateBodyExecution(s).value) <==> s == MatchedNode || s == MatchedContainer(AtStart)
    ensures AllowsSelectors(AppropriateBodyExecution(s).value) <==> s == MatchedContainer(Within)
    ensures AllowsParentEndSelectors(AppropriateBodyExecution(s).value) <==> s == MatchedContainer(AtEnd)
  {
  }

  /** `.any` allows every kind of expression and `.none` allows none. */
  lemma AnyAllowsAllNothingAllowsNone()
    ensures AllowsSelectors(Any) && AllowsParentEndSelectors(Any) && AllowsUserHandlers(Any)
    ensures !AllowsSelectors(Nothing) && !AllowsParentEndSelectors(Nothing) && !AllowsUserHandlers(Nothing)
  {
  }

  /** `n` copies of one report, as a selector gives for a run of events it treats alike. */
  function Repeated(v: SelectionEvent, n: nat): (r: seq<SelectionEvent>)
    ensures |r| == n
  {
    if n == 0 then [] else [v] + Repeated(v, n - 1)
  }

  lemma {:induction false} RepeatedConcat(v: SelectionEvent, m: nat, n: nat)
    ensures Repeated(v, m) + Repeated(v, n) == Repeated(v, m + n)
  {
    if m > 0 {
      RepeatedConcat(v, m - 1, n);
      assert [v] + (Repeated(v, m - 1) + Repeated(v, n)) == ([v] + Repeated(v, m - 1)) + Repeated(v, n);
    } else {
      assert [] + Repeated(v, n) == Repeated(v, n);
    }
  }

  lemma {:induction false} RepeatedIsConstant(v: SelectionEvent, n: nat, k: nat)
    requires k < n
    ensures Repeated(v, n)[k] == v
  {
    if k > 0 {
      RepeatedIsConstant(v, n - 1, k - 1);
    }
  }
}
