/**
 * The state a routine keeps across the events it is run for: the cursor
 * over body positions, whether it has run before, the state of the run in
 * progress (its event, the kind of expression allowed to run, the chain
 * array in use) and the arena of per-position node states.
 */
module RoutineContexts {
  import opened Wrappers
  import opened Errors
  import opened Memory
  import opened Events
  import opened Names
  import opened Selection
  import opened SelectorKinds
  import opened AppendOnlySelectorArrays
  import opened SelectorPointerBoxes
  import opened UserStateTypes
  import opened RoutineBodies
  import opened NodeStates

  /** Which `allows*` property `execution(_:)` is asked about. */
  datatype ExecutionCategory = SelectorsCategory | ParentEndSelectorsCategory | UserHandlersCategory

  predicate Allows(m: RoutineExpressionExecution, category: ExecutionCategory)
  {
    match category
    case SelectorsCategory => AllowsSelectors(m)
    case ParentEndSelectorsCategory => AllowsParentEndSelectors(m)
    case UserHandlersCategory => AllowsUserHandlers(m)
  }

  /** The state of the run in progress. */
  datatype RunSpecificState = RunSpecificState(
    event: AnyContextualizedEvent,
    routineExpressionExecution: RoutineExpressionExecution,
    selectorChainArray: Option<AppendOnlySelectorArray>)

  /** The mode a run starts in: every kind of expression on the first run, only selectors after. */
  function InitialExecution(hasRunBefore: bool): (m: RoutineExpressionExecution)
    ensures AllowsSelectors(m)
    ensures AllowsUserHandlers(m) <==> !hasRunBefore
    ensures AllowsParentEndSelectors(m) <==> !hasRunBefore
  {
    if hasRunBefore then Selectors else Any
  }

  /** A body description as `init(for:)` leaves it: fully written, with properly nested skips. */
  ghost predicate Built(d: RoutineBodyDescription)
    reads d, d.nodeDescriptions, d.userStateDeinitializers
  {
    d.Valid() && d.currentNextIndex == d.inclusiveLength && WellNested(d.Written(0, d.inclusiveLength), 0)
  }

  /**
   * `Backing.init`: one fresh, empty node state per body position, each
   * owning its own objects.
   */
  ghost predicate EmptyArena(nodes: array<NodeStateReferences>, repr: set<object>, length: nat)
    reads nodes, set i | 0 <= i < nodes.Length :: nodes[i]
    reads set o, i | 0 <= i < nodes.Length && o in nodes[i].Repr :: o
  {
    nodes.Length == length &&
    (forall i :: 0 <= i < length ==>
      nodes[i].Valid() && nodes[i].Repr <= repr && nodes !in nodes[i].Repr &&
      nodes[i].selectorPointerBox == None && nodes[i].Slots() == [] && nodes[i].userStateType == None) &&
    (forall i, j :: 0 <= i < j < length ==> nodes[i].Repr !! nodes[j].Repr)
  }

  method NewArena(length: nat) returns (nodes: array<NodeStateReferences>, ghost repr: set<object>)
    ensures fresh(nodes) && fresh(repr) && nodes !in repr
    ensures EmptyArena(nodes, repr, length)
  {
    var created: seq<NodeStateReferences> := [];
    repr := {};
    for i := 0 to length
      invariant |created| == i
      invariant forall k :: 0 <= k < i ==>
        created[k].Valid() && created[k].Repr <= repr &&
        created[k].selectorPointerBox == None && created[k].Slots() == [] && created[k].userStateType == None
      invariant forall j, k :: 0 <= j < k < i ==> created[j].Repr !! created[k].Repr
      invariant fresh(repr)
    {
      var node := new NodeStateReferences();
      created := created + [node];
      repr := repr + node.Repr;
    }
    nodes := new NodeStateReferences[length](i requires 0 <= i < length => created[i]);
  }

  /** The thread's current-context slot that `asCurrent` sets for the duration of a body. */
  class CurrentContextSlot {
    var current: Option<UnsafeRoutineContext>

    constructor ()
      ensures current == None
    {
      current := None;
    }

    /** `asCurrent`, on entry: the context becomes current; the previous one is handed back for the exit. */
    method Install(context: UnsafeRoutineContext) returns (saved: Option<UnsafeRoutineContext>)
      modifies this
      ensures current == Some(context) && saved == old(current)
    {
      saved := current;
      current := Some(context);
    }

    /** `asCurrent`, on every exit: the previous current context comes back. */
    method Restore(saved: Option<UnsafeRoutineContext>)
      modifies this
      ensures current == saved
    {
      current := saved;
    }
  }

  class UnsafeRoutineContext {
    var nodeIndex: int
    var hasRunBefore: bool
    var runSpecificState: Option<RunSpecificState>
    const bodyDescription: RoutineBodyDescription
    var nodeStateReferences: array<NodeStateReferences>
    ghost var Repr: set<object>

    ghost function DescriptionRepr(): set<object>
    {
      {bodyDescription, bodyDescription.nodeDescriptions, bodyDescription.userStateDeinitializers}
    }

    function BodyLength(): nat
    {
      bodyDescription.inclusiveLength
    }

    /** Position `i` holds a valid node state of its own, inside the context's footprint. */
    ghost predicate NodeValid(i: int)
      requires 0 <= i < nodeStateReferences.Length
      reads this`nodeStateReferences, this`Repr, nodeStateReferences, Repr
    {
      var node := nodeStateReferences[i];
      node in Repr && node.Repr <= Repr &&
      this !in node.Repr && nodeStateReferences !in node.Repr && DescriptionRepr() !! node.Repr &&
      node.Valid()
    }

    ghost predicate Valid()
      reads this`nodeStateReferences, this`Repr, Repr
    {
      this !in Repr && nodeStateReferences in Repr && DescriptionRepr() <= Repr &&
      Built(bodyDescription) && nodeStateReferences.Length == BodyLength() &&
      (forall i :: 0 <= i < BodyLength() ==> nodeStateReferences[i] in Repr) &&
      (forall i :: 0 <= i < BodyLength() ==> NodeValid(i)) &&
      (forall i, j :: 0 <= i < BodyLength() && 0 <= j < BodyLength() && i != j ==>
        nodeStateReferences[i].Repr !! nodeStateReferences[j].Repr)
    }

    /** The node state at position `i`. */
    ghost function Node(i: int): (node: NodeStateReferences)
      requires Valid() && 0 <= i < BodyLength()
      reads this`nodeStateReferences, this`Repr, Repr
      ensures node == nodeStateReferences[i] && NodeValid(i) && node.Valid()
    {
      assert NodeValid(i);
      nodeStateReferences[i]
    }

    /** An empty arena of the body's length, owning nothing else, makes a valid context whose node states are all empty. */
    lemma EmptyArenaInstalled(repr: set<object>)
      requires Built(bodyDescription) && EmptyArena(nodeStateReferences, repr, BodyLength())
      requires this !in repr && nodeStateReferences !in repr && DescriptionRepr() !! repr
      requires Repr == {nodeStateReferences} + repr + DescriptionRepr()
      ensures Valid()
      ensures forall i :: 0 <= i < BodyLength() ==>
        Node(i).selectorPointerBox == None && Node(i).Slots() == [] && Node(i).userStateType == None
    {
      forall i | 0 <= i < BodyLength()
        ensures nodeStateReferences[i] in Repr && NodeValid(i)
      {
        assert nodeStateReferences[i] in nodeStateReferences[i].Repr;
      }
    }

    /** `init(bodyDescription:)`: the cursor at 0, never run, no run in progress, every node state empty. */
    constructor (description: RoutineBodyDescription)
      requires Built(description)
      ensures Valid() && fresh(Repr - DescriptionRepr()) && bodyDescription == description
      ensures nodeIndex == 0 && !hasRunBefore && runSpecificState == None
      ensures forall i :: 0 <= i < BodyLength() ==>
        Node(i).selectorPointerBox == None && Node(i).Slots() == [] && Node(i).userStateType == None
    {
      var nodes, repr := NewArena(description.inclusiveLength);
      nodeIndex := 0;
      hasRunBefore := false;
      runSpecificState := None;
      bodyDescription := description;
      nodeStateReferences := nodes;
      Repr := {nodes} + repr + {description, description.nodeDescriptions, description.userStateDeinitializers};
      new;
      EmptyArenaInstalled(repr);
    }

    //  Node index tracking

    /** `resetNodeIndex`: back to the first position. */
    method ResetNodeIndex()
      modifies this
      ensures nodeIndex == 0
      ensures hasRunBefore == old(hasRunBefore) && runSpecificState == old(runSpecificState)
      ensures nodeStateReferences == old(nodeStateReferences) && Repr == old(Repr)
    {
      nodeIndex := 0;
    }

    /** `incrementNodeIndex`: on to the next position, the first one inside the current node. */
    method IncrementNodeIndex()
      modifies this
      ensures nodeIndex == old(nodeIndex) + 1
      ensures hasRunBefore == old(hasRunBefore) && runSpecificState == old(runSpecificState)
      ensures nodeStateReferences == old(nodeStateReferences) && Repr == old(Repr)
    {
      nodeIndex := nodeIndex + 1;
    }

    /**
     * `skipPastChildrenOfCurrentNode`: the cursor jumps past the current
     * node's subtree, so it moves forward and stays within the body.
     */
    method SkipPastChildrenOfCurrentNode()
      requires Valid() && 0 <= nodeIndex < BodyLength()
      modifies this
      ensures Valid() && nodeIndex == bodyDescription.NextIndexAfterSkipping(old(nodeIndex))
      ensures old(nodeIndex) < nodeIndex <= BodyLength()
      ensures hasRunBefore == old(hasRunBefore) && runSpecificState == old(runSpecificState)
      ensures nodeStateReferences == old(nodeStateReferences) && Repr == old(Repr)
    {
      nodeIndex := bodyDescription.NextIndexAfterSkipping(nodeIndex);
    }

    //  Execution

    /** `execution(_:)`: false outside a run, else whether the run's mode allows the category. */
    function Execution(category: ExecutionCategory): (r: bool)
      reads this
      ensures r <==> runSpecificState.Some? && Allows(runSpecificState.value.routineExpressionExecution, category)
    {
      match runSpecificState
      case None => false
      case Some(state) => Allows(state.routineExpressionExecution, category)
    }

    /**
     * `withExecutionLimited(to:run:)`, on entry: only inside a run; the mode
     * becomes `execution` and the previous mode is handed back for the exit.
     */
    method LimitExecution(execution: RoutineExpressionExecution) returns (saved: RoutineExpressionExecution)
      requires runSpecificState.Some?
      modifies this
      ensures saved == old(runSpecificState.value.routineExpressionExecution)
      ensures runSpecificState == Some(old(runSpecificState.value).(routineExpressionExecution := execution))
      ensures nodeIndex == old(nodeIndex) && hasRunBefore == old(hasRunBefore)
      ensures nodeStateReferences == old(nodeStateReferences) && Repr == old(Repr)
    {
      saved := runSpecificState.value.routineExpressionExecution;
      runSpecificState := Some(runSpecificState.value.(routineExpressionExecution := execution));
    }

    /** `withExecutionLimited(to:run:)`, on every exit: the saved mode comes back, if a run is still in progress. */
    method RestoreExecution(saved: RoutineExpressionExecution)
      modifies this
      ensures runSpecificState ==
        if old(runSpecificState).Some? then Some(old(runSpecificState.value).(routineExpressionExecution := saved)) else None
      ensures nodeIndex == old(nodeIndex) && hasRunBefore == old(hasRunBefore)
      ensures nodeStateReferences == old(nodeStateReferences) && Repr == old(Repr)
    {
      if runSpecificState.Some? {
        runSpecificState := Some(runSpecificState.value.(routineExpressionExecution := saved));
      }
    }

    //  Run configuration

    /**
     * `configuredForRun(with:body:)`, on entry: the run's state holds the
     * event, no chain array, and mode `.any` on the first run and
     * `.selectors` on every later one.
     */
    method BeginRun(event: AnyContextualizedEvent)
      modifies this
      ensures runSpecificState == Some(RunSpecificState(event, InitialExecution(old(hasRunBefore)), None))
      ensures nodeIndex == old(nodeIndex) && hasRunBefore == old(hasRunBefore)
      ensures nodeStateReferences == old(nodeStateReferences) && Repr == old(Repr)
    {
      runSpecificState := Some(RunSpecificState(event, if hasRunBefore then Selectors else Any, None));
    }

    /**
     * `configuredForRun(with:body:)`, on every exit, whether the body
     * returned or threw: the cursor is back at 0, the routine has run, and
     * no run is in progress.
     */
    method FinishRun()
      modifies this
      ensures nodeIndex == 0 && hasRunBefore && runSpecificState == None
      ensures nodeStateReferences == old(nodeStateReferences) && Repr == old(Repr)
    {
      ResetNodeIndex();
      hasRunBefore := true;
      runSpecificState := None;
    }

    //  Node state

    /**
     * `with(currentSelector:body:)`: the selector of the node at the cursor,
     * which must be inside the body; created in its initial state on first
     * use, the same kind-checked selector after.
     */
    method PointerToCurrentSelector(kind: SelectorKind) returns (p: BoxedPointer)
      requires Valid() && 0 <= nodeIndex < BodyLength()
      requires Node(nodeIndex).selectorPointerBox.Some? ==> Node(nodeIndex).selectorPointerBox.value.kind == kind
      modifies this, nodeStateReferences[nodeIndex]
      ensures Valid() && fresh(Repr - old(Repr)) && nodeStateReferences == old(nodeStateReferences)
      ensures nodeIndex == old(nodeIndex) && hasRunBefore == old(hasRunBefore) && runSpecificState == old(runSpecificState)
      ensures PointsTo(p, kind)
      ensures old(Node(nodeIndex).selectorPointerBox).Some? ==>
        Node(nodeIndex).selectorPointerBox == old(Node(nodeIndex).selectorPointerBox) &&
        p == old(Node(nodeIndex).selectorPointerBox).value.raw
      ensures old(Node(nodeIndex).selectorPointerBox).None? ==>
        Node(nodeIndex).selectorPointerBox == Some(Boxing(p, kind)) && (p.ChainSelector? || !p.link.NullPointer?) &&
        fresh(BoxedTarget(p))
      ensures Node(nodeIndex).Slots() == old(Node(nodeIndex).Slots()) && Node(nodeIndex).userStateType == old(Node(nodeIndex).userStateType)
    {
      var node := nodeStateReferences[nodeIndex];
      p := node.PointerToSelector(kind);
      Repr := Repr + node.Repr;
      ReestablishAfterNodeChange(nodeIndex);
    }

    /** The arena is still valid after the node at `index` grew by fresh objects and nothing else in it changed. */
    twostate lemma ReestablishAfterNodeChange(index: int)
      requires old(Valid()) && 0 <= index < BodyLength()
      requires nodeStateReferences == old(nodeStateReferences)
      requires forall o :: o in old(Repr) && o !in old(nodeStateReferences[index].Repr) ==> unchanged(o)
      requires nodeStateReferences[index].Valid() && fresh(nodeStateReferences[index].Repr - old(nodeStateReferences[index].Repr))
      requires Repr == old(Repr) + nodeStateReferences[index].Repr
      ensures Valid()
    {
      assert old(NodeValid(index));
      assert unchanged(nodeStateReferences);
      forall i | 0 <= i < BodyLength() && i != index
        ensures nodeStateReferences[i].Repr == old(nodeStateReferences[i].Repr)
        ensures nodeStateReferences[i].Valid()
      {
        assert old(NodeValid(i));
        assert old(nodeStateReferences[i].Repr !! nodeStateReferences[index].Repr);
        assert unchanged(nodeStateReferences[i]);
      }
      forall i | 0 <= i < BodyLength()
        ensures NodeValid(i)
      {
        assert old(NodeValid(i));
      }
      forall i, j | 0 <= i < BodyLength() && 0 <= j < BodyLength() && i != j
        ensures nodeStateReferences[i].Repr !! nodeStateReferences[j].Repr
      {
        assert old(nodeStateReferences[i].Repr !! nodeStateReferences[j].Repr);
      }
    }

    /** `pushEmptyUserStateSlot(to:)`: exactly one empty slot goes on top at position `index`. */
    method PushEmptyUserStateSlot(index: int)
      requires Valid() && 0 <= index < BodyLength()
      modifies this, Node(index).Repr
      ensures Valid() && fresh(Repr - old(Repr)) && nodeStateReferences == old(nodeStateReferences)
      ensures nodeIndex == old(nodeIndex) && hasRunBefore == old(hasRunBefore) && runSpecificState == old(runSpecificState)
      ensures Node(index).Slots() == old(Node(index).Slots()) + [None]
      ensures Node(index).selectorPointerBox == old(Node(index).selectorPointerBox)
      ensures Node(index).userStateType == old(Node(index).userStateType)
    {
      var node := nodeStateReferences[index];
      node.PushEmptyUserStateSlot();
      Repr := Repr + node.Repr;
      ReestablishAfterNodeChange(index);
    }

    /** `uncheckedPointerToUserState(at:initializer:)` on the node state at position `index`. */
    method UncheckedPointerToUserState(index: int, initializer: Result<int, Error>) returns (r: Result<UserStateCell, Error>)
      requires Valid() && 0 <= index < BodyLength() && |Node(index).Slots()| > 0
      modifies Node(index).Repr
      ensures Valid() && Repr == old(Repr)
      ensures |Node(index).Slots()| == |old(Node(index).Slots())|
      ensures Node(index).Slots()[..|Node(index).Slots()| - 1] == old(Node(index).Slots())[..|Node(index).Slots()| - 1]
      ensures old(Node(index).Slots())[|Node(index).Slots()| - 1].Some? ==>
        r == Ok(old(Node(index).Slots())[|Node(index).Slots()| - 1].value) && Node(index).Slots() == old(Node(index).Slots())
      ensures old(Node(index).Slots())[|Node(index).Slots()| - 1].None? && initializer.Err? ==>
        r == Err(initializer.error) && Node(index).Slots() == old(Node(index).Slots())
      ensures old(Node(index).Slots())[|Node(index).Slots()| - 1].None? && initializer.Ok? ==>
        r.Ok? && fresh(r.value) && r.value.value == initializer.value && Node(index).Slots()[|Node(index).Slots()| - 1] == Some(r.value)
    {
      var node := nodeStateReferences[index];
      r := node.UncheckedPointerToUserState(initializer);
      ReestablishAfterNodeChange(index);
    }

    /** `checkedPointerToUserState(at:initializer:type:)` on the node state at position `index`. */
    method CheckedPointerToUserState(index: int, initializer: Result<int, Error>, t: UserStateType) returns (r: Result<UserStateCell, Error>)
      requires Valid() && 0 <= index < BodyLength() && |Node(index).Slots()| > 0
      requires Node(index).userStateType.Some? ==> SameType(Node(index).userStateType.value, t)
      modifies Node(index).Repr
      ensures Valid() && Repr == old(Repr)
      ensures Node(index).userStateType == Some(t)
      ensures |Node(index).Slots()| == |old(Node(index).Slots())|
      ensures Node(index).Slots()[..|Node(index).Slots()| - 1] == old(Node(index).Slots())[..|Node(index).Slots()| - 1]
      ensures old(Node(index).Slots())[|Node(index).Slots()| - 1].Some? ==>
        r == Ok(old(Node(index).Slots())[|Node(index).Slots()| - 1].value) && Node(index).Slots() == old(Node(index).Slots())
      ensures old(Node(index).Slots())[|Node(index).Slots()| - 1].None? && initializer.Err? ==>
        r == Err(initializer.error) && Node(index).Slots() == old(Node(index).Slots())
      ensures old(Node(index).Slots())[|Node(index).Slots()| - 1].None? && initializer.Ok? ==>
        r.Ok? && fresh(r.value) && r.value.value == initializer.value && Node(index).Slots()[|Node(index).Slots()| - 1] == Some(r.value)
    {
      var node := nodeStateReferences[index];
      r := node.CheckedPointerToUserState(initializer, t);
      ReestablishAfterNodeChange(index);
    }

    /** `popUserStateSlot(from:using:)`: only the top slot at position `index` goes, released iff it was filled. */
    method PopUserStateSlot(index: int) returns (ghost log: seq<MemoryEvent>)
      requires Valid() && 0 <= index < BodyLength() && |Node(index).Slots()| > 0
      modifies Node(index).Repr
      ensures Valid() && Repr == old(Repr)
      ensures Node(index).Slots() == old(Node(index).Slots())[..|old(Node(index).Slots())| - 1]
      ensures log == ReleaseLog(FilledCells([old(Node(index).Slots())[|old(Node(index).Slots())| - 1]]))
    {
      var node := nodeStateReferences[index];
      log := node.PopUserStateSlot();
      ReestablishAfterNodeChange(index);
    }

    //  Events

    /** `borrowingEvent`: the run's event; outside a run this is a precondition failure. */
    function Event(): AnyContextualizedEvent
      requires runSpecificState.Some?
      reads this
    {
      runSpecificState.value.event
    }

    /** `borrowingExpectedTextEvent`: the run's event if it is text, else `expectedTextNode`. */
    function ExpectedTextEvent(): (r: Result<TextEvent, Error>)
      requires runSpecificState.Some?
      reads this
      ensures r.Ok? <==> IsText(Event())
      ensures r.Ok? ==> Event().event == Text(r.value)
      ensures r.Err? ==> r.error == Zemel(ExpectedTextNode)
    {
      match Event().event
      case Text(t) => Ok(t)
      case _ => Err(Zemel(ExpectedTextNode))
    }

    /** `borrowingExpectedElementStartEvent`: the run's event if it starts an element, else `expectedElementNode`. */
    function ExpectedElementStartEvent(): (r: Result<ElementStartEvent, Error>)
      requires runSpecificState.Some?
      reads this
      ensures r.Ok? <==> IsElementStart(Event())
      ensures r.Ok? ==> Event().event == ElementStart(r.value)
      ensures r.Err? ==> r.error == Zemel(ExpectedElementNode)
    {
      match Event().event
      case ElementStart(s) => Ok(s)
      case _ => Err(Zemel(ExpectedElementNode))
    }

    /** `borrowingExpectedElementStartName`: the started element's name, else `expectedElementNode`. */
    function ExpectedElementStartName(): (r: Result<UnsafeName, Error>)
      requires runSpecificState.Some?
      reads this
      ensures r.Ok? <==> IsElementStart(Event())
      ensures r.Ok? ==> Event().event.start.name == r.value
      ensures r.Err? ==> r.error == Zemel(ExpectedElementNode)
    {
      match Event().event
      case ElementStart(s) => Ok(s.name)
      case _ => Err(Zemel(ExpectedElementNode))
    }

    /** `with(event:body:)`, on entry: only inside a run; the run's event becomes `event`, the previous one is handed back. */
    method InstallEvent(event: AnyContextualizedEvent) returns (saved: AnyContextualizedEvent)
      requires runSpecificState.Some?
      modifies this
      ensures saved == old(runSpecificState.value.event)
      ensures runSpecificState == Some(old(runSpecificState.value).(event := event))
      ensures nodeIndex == old(nodeIndex) && hasRunBefore == old(hasRunBefore)
      ensures nodeStateReferences == old(nodeStateReferences) && Repr == old(Repr)
    {
      saved := runSpecificState.value.event;
      runSpecificState := Some(runSpecificState.value.(event := event));
    }

    /** `with(event:body:)`, on every exit: the saved event comes back, if a run is still in progress. */
    method RestoreEvent(saved: AnyContextualizedEvent)
      modifies this
      ensures runSpecificState ==
        if old(runSpecificState).Some? then Some(old(runSpecificState.value).(event := saved)) else None
      ensures nodeIndex == old(nodeIndex) && hasRunBefore == old(hasRunBefore)
      ensures nodeStateReferences == old(nodeStateReferences) && Repr == old(Repr)
    {
      if runSpecificState.Some? {
        runSpecificState := Some(runSpecificState.value.(event := saved));
      }
    }

    //  Selector chains

    /** `selectorChainArrayPointer`: the chain array in use, none outside a run. */
    function SelectorChainArray(): (r: Option<AppendOnlySelectorArray>)
      reads this
      ensures runSpecificState.None? ==> r.None?
    {
      if runSpecificState.Some? then runSpecificState.value.selectorChainArray else None
    }

    /**
     * `with(selectorChainState:body:)`, on entry: inside a run the chain
     * array becomes `array`; outside one nothing changes. The previous
     * array (none outside a run) is handed back.
     */
    method InstallSelectorChainArray(array_: AppendOnlySelectorArray) returns (saved: Option<AppendOnlySelectorArray>)
      modifies this
      ensures saved == old(SelectorChainArray())
      ensures runSpecificState ==
        if old(runSpecificState).Some? then Some(old(runSpecificState.value).(selectorChainArray := Some(array_))) else None
      ensures nodeIndex == old(nodeIndex) && hasRunBefore == old(hasRunBefore)
      ensures nodeStateReferences == old(nodeStateReferences) && Repr == old(Repr)
    {
      saved := SelectorChainArray();
      if runSpecificState.Some? {
        runSpecificState := Some(runSpecificState.value.(selectorChainArray := Some(array_)));
      }
    }

    /** `with(selectorChainState:body:)`, on every exit: the saved chain array comes back, if a run is in progress. */
    method RestoreSelectorChainArray(saved: Option<AppendOnlySelectorArray>)
      modifies this
      ensures runSpecificState ==
        if old(runSpecificState).Some? then Some(old(runSpecificState.value).(selectorChainArray := saved)) else None
      ensures nodeIndex == old(nodeIndex) && hasRunBefore == old(hasRunBefore)
      ensures nodeStateReferences == old(nodeStateReferences) && Repr == old(Repr)
    {
      if runSpecificState.Some? {
        runSpecificState := Some(runSpecificState.value.(selectorChainArray := saved));
      }
    }

    //  Release

    /** What releasing the node state at position `i` releases. */
    ghost function PositionReleaseLog(i: int): seq<MemoryEvent>
      requires Valid() && 0 <= i < BodyLength()
      reads this`nodeStateReferences, this`Repr, Repr
    {
      var node := Node(i);
      NodeReleaseLog(node.selectorPointerBox, node.Slots())
    }

    /**
     * `Backing.deinitialize`: every position's node state is released in
     * position order; `logs[i]` is what position `i` releases.
     */
    method ReleaseArena() returns (ghost logs: seq<seq<MemoryEvent>>)
      requires Valid()
      ensures |logs| == BodyLength()
      ensures forall i :: 0 <= i < BodyLength() ==> logs[i] == PositionReleaseLog(i)
    {
      logs := [];
      for i := 0 to BodyLength()
        invariant |logs| == i
        invariant forall k :: 0 <= k < i ==> logs[k] == PositionReleaseLog(k)
      {
        assert Node(i) == nodeStateReferences[i];
        var log := nodeStateReferences[i].Deinitialize();
        logs := logs + [log];
      }
    }

    /** The context's `deinitialize`: every node state released, in position order. */
    method Deinitialize() returns (ghost logs: seq<seq<MemoryEvent>>)
      requires Valid()
      ensures |logs| == BodyLength()
      ensures forall i :: 0 <= i < BodyLength() ==> logs[i] == PositionReleaseLog(i)
    {
      logs := ReleaseArena();
    }

    /**
     * `destroyAndRecreateBacking` (`RoutineContext.reset`): every node
     * state is released, a fresh empty arena replaces it, the body
     * description stays, and the routine counts as never run, so its next
     * run starts in mode `.any`.
     */
    method DestroyAndRecreateBacking() returns (ghost logs: seq<seq<MemoryEvent>>)
      requires Valid()
      modifies this
      ensures Valid() && fresh(Repr - DescriptionRepr()) && fresh(nodeStateReferences)
      ensures |logs| == BodyLength()
      ensures forall i :: 0 <= i < BodyLength() ==> logs[i] == old(PositionReleaseLog(i))
      ensures nodeIndex == 0 && !hasRunBefore && runSpecificState == None
      ensures forall i :: 0 <= i < BodyLength() ==>
        Node(i).selectorPointerBox == None && Node(i).Slots() == [] && Node(i).userStateType == None
      ensures InitialExecution(hasRunBefore) == Any
    {
      logs := ReleaseArena();
      nodeIndex := 0;
      hasRunBefore := false;
      runSpecificState := None;
      InstallEmptyArena();
    }

    /** `Backing.init` for a context that already exists: a fresh empty arena replaces the old one. */
    method InstallEmptyArena()
      requires Built(bodyDescription)
      modifies this
      ensures Valid() && fresh(Repr - DescriptionRepr()) && fresh(nodeStateReferences)
      ensures forall i :: 0 <= i < BodyLength() ==>
        Node(i).selectorPointerBox == None && Node(i).Slots() == [] && Node(i).userStateType == None
      ensures nodeIndex == old(nodeIndex) && hasRunBefore == old(hasRunBefore) && runSpecificState == old(runSpecificState)
    {
      var nodes, repr := NewArena(BodyLength());
      nodeStateReferences := nodes;
      Repr := {nodes} + repr + DescriptionRepr();
      EmptyArenaInstalled(repr);
    }
  }

  /**
   * `executeUserHandlerExpressionIfAllowed`: the expression runs only when a
   * context is current and its mode allows user handlers, and then it runs
   * in mode `.none`; afterwards the mode is what it was. `during` is the
   * mode the expression ran in.
   */
  method ExecuteUserHandlerExpressionIfAllowed(slot: CurrentContextSlot) returns (ran: bool, during: Option<RoutineExpressionExecution>)
    modifies if slot.current.Some? then {slot.current.value} else {}
    ensures ran <==> old(slot.current).Some? && old(slot.current.value.Execution(UserHandlersCategory))
    ensures ran ==> during == Some(Nothing) && !AllowsUserHandlers(Nothing)
    ensures !ran ==> during == None
    ensures slot.current.Some? ==>
      slot.current.value.runSpecificState == old(slot.current.value.runSpecificState) &&
      slot.current.value.nodeIndex == old(slot.current.value.nodeIndex)
  {
    ran := false;
    during := None;
    if slot.current.Some? && slot.current.value.Execution(UserHandlersCategory) {
      var context := slot.current.value;
      var saved := context.LimitExecution(Nothing);
      during := Some(context.runSpecificState.value.routineExpressionExecution);
      ran := true;
      context.RestoreExecution(saved);
    }
  }
}
