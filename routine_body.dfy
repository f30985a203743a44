/**
 * The static description of a routine body: the handler tree is counted
 * once to size two arrays, then walked in pre-order, each node writing the
 * index just past its own subtree and the deinitializer of its user state.
 */
module RoutineBodies {
  import opened UserStateTypes

  /**
   * The static shape of a routine body: the empty body, a handler node
   * with the user state type it keeps and its content, and a group of
   * bodies in order.
   */
  datatype BodyShape =
    | VoidBody
    | NodeBody(content: BodyShape, userState: UserStateType)
    | Group(members: seq<BodyShape>)

  /** What a node writes at its index: the first index after the node and its descendants. */
  datatype NodeDescription = NodeDescription(skipPastIndex: nat)

  /** Deinitializes (and does not deallocate) one user state of the given type. */
  datatype UserStateDeinitializer = DeinitializeUserState(stateType: UserStateType)

  /** The two entries written for one node. */
  datatype NodeRecord = NodeRecord(description: NodeDescription, deinitializer: UserStateDeinitializer)

  /** `build(bounds:)`: the number of nodes in the body, the nodes themselves included. */
  function InclusiveLength(b: BodyShape): nat
    decreases b, 1
  {
    match b
    case VoidBody => 0
    case NodeBody(content, _) => 1 + InclusiveLength(content)
    case Group(ms) => MembersLength(ms, b)
  }

  /** A group's members counted in turn: the group holds at least the nodes of each member. */
  function MembersLength(ms: seq<BodyShape>, ghost parent: BodyShape): (r: nat)
    requires forall i :: 0 <= i < |ms| ==> ms[i] < parent
    ensures forall i :: 0 <= i < |ms| ==> InclusiveLength(ms[i]) <= r
    decreases parent, 0, |ms|
  {
    if |ms| == 0 then 0 else InclusiveLength(ms[0]) + MembersLength(ms[1..], parent)
  }

  /** `build(description:)` from index `start`: each node records itself before its content, in pre-order. */
  function Records(b: BodyShape, start: nat): (r: seq<NodeRecord>)
    decreases b, 1
    ensures |r| == InclusiveLength(b)
  {
    match b
    case VoidBody => []
    case NodeBody(content, t) =>
      [NodeRecord(NodeDescription(start + 1 + InclusiveLength(content)), DeinitializeUserState(t))] + Records(content, start + 1)
    case Group(ms) => MembersRecords(ms, start, b)
  }

  /** A group's members described in turn, each starting where the previous one ended. */
  function MembersRecords(ms: seq<BodyShape>, start: nat, ghost parent: BodyShape): (r: seq<NodeRecord>)
    requires forall i :: 0 <= i < |ms| ==> ms[i] < parent
    decreases parent, 0, |ms|
    ensures |r| == MembersLength(ms, parent)
  {
    if |ms| == 0 then []
    else Records(ms[0], start) + MembersRecords(ms[1..], start + InclusiveLength(ms[0]), parent)
  }

  /** The members from `i` on: member `i` first, then the ones after it from where it ends. */
  lemma MembersFrom(ms: seq<BodyShape>, i: nat, start: nat, parent: BodyShape)
    requires forall j :: 0 <= j < |ms| ==> ms[j] < parent
    requires i < |ms|
    ensures MembersLength(ms[i..], parent) == InclusiveLength(ms[i]) + MembersLength(ms[i + 1..], parent)
    ensures MembersRecords(ms[i..], start, parent) ==
      Records(ms[i], start) + MembersRecords(ms[i + 1..], start + InclusiveLength(ms[i]), parent)
  {
    assert ms[i..][0] == ms[i] && ms[i..][1..] == ms[i + 1..];
  }

  /**
   * Records written from index `start` whose skip indices describe proper
   * subtrees: each lies past its own index and within the records, and
   * every index inside a node's subtree skips to no further than the node.
   */
  predicate WellNested(rs: seq<NodeRecord>, start: nat)
  {
    (forall i :: 0 <= i < |rs| ==>
      start + i < rs[i].description.skipPastIndex <= start + |rs|) &&
    (forall i, k :: 0 <= i < k < |rs| && start + k < rs[i].description.skipPastIndex ==>
      rs[k].description.skipPastIndex <= rs[i].description.skipPastIndex)
  }

  lemma WellNestedCons(r: NodeRecord, rest: seq<NodeRecord>, start: nat)
    requires WellNested(rest, start + 1)
    requires r.description.skipPastIndex == start + 1 + |rest|
    ensures WellNested([r] + rest, start)
  {
    var rs := [r] + rest;
    forall i, k | 0 <= i < k < |rs| && start + k < rs[i].description.skipPastIndex
      ensures rs[k].description.skipPastIndex <= rs[i].description.skipPastIndex
    {
      if i > 0 {
        assert rs[i] == rest[i - 1] && rs[k] == rest[k - 1];
      } else {
        assert rs[k] == rest[k - 1];
      }
    }
    forall i | 0 <= i < |rs|
      ensures start + i < rs[i].description.skipPastIndex <= start + |rs|
    {
      if i > 0 {
        assert rs[i] == rest[i - 1];
      }
    }
  }

  lemma WellNestedConcat(a: seq<NodeRecord>, b: seq<NodeRecord>, start: nat)
    requires WellNested(a, start) && WellNested(b, start + |a|)
    ensures WellNested(a + b, start)
  {
    var rs := a + b;
    forall i, k | 0 <= i < k < |rs| && start + k < rs[i].description.skipPastIndex
      ensures rs[k].description.skipPastIndex <= rs[i].description.skipPastIndex
    {
      if i >= |a| {
        assert rs[i] == b[i - |a|] && rs[k] == b[k - |a|];
      } else {
        assert rs[i] == a[i];
        assert k < |a|;
        assert rs[k] == a[k];
      }
    }
    forall i | 0 <= i < |rs|
      ensures start + i < rs[i].description.skipPastIndex <= start + |rs|
    {
      if i >= |a| {
        assert rs[i] == b[i - |a|];
      } else {
        assert rs[i] == a[i];
      }
    }
  }

  /** Every description the build writes nests properly: `i < skipPastIndex(i) <= length`, and subtrees nest. */
  lemma {:induction false} RecordsAreWellNested(b: BodyShape, start: nat)
    decreases b, 1
    ensures WellNested(Records(b, start), start)
  {
    match b
    case VoidBody =>
    case NodeBody(content, t) =>
      RecordsAreWellNested(content, start + 1);
      WellNestedCons(Records(b, start)[0], Records(content, start + 1), start);
    case Group(ms) =>
      MembersRecordsAreWellNested(ms, start, b);
  }

  lemma {:induction false} MembersRecordsAreWellNested(ms: seq<BodyShape>, start: nat, parent: BodyShape)
    requires forall i :: 0 <= i < |ms| ==> ms[i] < parent
    decreases parent, 0, |ms|
    ensures WellNested(MembersRecords(ms, start, parent), start)
  {
    if |ms| > 0 {
      RecordsAreWellNested(ms[0], start);
      MembersRecordsAreWellNested(ms[1..], start + InclusiveLength(ms[0]), parent);
      WellNestedConcat(Records(ms[0], start), MembersRecords(ms[1..], start + InclusiveLength(ms[0]), parent), start);
    }
  }

  /**
   * `RoutineBodyDescription`: a node description and a user state
   * deinitializer per node, written at a moving cursor.
   */
  class RoutineBodyDescription {
    const inclusiveLength: nat
    const nodeDescriptions: array<NodeDescription>
    const userStateDeinitializers: array<UserStateDeinitializer>
    var currentNextIndex: nat

    ghost predicate Valid()
      reads this
    {
      nodeDescriptions.Length == inclusiveLength && userStateDeinitializers.Length == inclusiveLength &&
      currentNextIndex <= inclusiveLength
    }

    /** The records written at indices `from` up to `to`. */
    ghost function Written(from: nat, to: nat): (r: seq<NodeRecord>)
      requires Valid() && from <= to <= inclusiveLength
      reads this, nodeDescriptions, userStateDeinitializers
      ensures |r| == to - from
    {
      seq(to - from, i requires 0 <= i < to - from reads nodeDescriptions, userStateDeinitializers =>
        NodeRecord(nodeDescriptions[from + i], userStateDeinitializers[from + i]))
    }

    /** `init(bounds:)`: room for `bounds` nodes, none written yet. */
    constructor (bounds: nat)
      ensures Valid() && inclusiveLength == bounds && currentNextIndex == 0
      ensures fresh(nodeDescriptions) && fresh(userStateDeinitializers)
    {
      inclusiveLength := bounds;
      nodeDescriptions := new NodeDescription[bounds];
      userStateDeinitializers := new UserStateDeinitializer[bounds];
      currentNextIndex := 0;
    }

    /**
     * `didEncounterNode`: a node at the cursor skips past itself and its
     * `contentLength` descendants; only that index is written and the cursor
     * moves on by one. Encountering a node with the cursor at the length is
     * a precondition failure.
     */
    method DidEncounterNode(contentLength: nat, deinitializer: UserStateDeinitializer)
      requires Valid() && currentNextIndex < inclusiveLength
      modifies this, nodeDescriptions, userStateDeinitializers
      ensures Valid() && currentNextIndex == old(currentNextIndex) + 1
      ensures Written(0, currentNextIndex) ==
        old(Written(0, currentNextIndex)) + [NodeRecord(NodeDescription(old(currentNextIndex) + 1 + contentLength), deinitializer)]
      ensures Written(currentNextIndex, inclusiveLength) == old(Written(currentNextIndex + 1, inclusiveLength))
    {
      nodeDescriptions[currentNextIndex] := NodeDescription(currentNextIndex + 1 + contentLength);
      userStateDeinitializers[currentNextIndex] := deinitializer;
      currentNextIndex := currentNextIndex + 1;
    }

    /**
     * `assertCorrectlyBuilt`: traps unless every node counted was written.
     * Once it passes, a description whose written records are the layout of
     * a body `b` is complete, and its skip indices nest as subtrees.
     */
    method AssertCorrectlyBuilt(ghost b: BodyShape)
      requires Valid() && currentNextIndex == inclusiveLength
      ensures Written(0, currentNextIndex) == Records(b, 0) ==> WellNested(Written(0, inclusiveLength), 0)
    {
      RecordsAreWellNested(b, 0);
    }

    /** `nextIndexAfterSkipping`: the index just past the node at `index` and its subtree. */
    function NextIndexAfterSkipping(index: nat): (r: nat)
      requires Valid() && index < inclusiveLength
      reads this, nodeDescriptions, userStateDeinitializers
      ensures Valid() && currentNextIndex == inclusiveLength && WellNested(Written(0, inclusiveLength), 0) ==>
        index < r <= inclusiveLength
    {
      assert currentNextIndex == inclusiveLength ==> Written(0, inclusiveLength)[index].description == nodeDescriptions[index];
      nodeDescriptions[index].skipPastIndex
    }

    /** `deinitializerForUserState(at:)`: the deinitializer recorded for the node at `index`. */
    function DeinitializerForUserState(index: nat): (r: UserStateDeinitializer)
      requires Valid() && index < inclusiveLength
      reads this, userStateDeinitializers
      ensures r == Written(0, inclusiveLength)[index].deinitializer
    {
      userStateDeinitializers[index]
    }
  }

  /**
   * `build(description:)` for the body `b`: its nodes are written in
   * pre-order from the cursor on, exactly as `Records` lays them out, and
   * nothing before the cursor changes.
   */
  method Build(b: BodyShape, d: RoutineBodyDescription)
    requires d.Valid() && d.currentNextIndex + InclusiveLength(b) <= d.inclusiveLength
    modifies d, d.nodeDescriptions, d.userStateDeinitializers
    decreases b, 2
    ensures d.Valid() && d.currentNextIndex == old(d.currentNextIndex) + InclusiveLength(b)
    ensures d.Written(0, d.currentNextIndex) == old(d.Written(0, d.currentNextIndex)) + Records(b, old(d.currentNextIndex))
  {
    match b
    case VoidBody =>
    case NodeBody(content, t) =>
      var contentLength := InclusiveLength(content);
      d.DidEncounterNode(contentLength, DeinitializeUserState(t));
      Build(content, d);
    case Group(ms) =>
      BuildMembers(ms, b, d);
  }

  /**
   * Members before `i` are built: the cursor has moved past them, and what
   * is left to write for the group, after what is already written, makes up
   * the group's whole layout from `start`.
   */
  ghost predicate Building(d: RoutineBodyDescription, ms: seq<BodyShape>, i: nat, parent: BodyShape, start: nat, before: seq<NodeRecord>)
    reads d, d.nodeDescriptions, d.userStateDeinitializers
  {
    (forall j :: 0 <= j < |ms| ==> ms[j] < parent) &&
    i <= |ms| && d.Valid() && start + MembersLength(ms, parent) <= d.inclusiveLength &&
    d.currentNextIndex + MembersLength(ms[i..], parent) == start + MembersLength(ms, parent) &&
    d.Written(0, d.currentNextIndex) + MembersRecords(ms[i..], d.currentNextIndex, parent) ==
      before + MembersRecords(ms, start, parent)
  }

  /** A group's members built in turn, each from where the previous one ended, as `MembersRecords` lays them out. */
  method BuildMembers(ms: seq<BodyShape>, ghost parent: BodyShape, d: RoutineBodyDescription)
    requires forall i :: 0 <= i < |ms| ==> ms[i] < parent
    requires d.Valid() && d.currentNextIndex + MembersLength(ms, parent) <= d.inclusiveLength
    modifies d, d.nodeDescriptions, d.userStateDeinitializers
    decreases parent, 1
    ensures d.Valid() && d.currentNextIndex == old(d.currentNextIndex) + MembersLength(ms, parent)
    ensures d.Written(0, d.currentNextIndex) ==
      old(d.Written(0, d.currentNextIndex)) + MembersRecords(ms, old(d.currentNextIndex), parent)
  {
    ghost var start := d.currentNextIndex;
    ghost var before := d.Written(0, start);
    assert ms[0..] == ms;
    var i := 0;
    while i < |ms|
      invariant Building(d, ms, i, parent, start, before)
    {
      BuildMember(ms, i, parent, d, start, before);
      i := i + 1;
    }
    assert ms[i..] == [];
  }

  /** One turn of that loop: member `i` is built where the cursor stands. */
  method BuildMember(ms: seq<BodyShape>, i: nat, ghost parent: BodyShape, d: RoutineBodyDescription, ghost start: nat, ghost before: seq<NodeRecord>)
    requires i < |ms| && Building(d, ms, i, parent, start, before)
    modifies d, d.nodeDescriptions, d.userStateDeinitializers
    decreases parent, 0
    ensures Building(d, ms, i + 1, parent, start, before)
  {
    ghost var at := d.currentNextIndex;
    ghost var written := d.Written(0, at);
    ghost var rest := MembersRecords(ms[i + 1..], at + InclusiveLength(ms[i]), parent);
    MembersFrom(ms, i, at, parent);
    Build(ms[i], d);
    assert d.Written(0, d.currentNextIndex) + rest == written + (Records(ms[i], at) + rest);
  }

  /**
   * `init(for:)`: count the body, size the description, write it, and the
   * consistency assertion holds: every index was written, each with its
   * node's skip index and deinitializer, and the skips nest as subtrees.
   */
  method DescriptionFor(b: BodyShape) returns (d: RoutineBodyDescription)
    ensures fresh(d) && d.Valid() && d.inclusiveLength == InclusiveLength(b) && d.currentNextIndex == d.inclusiveLength
    ensures d.Written(0, d.inclusiveLength) == Records(b, 0)
    ensures WellNested(d.Written(0, d.inclusiveLength), 0)
  {
    var bounds := InclusiveLength(b);
    d := new RoutineBodyDescription(bounds);
    assert d.Written(0, 0) == [];
    Build(b, d);
    d.AssertCorrectlyBuilt(b);
  }
}
