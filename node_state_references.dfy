/**
 * The state the engine keeps for one position of a routine body: the
 * selector deciding which events reach it, created on first use and
 * checked against the kind asked for ever after, and a stack of user
 * state slots, one per open match, each filled lazily by an initializer.
 */
module NodeStates {
  import opened Wrappers
  import opened Errors
  import opened Memory
  import opened Stacks
  import opened SelectorKinds
  import opened AppendOnlySelectorArrays
  import opened ChainExecutingSelectors
  import opened SelectorPointerBoxes
  import opened UserStateTypes

  /** A user state cell allocated by a routine's initializer; what it holds belongs to the user. */
  class UserStateCell {
    var value: int

    constructor (initial: int)
      ensures value == initial
    {
      value := initial;
    }
  }

  /** A slot is empty until the state is first asked for. */
  type UserStateSlot = Option<UserStateCell>

  /** The cells of the filled slots, bottom to top. */
  function FilledCells(slots: seq<UserStateSlot>): (cells: seq<UserStateCell>)
    ensures |cells| <= |slots|
    ensures forall i :: 0 <= i < |slots| && slots[i].Some? ==> slots[i].value in cells
    ensures forall k :: 0 <= k < |cells| ==> exists i :: 0 <= i < |slots| && slots[i].Some? && cells[k] == slots[i].value
  {
    if |slots| == 0 then []
    else
      var rest := FilledCells(slots[1..]);
      assert forall i :: 0 < i < |slots| ==> slots[i] == slots[1..][i - 1];
      match slots[0]
      case None => rest
      case Some(c) => [c] + rest
  }

  /** The release of the filled slots from `i` on starts with the release of slot `i`, if filled. */
  lemma ReleaseLogOfSlots(slots: seq<UserStateSlot>, i: nat)
    requires i < |slots|
    ensures ReleaseLog(FilledCells(slots[i..])) ==
      (if slots[i].Some? then [Deinitialized(slots[i].value), Deallocated(slots[i].value)] else []) + ReleaseLog(FilledCells(slots[i + 1..]))
  {
    var rest := FilledCells(slots[i + 1..]);
    assert slots[i..][1..] == slots[i + 1..];
    if slots[i].Some? {
      var c := slots[i].value;
      assert FilledCells(slots[i..]) == [c] + rest;
      assert ([c] + rest)[1..] == rest;
    }
  }

  /** No cell fills two slots. */
  predicate DistinctCells(slots: seq<UserStateSlot>)
  {
    forall i, j :: 0 <= i < j < |slots| && slots[i].Some? && slots[j].Some? ==> slots[i].value != slots[j].value
  }

  lemma {:induction false} FilledCellsAreDistinct(slots: seq<UserStateSlot>)
    requires DistinctCells(slots)
    ensures forall j, k :: 0 <= j < k < |FilledCells(slots)| ==> FilledCells(slots)[j] != FilledCells(slots)[k]
  {
    if |slots| > 0 {
      FilledCellsAreDistinct(slots[1..]);
      var rest := FilledCells(slots[1..]);
      if slots[0].Some? {
        var c := slots[0].value;
        forall k | 0 <= k < |rest|
          ensures rest[k] != c
        {
          var i :| 0 <= i < |slots[1..]| && slots[1..][i].Some? && rest[k] == slots[1..][i].value;
          assert slots[1..][i] == slots[i + 1];
        }
        assert FilledCells(slots) == [c] + rest;
      }
    }
  }

  /** What the box releases, or nothing when no selector was ever created. */
  ghost function OptionalBoxReleaseLog(box: Option<SelectorPointerBox>): seq<MemoryEvent>
    requires box.Some? ==> BoxValid(box.value) && Releasable(box.value.raw)
    reads if box.Some? && box.value.raw.ChainSelector? then
      {box.value.raw.chain, box.value.raw.chain.selectors, box.value.raw.chain.selectors.elements, box.value.raw.chain.selectors.elements.buffer}
      else {}
    reads if box.Some? then ReleaseFrame(box.value.raw) else {}
  {
    if box.Some? then BoxReleaseLog(box.value) else []
  }

  /**
   * `deinitialize(usingUserStateDeinitializer:)` as written: the box is
   * released, then every filled slot is handed to the user state
   * deinitializer, which deinitializes the cell in place and does not
   * deallocate it.
   */
  ghost function NodeReleaseLogAsWritten(box: Option<SelectorPointerBox>, slots: seq<UserStateSlot>): seq<MemoryEvent>
    requires box.Some? ==> BoxValid(box.value) && Releasable(box.value.raw)
    reads if box.Some? && box.value.raw.ChainSelector? then
      {box.value.raw.chain, box.value.raw.chain.selectors, box.value.raw.chain.selectors.elements, box.value.raw.chain.selectors.elements.buffer}
      else {}
    reads if box.Some? then ReleaseFrame(box.value.raw) else {}
  {
    OptionalBoxReleaseLog(box) + DeinitializeLog(FilledCells(slots))
  }

  /** As written, releasing a node never deallocates a filled slot's cell, which `popUserStateSlot` would have deallocated. */
  lemma AsWrittenFilledSlotsLeak(box: Option<SelectorPointerBox>, slots: seq<UserStateSlot>, i: nat)
    requires box.Some? ==> BoxValid(box.value) && Releasable(box.value.raw)
    requires i < |slots| && slots[i].Some?
    ensures Deallocations(NodeReleaseLogAsWritten(box, slots), slots[i].value) == 0
  {
    var c := slots[i].value;
    var boxLog := OptionalBoxReleaseLog(box);
    BoxLogMentionsNoCell(box, c);
    assert Occurrences(boxLog, Deallocated(c)) == 0;
    DeinitializeLogDeallocatesNothing(FilledCells(slots), c);
    OccurrencesOfConcat(boxLog, DeinitializeLog(FilledCells(slots)), Deallocated(c));
  }

  /** The node's release once corrected: the box, then each filled cell deinitialized and deallocated, bottom to top. */
  ghost function NodeReleaseLog(box: Option<SelectorPointerBox>, slots: seq<UserStateSlot>): seq<MemoryEvent>
    requires box.Some? ==> BoxValid(box.value) && Releasable(box.value.raw)
    reads if box.Some? && box.value.raw.ChainSelector? then
      {box.value.raw.chain, box.value.raw.chain.selectors, box.value.raw.chain.selectors.elements, box.value.raw.chain.selectors.elements.buffer}
      else {}
    reads if box.Some? then ReleaseFrame(box.value.raw) else {}
  {
    OptionalBoxReleaseLog(box) + ReleaseLog(FilledCells(slots))
  }

  /** A selector box's release never mentions a user state cell. */
  lemma BoxLogMentionsNoCell(box: Option<SelectorPointerBox>, c: UserStateCell)
    requires box.Some? ==> BoxValid(box.value) && Releasable(box.value.raw)
    ensures Deinitialized(c) !in OptionalBoxReleaseLog(box) && Deallocated(c) !in OptionalBoxReleaseLog(box)
  {
    if box.Some? && box.value.raw.ChainSelector? {
      var targets := Targets(box.value.raw.chain.selectors.Entries());
      assert c !in targets;
      ReleaseLogMentionsOnlyItsObjects(targets, c);
    }
  }

  /** Corrected, releasing a node releases every filled slot's cell exactly once. */
  lemma FilledSlotsReleasedOnce(box: Option<SelectorPointerBox>, slots: seq<UserStateSlot>, i: nat)
    requires box.Some? ==> BoxValid(box.value) && Releasable(box.value.raw)
    requires DistinctCells(slots) && i < |slots| && slots[i].Some?
    ensures ReleasedOnce(NodeReleaseLog(box, slots), slots[i].value)
  {
    var c := slots[i].value;
    var cells := FilledCells(slots);
    FilledCellsAreDistinct(slots);
    assert c in cells;
    var k :| 0 <= k < |cells| && cells[k] == c;
    ReleaseLogReleasesEachOnce(cells, k);
    BoxLogMentionsNoCell(box, c);
    ReleasedOnceWithin(OptionalBoxReleaseLog(box), ReleaseLog(cells), [], c);
    assert NodeReleaseLog(box, slots) == OptionalBoxReleaseLog(box) + ReleaseLog(cells) + [];
  }

  /** Following a log that releases a selector once with the release of user state cells keeps it released once. */
  lemma ReleasedOnceBeforeCells(boxLog: seq<MemoryEvent>, cells: seq<UserStateCell>, o: object)
    requires ReleasedOnce(boxLog, o) && o !in cells
    ensures ReleasedOnce(boxLog + ReleaseLog(cells), o)
  {
    ReleaseLogMentionsOnlyItsObjects(cells, o);
    ReleasedOnceWithin([], boxLog, ReleaseLog(cells), o);
    assert [] + boxLog + ReleaseLog(cells) == boxLog + ReleaseLog(cells);
  }

  /** Releasing a node releases its boxed selector exactly once. */
  lemma BoxReleasedOnceWithNode(box: Option<SelectorPointerBox>, slots: seq<UserStateSlot>)
    requires box.Some? && BoxValid(box.value) && Releasable(box.value.raw)
    ensures ReleasedOnce(NodeReleaseLog(box, slots), BoxedTarget(box.value.raw))
  {
    var o := BoxedTarget(box.value.raw);
    BoxedSelectorReleasedOnce(box.value);
    ReleasedOnceBeforeCells(BoxReleaseLog(box.value), FilledCells(slots), o);
  }

  /** The slot loop of `deinitialize`: each filled slot, bottom to top, is deinitialized and deallocated. */
  method ReleaseSlots(slots: seq<UserStateSlot>) returns (ghost log: seq<MemoryEvent>)
    ensures log == ReleaseLog(FilledCells(slots))
  {
    log := [];
    var i := 0;
    while i < |slots|
      invariant 0 <= i <= |slots|
      invariant log + ReleaseLog(FilledCells(slots[i..])) == ReleaseLog(FilledCells(slots))
    {
      ReleaseLogOfSlots(slots, i);
      ghost var rest := ReleaseLog(FilledCells(slots[i + 1..]));
      match slots[i] {
        case None =>
        case Some(c) =>
          assert (log + [Deinitialized(c), Deallocated(c)]) + rest == log + ([Deinitialized(c), Deallocated(c)] + rest);
          log := log + [Deinitialized(c), Deallocated(c)];
      }
      i := i + 1;
    }
    assert slots[i..] == [];
  }

  class NodeStateReferences {
    var selectorPointerBox: Option<SelectorPointerBox>
    const userStateSlots: Stack<UserStateSlot>
    var userStateType: Option<UserStateType>
    /** The objects this node owns: its slot stack and the boxed chain selector's array. */
    ghost var Repr: set<object>

    /** The objects a boxed chain selector's frame is computed from. */
    ghost function BoxReads(): set<object>
      reads this
    {
      if selectorPointerBox.Some? && selectorPointerBox.value.raw.ChainSelector? then
        var c := selectorPointerBox.value.raw.chain;
        {c, c.selectors, c.selectors.elements, c.selectors.elements.buffer}
      else {}
    }

    /** What the boxed selector owns that this node releases with it. */
    ghost function BoxFrame(): set<object>
      reads this, BoxReads()
    {
      if selectorPointerBox.Some? then ReleaseFrame(selectorPointerBox.value.raw) else {}
    }

    ghost function SlotsRepr(): set<object>
      reads this, userStateSlots, userStateSlots.buffer
    {
      {userStateSlots, userStateSlots.buffer, userStateSlots.buffer.base}
    }

    ghost predicate Valid()
      reads this, Repr
    {
      this in Repr && userStateSlots in Repr && userStateSlots.buffer in Repr && userStateSlots.buffer.base in Repr &&
      BoxReads() <= Repr && BoxFrame() <= Repr &&
      userStateSlots.Valid() && DistinctCells(userStateSlots.Elements()) &&
      (selectorPointerBox.Some? ==>
        BoxValid(selectorPointerBox.value) && Releasable(selectorPointerBox.value.raw) &&
        SlotsRepr() !! BoxFrame() && this !in BoxFrame())
    }

    /** The user state slots, bottom to top. */
    ghost function Slots(): seq<UserStateSlot>
      reads this, Repr
      requires Valid()
    {
      userStateSlots.Elements()
    }

    /** A fresh node: no selector box, no user state slots and no recorded user state type. */
    constructor ()
      ensures Valid() && fresh(Repr)
      ensures selectorPointerBox == None && Slots() == [] && userStateType == None
    {
      selectorPointerBox := None;
      userStateSlots := new Stack<UserStateSlot>(1);
      userStateType := None;
      new;
      Repr := {this, userStateSlots, userStateSlots.buffer, userStateSlots.buffer.base};
    }

    /**
     * `pointerToSelector(initialValue:)`: the boxed selector, which must be
     * of the kind asked for, or else a new selector of that kind in its
     * initial state, boxed from now on.
     */
    method PointerToSelector(kind: SelectorKind) returns (p: BoxedPointer)
      requires Valid()
      requires selectorPointerBox.Some? ==> selectorPointerBox.value.kind == kind
      modifies this
      ensures Valid() && fresh(Repr - old(Repr))
      ensures Slots() == old(Slots()) && userStateType == old(userStateType)
      ensures PointsTo(p, kind)
      ensures old(selectorPointerBox).Some? ==> selectorPointerBox == old(selectorPointerBox) && p == old(selectorPointerBox).value.raw
      ensures old(selectorPointerBox).None? ==>
        selectorPointerBox == Some(Boxing(p, kind)) && (p.ChainSelector? || !p.link.NullPointer?) && fresh(BoxedTarget(p))
      ensures old(selectorPointerBox).None? && p.LinkSelector? ==> ValueOf(p.link) == InitialValue(kind)
      ensures old(selectorPointerBox).None? && p.ChainSelector? ==>
        p.chain.Valid() && fresh(p.chain.Repr()) && p.chain.selectors.Entries() == [] && p.chain.chainLength == 0
    {
      if selectorPointerBox.Some? {
        p := Unbox(selectorPointerBox.value, kind);
        return;
      }
      p := NewSelector(kind);
      selectorPointerBox := Some(Boxing(p, kind));
      Repr := Repr + BoxReads() + BoxFrame();
    }

    /** `pushEmptyUserStateSlot`: exactly one empty slot goes on top. */
    method PushEmptyUserStateSlot()
      requires Valid()
      modifies this, userStateSlots, userStateSlots.buffer, userStateSlots.buffer.base
      ensures Valid() && fresh(Repr - old(Repr))
      ensures Slots() == old(Slots()) + [None]
      ensures selectorPointerBox == old(selectorPointerBox) && userStateType == old(userStateType)
    {
      userStateSlots.Push(None);
      Repr := Repr + {userStateSlots.buffer.base};
    }

    /**
     * `uncheckedPointerToUserState(initializer:)` on a non-empty slot stack:
     * a filled top slot gives its cell and the initializer is not run;
     * an empty one runs it, and a cell it produces fills the slot while an
     * error it throws leaves the slot empty.
     */
    method UncheckedPointerToUserState(initializer: Result<int, Error>) returns (r: Result<UserStateCell, Error>)
      requires Valid() && |Slots()| > 0
      modifies userStateSlots.buffer.base
      ensures Valid() && |Slots()| == |old(Slots())| && Slots()[..|Slots()| - 1] == old(Slots())[..|Slots()| - 1]
      ensures old(Slots())[|Slots()| - 1].Some? ==> r == Ok(old(Slots())[|Slots()| - 1].value) && Slots() == old(Slots())
      ensures old(Slots())[|Slots()| - 1].None? && initializer.Err? ==> r == Err(initializer.error) && Slots() == old(Slots())
      ensures old(Slots())[|Slots()| - 1].None? && initializer.Ok? ==>
        r.Ok? && fresh(r.value) && r.value.value == initializer.value && Slots()[|Slots()| - 1] == Some(r.value)
    {
      var slot := userStateSlots.Last();
      if slot.value.Some? {
        return Ok(slot.value.value);
      }
      match initializer {
        case Err(err) =>
          return Err(err);
        case Ok(v) =>
          var cell := new UserStateCell(v);
          userStateSlots.SetLast(Some(cell));
          r := Ok(cell);
      }
    }

    /**
     * `checkedPointerToUserState(initializer:type:)`: the first checked
     * access records the type, every later one must name the same type
     * (in any slot); then as the unchecked access.
     */
    method CheckedPointerToUserState(initializer: Result<int, Error>, t: UserStateType) returns (r: Result<UserStateCell, Error>)
      requires Valid() && |Slots()| > 0
      requires userStateType.Some? ==> SameType(userStateType.value, t)
      modifies this, userStateSlots.buffer.base
      ensures userStateType == Some(t) && selectorPointerBox == old(selectorPointerBox) && Repr == old(Repr)
      ensures Valid() && |Slots()| == |old(Slots())| && Slots()[..|Slots()| - 1] == old(Slots())[..|Slots()| - 1]
      ensures old(Slots())[|Slots()| - 1].Some? ==> r == Ok(old(Slots())[|Slots()| - 1].value) && Slots() == old(Slots())
      ensures old(Slots())[|Slots()| - 1].None? && initializer.Err? ==> r == Err(initializer.error) && Slots() == old(Slots())
      ensures old(Slots())[|Slots()| - 1].None? && initializer.Ok? ==>
        r.Ok? && fresh(r.value) && r.value.value == initializer.value && Slots()[|Slots()| - 1] == Some(r.value)
    {
      if userStateType.None? {
        userStateType := Some(t);
      }
      r := UncheckedPointerToUserState(initializer);
    }

    /**
     * `popUserStateSlot(using:)`: only the top slot goes, and its cell, if
     * it was filled, is deinitialized and deallocated.
     */
    method PopUserStateSlot() returns (ghost log: seq<MemoryEvent>)
      requires Valid() && |Slots()| > 0
      modifies userStateSlots
      ensures Valid() && Slots() == old(Slots())[..|old(Slots())| - 1]
      ensures log == ReleaseLog(FilledCells([old(Slots())[|old(Slots())| - 1]]))
    {
      var top := userStateSlots.Pop();
      ghost var popped: seq<UserStateSlot> := [top];
      assert popped[1..] == [];
      if top.Some? {
        log := [Deinitialized(top.value), Deallocated(top.value)];
      } else {
        log := [];
      }
    }

    /**
     * `deinitialize(usingUserStateDeinitializer:)`, corrected: the box is
     * released, then every filled slot, bottom to top, is deinitialized and
     * deallocated.
     */
    method Deinitialize() returns (ghost log: seq<MemoryEvent>)
      requires Valid()
      ensures log == NodeReleaseLog(selectorPointerBox, Slots())
    {
      if selectorPointerBox.Some? {
        log := DeinitializeAndDeallocateBoxedPointer(selectorPointerBox.value);
      } else {
        log := [];
      }
      var slots := userStateSlots.ForEach();
      ghost var slotsLog := ReleaseSlots(slots);
      log := log + slotsLog;
      assert log == OptionalBoxReleaseLog(selectorPointerBox) + ReleaseLog(FilledCells(Slots()));
    }
  }
}
