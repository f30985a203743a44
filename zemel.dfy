/**
 * The parser driver (`Zemel`): it feeds chunks to libxml's push parser and
 * turns libxml's SAX callbacks into contextualised events for the routine.
 *
 * libxml itself is an oracle here. One `xmlParseChunk` call is described by
 * the callbacks it makes and by whether it returns 0 (`ChunkOutcome`); what
 * the routine throws for each forwarded event is part of the same
 * description (`SaxCall.routineThrows`).
 *
 * The bookkeeping is stated twice: `Step`, a function of the driver's state,
 * and the `Parser` class, whose callbacks are proved to make exactly the
 * change `Step` describes. The lemmas about `Step` and `Steps` are what the
 * rest of the model relies on: an element start carries the depth before the
 * increment, an end carries the depth after the decrement, so a well-formed
 * document yields `Documents.ForestEvents`.
 */
module ZemelParsers {
  import opened Wrappers
  import opened StringPointers
  import opened Names
  import Attributes
  import PrefixedNamespaces
  import opened Errors
  import opened Events
  import opened Documents

  //  Chunks

  /** `Int32.max`: `xmlParseChunk` takes the chunk size as a C `int`. */
  const MaxChunkSize: nat := 2147483647

  /** One `xmlParseChunk` call: where the piece starts in the chunk, its size and its terminate flag. */
  datatype ChunkCall = ChunkCall(offset: nat, size: nat, isFinal: bool)

  /** The pieces the splitting loop issues from `offset` on, for a chunk of `count` bytes. */
  function PiecesFrom(isFinal: bool, count: nat, offset: nat): seq<ChunkCall>
    requires offset < count
    decreases count - offset
  {
    var size := if count - offset < MaxChunkSize then count - offset else MaxChunkSize;
    var call := ChunkCall(offset, size, isFinal && offset + size == count);
    if offset + MaxChunkSize < count then [call] + PiecesFrom(isFinal, count, offset + MaxChunkSize)
    else [call]
  }

  /** The first piece from `offset`, and what follows it. */
  lemma PiecesStep(isFinal: bool, count: nat, offset: nat)
    requires offset < count
    ensures var size := if count - offset < MaxChunkSize then count - offset else MaxChunkSize;
      var ps := PiecesFrom(isFinal, count, offset);
      ps[0] == ChunkCall(offset, size, isFinal && offset + size == count) &&
      (offset + MaxChunkSize < count ==> ps == [ps[0]] + PiecesFrom(isFinal, count, offset + MaxChunkSize)) &&
      (offset + MaxChunkSize >= count ==> ps == [ps[0]])
  {
  }

  /**
   * The splitting loop's state before a turn: `offset` is inside the chunk,
   * the calls made so far are the plan's first ones, the plan's rest starts
   * at `offset`, libxml answers every planned call, and every call so far
   * succeeded.
   */
  predicate Progress(isFinal: bool, count: nat, offset: nat, calls: seq<ChunkCall>, plan: seq<ChunkCall>, libxml: seq<ChunkOutcome>)
  {
    offset < count && plan == calls + PiecesFrom(isFinal, count, offset) && |plan| <= |libxml| &&
    forall k :: 0 <= k < |calls| ==> libxml[k].succeeded
  }

  /**
   * One turn of the splitting loop issues the plan's next piece; the loop
   * goes on exactly when that call succeeded and bytes remain, and otherwise
   * the calls made answer the plan.
   */
  lemma PlanAdvance(isFinal: bool, count: nat, offset: nat, done: seq<ChunkCall>, plan: seq<ChunkCall>, libxml: seq<ChunkOutcome>)
    requires Progress(isFinal, count, offset, done, plan, libxml)
    ensures |done| < |libxml|
    ensures var size := if count - offset < MaxChunkSize then count - offset else MaxChunkSize;
      var next := done + [ChunkCall(offset, size, isFinal && offset + size == count)];
      var succeeded := libxml[|done|].succeeded;
      (succeeded && offset + MaxChunkSize < count ==> Progress(isFinal, count, offset + MaxChunkSize, next, plan, libxml)) &&
      (!(succeeded && offset + MaxChunkSize < count) ==> Answered(next, plan, libxml, succeeded))
  {
    PiecesStep(isFinal, count, offset);
    var rest := PiecesFrom(isFinal, count, offset);
    var next := done + [rest[0]];
    assert plan == next + rest[1..];
    assert plan[..|next|] == next;
    var succeeded := libxml[|done|].succeeded;
    forall k | 0 <= k < |next| - 1 ensures libxml[k].succeeded {
      assert k < |done|;
    }
    if succeeded {
      forall k | 0 <= k < |next| ensures libxml[k].succeeded {
        if k < |done| {
          assert libxml[k].succeeded;
        }
      }
    }
  }

  /** The calls `parse` makes when every one of them succeeds: one when the chunk is under `Int32.max`, else the pieces. */
  function ChunkCalls(isFinal: bool, count: nat): (r: seq<ChunkCall>)
    ensures |r| == 1 <==> count <= MaxChunkSize
    ensures |r| >= 1 && r[0].offset == 0 && r[|r| - 1].isFinal == isFinal
  {
    if count < MaxChunkSize then [ChunkCall(0, count, isFinal)]
    else
      PiecesTile(isFinal, count, 0);
      PiecesFrom(isFinal, count, 0)
  }

  /** The pieces from `offset` tile `[offset, count)` in order, none larger than `Int32.max`, and only the last can be final. */
  lemma {:induction false} PiecesTile(isFinal: bool, count: nat, offset: nat)
    requires offset < count
    ensures var ps := PiecesFrom(isFinal, count, offset);
      |ps| >= 1 && ps[0].offset == offset &&
      ps[|ps| - 1].offset + ps[|ps| - 1].size == count &&
      (forall k :: 0 <= k < |ps| - 1 ==> ps[k].offset + ps[k].size == ps[k + 1].offset) &&
      (forall k :: 0 <= k < |ps| ==> 0 < ps[k].size <= MaxChunkSize) &&
      (forall k :: 0 <= k < |ps| ==> (ps[k].isFinal <==> isFinal && k == |ps| - 1))
    decreases count - offset
  {
    var ps := PiecesFrom(isFinal, count, offset);
    if offset + MaxChunkSize < count {
      PiecesTile(isFinal, count, offset + MaxChunkSize);
      var rest := PiecesFrom(isFinal, count, offset + MaxChunkSize);
      assert ps == [ps[0]] + rest;
      forall k | 1 <= k < |ps| ensures ps[k] == rest[k - 1] {}
      forall k | 0 <= k < |ps| ensures ps[k].isFinal <==> isFinal && k == |ps| - 1 {
        if k > 0 {
          assert ps[k] == rest[k - 1];
        } else {
          assert ps[0].offset + ps[0].size < count;
        }
      }
    }
  }

  /**
   * Whatever the chunk's size, the calls cover its bytes exactly once, in
   * order, each within libxml's size limit, and only the last carries the
   * caller's final flag.
   */
  lemma ChunkCallsCoverChunk(isFinal: bool, count: nat)
    ensures var cs := ChunkCalls(isFinal, count);
      |cs| >= 1 && cs[0].offset == 0 &&
      cs[|cs| - 1].offset + cs[|cs| - 1].size == count &&
      (forall k :: 0 <= k < |cs| - 1 ==> cs[k].offset + cs[k].size == cs[k + 1].offset) &&
      (forall k :: 0 <= k < |cs| ==> cs[k].size <= MaxChunkSize) &&
      (forall k :: 0 <= k < |cs| ==> (cs[k].isFinal <==> isFinal && k == |cs| - 1))
  {
    if count >= MaxChunkSize {
      PiecesTile(isFinal, count, 0);
    }
  }

  /**
   * The calls made so far follow `plan` from its start, every one before
   * the last succeeded, and `didSucceed` is how the last one went; when it
   * succeeded the whole plan has been issued.
   */
  predicate Answered(calls: seq<ChunkCall>, plan: seq<ChunkCall>, libxml: seq<ChunkOutcome>, didSucceed: bool)
  {
    1 <= |calls| <= |plan| && |calls| <= |libxml| && calls == plan[..|calls|] &&
    (forall k :: 0 <= k < |calls| - 1 ==> libxml[k].succeeded) &&
    didSucceed == libxml[|calls| - 1].succeeded &&
    (didSucceed ==> calls == plan)
  }

  //  Callbacks

  /** The three SAX2 callbacks Zemel installs, with the arguments it reads. */
  datatype SaxCallback =
    | StartElementNs(localName: Option<Pointer>, uri: Option<Pointer>,
                     namespaces: Option<seq<Option<Pointer>>>, namespaceCount: int,
                     attributes: Option<seq<Option<Pointer>>>, attributeCount: int)
    | EndElementNs
    | Characters(characters: Option<Pointer>, length: nat)

  /** A callback libxml makes, and what the routine throws for the event it is forwarded, if anything. */
  datatype SaxCall = SaxCall(callback: SaxCallback, routineThrows: Option<Error>)

  /** One `xmlParseChunk` call as libxml answers it: the callbacks it makes, and whether it returns 0. */
  datatype ChunkOutcome = ChunkOutcome(calls: seq<SaxCall>, succeeded: bool)

  /** What `xmlCtxtGetLastError` reports. */
  datatype LibxmlError = LibxmlError(line: int, column: int, message: seq<Byte>)

  /** What libxml guarantees of the pointers it passes: C strings, and well-formed namespace slots. */
  predicate CallbackReadable(c: SaxCallback)
  {
    match c
    case StartElementNs(localName, uri, namespaces, namespaceCount, _, _) =>
      (localName.Some? ==> IsNullTerminated(localName.value)) &&
      (uri.Some? ==> IsNullTerminated(uri.value)) &&
      (namespaces.Some? ==>
        PrefixedNamespaces.WellFormed(PrefixedNamespaces.UnsafePrefixedNamespaces(namespaces.value, namespaceCount)))
    case EndElementNs => true
    case Characters(_, _) => true
  }

  predicate AllReadable(calls: seq<SaxCall>)
  {
    forall i :: 0 <= i < |calls| ==> CallbackReadable(calls[i].callback)
  }

  //  Driver state

  /**
   * The parse state (`Zemel.State`: depth, root default namespace, the error
   * latch `hasError` and the error slot), the reset flag, and whether
   * `xmlStopParser` has been called on libxml's context.
   */
  datatype DriverState = DriverState(
    depth: int,
    rootDefaultNS: Option<UnsafeStringPointer>,
    hasError: bool,
    error: Option<Error>,
    needsReset: bool,
    parserStopped: bool)

  /** `State()` on a freshly created or reset parser context. */
  const Initial := DriverState(0, None, false, None, false, false)

  /** Only `stopParsing` latches an error, and it always stores the error, stops libxml and sets the reset flag. */
  predicate Consistent(s: DriverState)
  {
    s.hasError ==> s.error.Some? && s.parserStopped && s.needsReset
  }

  /** Between a reset and the end of the chunk loop, the reset flag is only ever set by `stopParsing`. */
  predicate ResetOnlyOnStop(s: DriverState)
  {
    s.needsReset ==> s.hasError
  }

  /** `stopParsing(withError:)`. */
  function StopParsing(s: DriverState, e: Error): (r: DriverState)
    ensures r.hasError && r.error == Some(e) && r.needsReset && r.parserStopped
    ensures r.depth == s.depth && r.rootDefaultNS == s.rootDefaultNS
  {
    s.(parserStopped := true, needsReset := true, hasError := true, error := Some(e))
  }

  /** The event as the routine sees it: stamped with the current depth and root default namespace. */
  function Contextualized(s: DriverState, event: AnyEvent): AnyContextualizedEvent
  {
    AnyContextualizedEvent(EventContext(s.depth, s.rootDefaultNS), event)
  }

  /** `contextualizeThenForward`: the event goes to the routine; if it throws, parsing stops with that error. */
  function Forward(s: DriverState, event: AnyEvent, routineThrows: Option<Error>): (r: (DriverState, seq<AnyContextualizedEvent>))
    ensures r.1 == [Contextualized(s, event)]
    ensures routineThrows.None? ==> r.0 == s
    ensures routineThrows.Some? ==> r.0.hasError && r.0.error == routineThrows && r.0.parserStopped
    ensures r.0.depth == s.depth && r.0.rootDefaultNS == s.rootDefaultNS
  {
    (if routineThrows.Some? then StopParsing(s, routineThrows.value) else s, [Contextualized(s, event)])
  }

  /**
   * The root default namespace after a start element: at depth 0 the first
   * unprefixed declaration with a URI is copied; otherwise, or when there is
   * none, it is left as it was.
   */
  function CapturedRoot(s: DriverState, namespaces: Option<seq<Option<Pointer>>>, namespaceCount: int): (r: Option<UnsafeStringPointer>)
    requires namespaces.Some? ==>
      PrefixedNamespaces.WellFormed(PrefixedNamespaces.UnsafePrefixedNamespaces(namespaces.value, namespaceCount))
    ensures s.depth != 0 ==> r == s.rootDefaultNS
  {
    if s.depth != 0 || namespaces.None? then s.rootDefaultNS
    else
      var ns := PrefixedNamespaces.UnsafePrefixedNamespaces(namespaces.value, namespaceCount);
      match PrefixedNamespaces.DefaultNamespace(ns)
      case None => s.rootDefaultNS
      case Some(d) =>
        DefaultNamespaceIsReadable(ns);
        Some(CalculateLengthAndCopy(d.uri))
  }

  /**
   * When the captured root namespace differs from the one before, it is a
   * copy of the URI of the first unprefixed declaration on the element.
   */
  lemma CapturedRootCopiesDefaultNamespace(s: DriverState, namespaces: Option<seq<Option<Pointer>>>, namespaceCount: int)
    requires namespaces.Some? ==>
      PrefixedNamespaces.WellFormed(PrefixedNamespaces.UnsafePrefixedNamespaces(namespaces.value, namespaceCount))
    ensures var r := CapturedRoot(s, namespaces, namespaceCount);
      r != s.rootDefaultNS ==>
        s.depth == 0 && namespaces.Some? &&
        var d := PrefixedNamespaces.DefaultNamespace(PrefixedNamespaces.UnsafePrefixedNamespaces(namespaces.value, namespaceCount));
        d.Some? && d.value.prefix.None? && IsNullTerminated(d.value.uri.raw) &&
        r.Some? && Readable(r.value) && Bytes(r.value) == CString(d.value.uri.raw)
  {
    if s.depth == 0 && namespaces.Some? {
      DefaultNamespaceIsReadable(PrefixedNamespaces.UnsafePrefixedNamespaces(namespaces.value, namespaceCount));
    }
  }

  /** The declaration the fast search finds has no prefix and a C string for its URI. */
  lemma DefaultNamespaceIsReadable(ns: PrefixedNamespaces.UnsafePrefixedNamespaces)
    requires PrefixedNamespaces.WellFormed(ns)
    ensures var d := PrefixedNamespaces.DefaultNamespace(ns);
      d.Some? ==> d.value.prefix.None? && IsNullTerminated(d.value.uri.raw)
  {
    var d := PrefixedNamespaces.DefaultNamespace(ns);
    if d.Some? {
      var j := PrefixedNamespaces.FirstUnprefixed(ns, 0).value;
      var _ := PrefixedNamespaces.Tuple(ns, j);
    }
  }

  /** The element-start event built from libxml's pointers. */
  function StartEventFor(localName: Pointer, uri: Option<Pointer>, attributes: Option<seq<Option<Pointer>>>, attributeCount: int): AnyEvent
    requires IsNullTerminated(localName) && (uri.Some? ==> IsNullTerminated(uri.value))
  {
    ElementStart(ElementStartEvent(
      UnsafeName(OptionalFromNullTerminated(uri), FromNullTerminated(localName)),
      Attributes.UnsafeAttributes(attributes, attributeCount)))
  }

  /**
   * One SAX callback: the state after it and the events it forwards.
   * `onCharacters` forwards nothing for a null pointer; `onElementStart`
   * stops with `unknown` when the local name is missing, else captures the
   * root namespace at depth 0, forwards at the current depth and then
   * deepens; `onElementEnd` first goes back up a level and then forwards.
   */
  function Step(s: DriverState, call: SaxCall): (r: (DriverState, seq<AnyContextualizedEvent>))
    requires CallbackReadable(call.callback)
    ensures Consistent(s) ==> Consistent(r.0)
    ensures ResetOnlyOnStop(s) ==> ResetOnlyOnStop(r.0)
  {
    match call.callback
    case Characters(characters, length) =>
      if characters.None? then (s, [])
      else Forward(s, Text(TextEvent(UnsafeStringPointer(characters.value, length))), call.routineThrows)
    case StartElementNs(localName, uri, namespaces, namespaceCount, attributes, attributeCount) =>
      if localName.None? then (StopParsing(s, Zemel(Unknown)), [])
      else
        var captured := s.(rootDefaultNS := CapturedRoot(s, namespaces, namespaceCount));
        var forwarded := Forward(captured, StartEventFor(localName.value, uri, attributes, attributeCount), call.routineThrows);
        (forwarded.0.(depth := forwarded.0.depth + 1), forwarded.1)
    case EndElementNs =>
      Forward(s.(depth := s.depth - 1), ElementEnd, call.routineThrows)
  }

  /**
   * The depth bookkeeping of one callback: a start is forwarded at the depth
   * before it and deepens by one; an end is forwarded at the depth after
   * going back up, so it carries its start's depth; text is forwarded at the
   * current depth, and a null text pointer forwards nothing and changes
   * nothing; a start without a local name stops parsing with `unknown`. The
   * root namespace can only change at depth 0, and whatever the routine
   * throws for a forwarded event is latched and stops libxml.
   */
  lemma StepBookkeeping(s: DriverState, call: SaxCall)
    requires CallbackReadable(call.callback)
    ensures var r := Step(s, call);
      (call.callback.Characters? && call.callback.characters.None? ==> r == (s, [])) &&
      (call.callback.Characters? && call.callback.characters.Some? ==>
        r.1 == [Contextualized(s, Text(TextEvent(UnsafeStringPointer(call.callback.characters.value, call.callback.length))))] &&
        r.0.depth == s.depth) &&
      (call.callback.StartElementNs? && call.callback.localName.None? ==>
        r.1 == [] && r.0.hasError && r.0.error == Some(Zemel(Unknown)) && r.0.parserStopped && r.0.depth == s.depth) &&
      (call.callback.StartElementNs? && call.callback.localName.Some? ==>
        |r.1| == 1 && r.1[0].event.ElementStart? &&
        r.1[0].context.depth == s.depth && r.0.depth == s.depth + 1) &&
      (call.callback.EndElementNs? ==>
        |r.1| == 1 && r.1[0].event.ElementEnd? &&
        r.1[0].context.depth == s.depth - 1 && r.0.depth == s.depth - 1) &&
      (s.depth != 0 ==> r.0.rootDefaultNS == s.rootDefaultNS) &&
      (|r.1| > 0 && call.routineThrows.Some? ==> r.0.hasError && r.0.error == call.routineThrows && r.0.parserStopped)
  {
  }

  /** A step function run over a sequence of inputs, one after the other: the final state and every output in order. */
  function Fold<S, C, E>(step: (S, C) -> (S, seq<E>), s: S, cs: seq<C>): (S, seq<E>)
    decreases |cs|
  {
    if |cs| == 0 then (s, [])
    else
      var first := step(s, cs[0]);
      var rest := Fold(step, first.0, cs[1..]);
      (rest.0, first.1 + rest.1)
  }

  /** Folding over two sequences one after the other is folding over their concatenation. */
  lemma {:induction false} FoldConcat<S, C, E>(step: (S, C) -> (S, seq<E>), s: S, a: seq<C>, b: seq<C>)
    ensures Fold(step, s, a + b) ==
      (Fold(step, Fold(step, s, a).0, b).0, Fold(step, s, a).1 + Fold(step, Fold(step, s, a).0, b).1)
    decreases |a|
  {
    if |a| == 0 {
      assert a + b == b;
      assert Fold(step, s, a).1 + Fold(step, s, b).1 == Fold(step, s, b).1;
    } else {
      assert (a + b)[0] == a[0];
      assert (a + b)[1..] == a[1..] + b;
      var first := step(s, a[0]);
      FoldConcat(step, first.0, a[1..], b);
      var middle := Fold(step, first.0, a[1..]);
      var last := Fold(step, middle.0, b);
      assert first.1 + (middle.1 + last.1) == (first.1 + middle.1) + last.1;
    }
  }

  /** `Step` on the callbacks libxml can make; any other callback is never made, and changes nothing here. */
  function TotalStep(s: DriverState, call: SaxCall): (DriverState, seq<AnyContextualizedEvent>)
  {
    if CallbackReadable(call.callback) then Step(s, call) else (s, [])
  }

  /** A run of callbacks, one after the other: the final state and every forwarded event in order. */
  function Steps(s: DriverState, calls: seq<SaxCall>): (DriverState, seq<AnyContextualizedEvent>)
    requires AllReadable(calls)
  {
    Fold(TotalStep, s, calls)
  }

  /** No run of callbacks breaks the latch invariants, and a latched error stays latched. */
  lemma {:induction false} StepsKeepInvariants(s: DriverState, calls: seq<SaxCall>)
    requires AllReadable(calls)
    ensures Consistent(s) ==> Consistent(Steps(s, calls).0)
    ensures ResetOnlyOnStop(s) ==> ResetOnlyOnStop(Steps(s, calls).0)
    ensures s.hasError ==> Steps(s, calls).0.hasError
    decreases |calls|
  {
    if |calls| > 0 {
      var first := Step(s, calls[0]);
      assert TotalStep(s, calls[0]) == first;
      StepsKeepInvariants(first.0, calls[1..]);
    }
  }

  /** Running two runs of callbacks one after the other is running their concatenation. */
  lemma StepsConcat(s: DriverState, a: seq<SaxCall>, b: seq<SaxCall>)
    requires AllReadable(a) && AllReadable(b)
    ensures AllReadable(a + b)
    ensures Steps(s, a + b) == (Steps(Steps(s, a).0, b).0, Steps(s, a).1 + Steps(Steps(s, a).0, b).1)
  {
    assert AllReadable(a + b) by {
      forall i | 0 <= i < |a + b| ensures CallbackReadable((a + b)[i].callback) {
        if i >= |a| { assert (a + b)[i] == b[i - |a|]; }
      }
    }
    FoldConcat(TotalStep, s, a, b);
  }

  //  Documents

  /** An element or a text run as libxml's callbacks describe it. */
  datatype SaxNode =
    | SaxElement(uri: Option<Pointer>, localName: Pointer,
                 namespaces: Option<seq<Option<Pointer>>>, namespaceCount: int,
                 attributes: Option<seq<Option<Pointer>>>, attributeCount: int,
                 children: seq<SaxNode>)
    | SaxText(characters: Pointer, length: nat)

  predicate NodeReadable(n: SaxNode)
  {
    match n
    case SaxText(_, _) => true
    case SaxElement(uri, localName, namespaces, namespaceCount, _, _, children) =>
      CallbackReadable(StartElementNs(Some(localName), uri, namespaces, namespaceCount, None, 0)) &&
      forall i :: 0 <= i < |children| ==> NodeReadable(children[i])
  }

  predicate ForestReadable(ns: seq<SaxNode>)
  {
    forall i :: 0 <= i < |ns| ==> NodeReadable(ns[i])
  }

  /** The callbacks libxml makes for one node, none of which the routine rejects. */
  function NodeCallbacks(n: SaxNode): (r: seq<SaxCall>)
    requires NodeReadable(n)
    ensures AllReadable(r)
    decreases n, 1
  {
    match n
    case SaxText(characters, length) => [SaxCall(Characters(Some(characters), length), None)]
    case SaxElement(uri, localName, namespaces, namespaceCount, attributes, attributeCount, children) =>
      var inner := ForestCallbacks(children, n);
      var start := [SaxCall(StartElementNs(Some(localName), uri, namespaces, namespaceCount, attributes, attributeCount), None)];
      var end := [SaxCall(EndElementNs, None)];
      assert AllReadable(start + inner) by {
        forall i | 0 <= i < |start + inner| ensures CallbackReadable((start + inner)[i].callback) {
          if i > 0 { assert (start + inner)[i] == inner[i - 1]; }
        }
      }
      assert AllReadable(start + inner + end) by {
        forall i | 0 <= i < |start + inner + end| ensures CallbackReadable((start + inner + end)[i].callback) {
          if i < |start + inner| { assert (start + inner + end)[i] == (start + inner)[i]; }
        }
      }
      start + inner + end
  }

  /** The callbacks for a run of siblings; `parent` only bounds the recursion. */
  function ForestCallbacks(ns: seq<SaxNode>, ghost parent: SaxNode): (r: seq<SaxCall>)
    requires forall i :: 0 <= i < |ns| ==> ns[i] < parent
    requires ForestReadable(ns)
    ensures AllReadable(r)
    decreases parent, 0, |ns|
  {
    if |ns| == 0 then []
    else
      var head := NodeCallbacks(ns[0]);
      var tail := ForestCallbacks(ns[1..], parent);
      assert AllReadable(head + tail) by {
        forall i | 0 <= i < |head + tail| ensures CallbackReadable((head + tail)[i].callback) {
          if i >= |head| { assert (head + tail)[i] == tail[i - |head|]; }
        }
      }
      head + tail
  }

  /** The document node a SAX node stands for: names read through the C strings libxml passes. */
  function AsNode(n: SaxNode): Node
    requires NodeReadable(n)
    decreases n, 1
  {
    match n
    case SaxText(characters, length) => CharacterData(UnsafeStringPointer(characters, length))
    case SaxElement(uri, localName, _, _, attributes, attributeCount, children) =>
      Element(UnsafeName(OptionalFromNullTerminated(uri), FromNullTerminated(localName)),
              Attributes.UnsafeAttributes(attributes, attributeCount),
              AsForest(children, n))
  }

  function AsForest(ns: seq<SaxNode>, ghost parent: SaxNode): (r: seq<Node>)
    requires forall i :: 0 <= i < |ns| ==> ns[i] < parent
    requires ForestReadable(ns)
    ensures |r| == |ns|
    decreases parent, 0, |ns|
  {
    if |ns| == 0 then [] else [AsNode(ns[0])] + AsForest(ns[1..], parent)
  }

  /** Running a single callback is taking one step. */
  lemma StepsOne(s: DriverState, c: SaxCall)
    requires CallbackReadable(c.callback)
    ensures AllReadable([c]) && Steps(s, [c]) == Step(s, c)
  {
    assert [c][1..] == [];
    assert TotalStep(s, c) == Step(s, c);
    assert Fold(TotalStep, Step(s, c).0, []) == (Step(s, c).0, []);
    assert Step(s, c).1 + [] == Step(s, c).1;
  }

  /**
   * Below the root, the callbacks for a run of siblings forward exactly the
   * events `ForestEvents` places at the current depth, and leave the driver
   * as they found it.
   */
  lemma {:induction false} ForestCallbacksYieldForestEvents(ns: seq<SaxNode>, parent: SaxNode, s: DriverState)
    requires forall i :: 0 <= i < |ns| ==> ns[i] < parent
    requires ForestReadable(ns) && s.depth >= 1
    ensures Steps(s, ForestCallbacks(ns, parent)) == (s, ForestEvents(AsForest(ns, parent), s.depth, s.rootDefaultNS))
    decreases parent, 0, |ns|
  {
    if |ns| > 0 {
      var head, tail := NodeCallbacks(ns[0]), ForestCallbacks(ns[1..], parent);
      NodeCallbacksYieldNodeEvents(ns[0], s);
      ForestCallbacksYieldForestEvents(ns[1..], parent, s);
      StepsConcat(s, head, tail);
      var forest := AsForest(ns, parent);
      assert forest[0] == AsNode(ns[0]) && forest[1..] == AsForest(ns[1..], parent);
    } else {
      assert Steps(s, []) == (s, []);
    }
  }

  /** Below the root, the callbacks for one node forward exactly its `NodeEvents` and leave the driver as they found it. */
  lemma {:induction false} NodeCallbacksYieldNodeEvents(n: SaxNode, s: DriverState)
    requires NodeReadable(n) && s.depth >= 1
    ensures Steps(s, NodeCallbacks(n)) == (s, NodeEvents(AsNode(n), s.depth, s.rootDefaultNS))
    decreases n, 1
  {
    match n
    case SaxText(characters, length) =>
      StepsOne(s, NodeCallbacks(n)[0]);
    case SaxElement(uri, localName, namespaces, namespaceCount, attributes, attributeCount, children) =>
      ElementCallbacksYieldNodeEvents(n, s, s);
  }

  /**
   * The callbacks for an element forward its start at the current depth,
   * its children one level deeper and its end back at the current depth,
   * all stamped with the root namespace in force after the start
   * (`inside`), and leave the driver at the depth it started from.
   */
  lemma ElementCallbacksYieldNodeEvents(n: SaxNode, s: DriverState, inside: DriverState)
    requires n.SaxElement? && NodeReadable(n) && s.depth >= 0
    requires inside == s.(rootDefaultNS := CapturedRoot(s, n.namespaces, n.namespaceCount))
    ensures Steps(s, NodeCallbacks(n)) == (inside, NodeEvents(AsNode(n), s.depth, inside.rootDefaultNS))
    decreases n, 0
  {
    var start := [SaxCall(StartElementNs(Some(n.localName), n.uri, n.namespaces, n.namespaceCount, n.attributes, n.attributeCount), None)];
    var inner := ForestCallbacks(n.children, n);
    var end := [SaxCall(EndElementNs, None)];
    assert NodeCallbacks(n) == start + inner + end;
    var deeper := inside.(depth := s.depth + 1);
    StepsOne(s, start[0]);
    assert Steps(s, start) == (deeper, [StartEvent(AsNode(n), s.depth, inside.rootDefaultNS)]);
    ForestCallbacksYieldForestEvents(n.children, n, deeper);
    StepsOne(deeper, end[0]);
    assert Steps(deeper, end) == (inside, [EndEvent(s.depth, inside.rootDefaultNS)]);
    StepsConcat(s, start, inner);
    StepsConcat(s, start + inner, end);
  }

  /**
   * A document: libxml reports the root element at depth 0. Its start
   * captures the root default namespace, and every event of the document,
   * the root's start included, carries that namespace and the depth
   * `Documents.NodeEvents` gives it.
   */
  lemma DocumentCallbacksYieldNodeEvents(root: SaxNode, s: DriverState)
    requires root.SaxElement? && NodeReadable(root) && s.depth == 0
    ensures var inside := s.(rootDefaultNS := CapturedRoot(s, root.namespaces, root.namespaceCount));
      Steps(s, NodeCallbacks(root)) == (inside, NodeEvents(AsNode(root), 0, inside.rootDefaultNS))
  {
    ElementCallbacksYieldNodeEvents(root, s, s.(rootDefaultNS := CapturedRoot(s, root.namespaces, root.namespaceCount)));
  }

  //  Parsing

  /** The driver after libxml answered the given `xmlParseChunk` calls one after the other. */
  function Feed(s: DriverState, outcomes: seq<ChunkOutcome>): (r: (DriverState, seq<AnyContextualizedEvent>))
    requires forall k :: 0 <= k < |outcomes| ==> AllReadable(outcomes[k].calls)
    decreases |outcomes|
  {
    if |outcomes| == 0 then (s, [])
    else
      var before := Feed(s, outcomes[..|outcomes| - 1]);
      var last := Steps(before.0, outcomes[|outcomes| - 1].calls);
      (last.0, before.1 + last.1)
  }

  /** Feeding chunks keeps the latch invariants, so a reset is pending after the chunk loop only if an error was latched. */
  lemma {:induction false} FeedKeepsInvariants(s: DriverState, outcomes: seq<ChunkOutcome>)
    requires forall k :: 0 <= k < |outcomes| ==> AllReadable(outcomes[k].calls)
    ensures Consistent(s) ==> Consistent(Feed(s, outcomes).0)
    ensures ResetOnlyOnStop(s) ==> ResetOnlyOnStop(Feed(s, outcomes).0)
    decreases |outcomes|
  {
    if |outcomes| > 0 {
      var prefix := outcomes[..|outcomes| - 1];
      FeedKeepsInvariants(s, prefix);
      StepsKeepInvariants(Feed(s, prefix).0, outcomes[|outcomes| - 1].calls);
    }
  }

  lemma FeedStep(s: DriverState, outcomes: seq<ChunkOutcome>, n: nat)
    requires n < |outcomes|
    requires forall k :: 0 <= k < |outcomes| ==> AllReadable(outcomes[k].calls)
    ensures var before := Feed(s, outcomes[..n]);
      var last := Steps(before.0, outcomes[n].calls);
      Feed(s, outcomes[..n + 1]) == (last.0, before.1 + last.1)
  {
    assert outcomes[..n + 1][..n] == outcomes[..n];
  }

  /**
   * What `parse` throws once the chunks are fed: an error the routine threw
   * (latched by `stopParsing`) wins; otherwise a failed call is libxml's
   * error, `parsing(line:column:message:)` from its last error report or
   * `unknown` when it has none; otherwise nothing.
   */
  function Thrown(s: DriverState, didSucceed: bool, lastError: Option<LibxmlError>): (thrown: Option<Error>)
    ensures s.hasError && s.error.Some? ==> thrown == s.error
    ensures thrown.None? <==> didSucceed && !(s.hasError && s.error.Some?)
    ensures thrown.Some? && !(s.hasError && s.error.Some?) ==>
      thrown.value.Zemel? && (thrown.value.error.Unknown? <==> lastError.None?)
  {
    if s.hasError && s.error.Some? then s.error
    else if !didSucceed then
      match lastError
      case None => Some(Zemel(Unknown))
      case Some(e) => Some(Zemel(Parsing(e.line, e.column, e.message)))
    else None
  }

  /** The parser driver (`Zemel`): the parse state, the reset flag and libxml's stop flag. */
  class Parser {
    var depth: int
    var rootDefaultNS: Option<UnsafeStringPointer>
    var hasError: bool
    var error: Option<Error>
    var needsResetBeforeNextParseCall: bool
    /** Whether `xmlStopParser` has been called since libxml's context was last reset. */
    var parserStopped: bool
    /** Every event forwarded to the routine so far, in order. */
    ghost var forwarded: seq<AnyContextualizedEvent>

    function Snapshot(): DriverState
      reads this
    {
      DriverState(depth, rootDefaultNS, hasError, error, needsResetBeforeNextParseCall, parserStopped)
    }

    ghost predicate Valid()
      reads this
    {
      Consistent(Snapshot())
    }

    /** `init()`: a fresh `State` and no pending reset. */
    constructor ()
      ensures Valid() && Snapshot() == Initial && forwarded == []
    {
      depth := 0;
      rootDefaultNS := None;
      hasError := false;
      error := None;
      needsResetBeforeNextParseCall := false;
      parserStopped := false;
      forwarded := [];
    }

    /** `reset()`: libxml's context is reset, the flag cleared and the state replaced by a fresh one. */
    method Reset()
      modifies this
      ensures Valid() && Snapshot() == Initial && forwarded == old(forwarded)
    {
      parserStopped := false;
      needsResetBeforeNextParseCall := false;
      depth := 0;
      rootDefaultNS := None;
      hasError := false;
      error := None;
    }

    /** `stopParsing(withError:)`. */
    method StopParsingWithError(e: Error)
      modifies this
      ensures Snapshot() == StopParsing(old(Snapshot()), e) && forwarded == old(forwarded)
    {
      parserStopped := true;
      needsResetBeforeNextParseCall := true;
      error := Some(e);
      hasError := true;
    }

    /** `contextualizeThenForward(event:to:)`; what the routine throws is `routineThrows`. */
    method ContextualizeThenForward(event: AnyEvent, routineThrows: Option<Error>)
      modifies this
      ensures Snapshot() == Forward(old(Snapshot()), event, routineThrows).0
      ensures forwarded == old(forwarded) + Forward(old(Snapshot()), event, routineThrows).1
    {
      var contextualized := AnyContextualizedEvent(EventContext(depth, rootDefaultNS), event);
      forwarded := forwarded + [contextualized];
      if routineThrows.Some? {
        StopParsingWithError(routineThrows.value);
      }
    }

    /** `onCharacters`. */
    method OnCharacters(characters: Option<Pointer>, length: nat, routineThrows: Option<Error>)
      requires Valid()
      modifies this
      ensures Valid()
      ensures Snapshot() == Step(old(Snapshot()), SaxCall(Characters(characters, length), routineThrows)).0
      ensures forwarded == old(forwarded) + Step(old(Snapshot()), SaxCall(Characters(characters, length), routineThrows)).1
    {
      if characters.None? {
        return;
      }
      var event := Text(TextEvent(UnsafeStringPointer(characters.value, length)));
      ContextualizeThenForward(event, routineThrows);
    }

    /** The first part of `onElementStart`: at depth 0 the root's first unprefixed declaration is copied. */
    method CaptureRootNamespace(namespaces: Option<seq<Option<Pointer>>>, namespaceCount: int)
      requires Valid()
      requires namespaces.Some? ==>
        PrefixedNamespaces.WellFormed(PrefixedNamespaces.UnsafePrefixedNamespaces(namespaces.value, namespaceCount))
      modifies this
      ensures Valid() && forwarded == old(forwarded)
      ensures Snapshot() == old(Snapshot()).(rootDefaultNS := CapturedRoot(old(Snapshot()), namespaces, namespaceCount))
    {
      if depth == 0 && namespaces.Some? {
        var declarations := PrefixedNamespaces.UnsafePrefixedNamespaces(namespaces.value, namespaceCount);
        var defaultNamespace := PrefixedNamespaces.FindFirstUnprefixedNamespaceFast(declarations);
        if defaultNamespace.Some? {
          rootDefaultNS := Some(CalculateLengthAndCopy(defaultNamespace.value.uri));
        }
      }
    }

    /** `onElementStart`. */
    method OnElementStart(uri: Option<Pointer>, localName: Option<Pointer>,
                          namespaces: Option<seq<Option<Pointer>>>, namespaceCount: int,
                          attributes: Option<seq<Option<Pointer>>>, attributeCount: int,
                          routineThrows: Option<Error>)
      requires Valid()
      requires CallbackReadable(StartElementNs(localName, uri, namespaces, namespaceCount, attributes, attributeCount))
      modifies this
      ensures Valid()
      ensures var call := SaxCall(StartElementNs(localName, uri, namespaces, namespaceCount, attributes, attributeCount), routineThrows);
        Snapshot() == Step(old(Snapshot()), call).0 && forwarded == old(forwarded) + Step(old(Snapshot()), call).1
    {
      if localName.None? {
        StopParsingWithError(Zemel(Unknown));
        return;
      }
      CaptureRootNamespace(namespaces, namespaceCount);
      var name := UnsafeName(OptionalFromNullTerminated(uri), FromNullTerminated(localName.value));
      var event := ElementStart(ElementStartEvent(name, Attributes.UnsafeAttributes(attributes, attributeCount)));
      assert event == StartEventFor(localName.value, uri, attributes, attributeCount);
      ContextualizeThenForward(event, routineThrows);
      depth := depth + 1;
    }

    /** `onElementEnd`: the URI and local name libxml passes are not read. */
    method OnElementEnd(routineThrows: Option<Error>)
      requires Valid()
      modifies this
      ensures Valid()
      ensures Snapshot() == Step(old(Snapshot()), SaxCall(EndElementNs, routineThrows)).0
      ensures forwarded == old(forwarded) + Step(old(Snapshot()), SaxCall(EndElementNs, routineThrows)).1
    {
      depth := depth - 1;
      ContextualizeThenForward(ElementEnd, routineThrows);
    }

    /** The handler table `createXMLSAXHandler` installs: each callback goes to its handler. */
    method Handle(call: SaxCall)
      requires Valid() && CallbackReadable(call.callback)
      modifies this
      ensures Valid()
      ensures Snapshot() == Step(old(Snapshot()), call).0
      ensures forwarded == old(forwarded) + Step(old(Snapshot()), call).1
    {
      match call.callback
      case StartElementNs(localName, uri, namespaces, namespaceCount, attributes, attributeCount) =>
        OnElementStart(uri, localName, namespaces, namespaceCount, attributes, attributeCount, call.routineThrows);
      case EndElementNs =>
        OnElementEnd(call.routineThrows);
      case Characters(characters, length) =>
        OnCharacters(characters, length, call.routineThrows);
    }

    /** The callbacks libxml makes from inside one `xmlParseChunk` call, in order. */
    method DeliverCallbacks(calls: seq<SaxCall>)
      requires Valid() && AllReadable(calls)
      modifies this
      ensures Valid()
      ensures Snapshot() == Steps(old(Snapshot()), calls).0
      ensures forwarded == old(forwarded) + Steps(old(Snapshot()), calls).1
    {
      var i := 0;
      while i < |calls|
        invariant 0 <= i <= |calls| && Valid()
        invariant AllReadable(calls[..i])
        invariant Snapshot() == Steps(old(Snapshot()), calls[..i]).0
        invariant forwarded == old(forwarded) + Steps(old(Snapshot()), calls[..i]).1
      {
        ghost var before := Snapshot();
        ghost var log := forwarded;
        Handle(calls[i]);
        StepsOne(before, calls[i]);
        StepsConcat(old(Snapshot()), calls[..i], [calls[i]]);
        assert calls[..i + 1] == calls[..i] + [calls[i]];
        i := i + 1;
      }
      assert calls[..i] == calls;
    }

    /** Starting from `start` with `log` forwarded, the first `n` calls have been answered by libxml. */
    ghost predicate Fed(start: DriverState, log: seq<AnyContextualizedEvent>, libxml: seq<ChunkOutcome>, n: nat)
      requires n <= |libxml| && forall k :: 0 <= k < |libxml| ==> AllReadable(libxml[k].calls)
      reads this
    {
      Snapshot() == Feed(start, libxml[..n]).0 && forwarded == log + Feed(start, libxml[..n]).1
    }

    /** One `xmlParseChunk` call, the `n`-th: libxml makes the callbacks `libxml[n]` describes. */
    method FeedPiece(libxml: seq<ChunkOutcome>, n: nat, ghost start: DriverState, ghost log: seq<AnyContextualizedEvent>)
      returns (succeeded: bool)
      requires n < |libxml| && forall k :: 0 <= k < |libxml| ==> AllReadable(libxml[k].calls)
      requires Valid()
      requires Fed(start, log, libxml, n)
      modifies this
      ensures Valid() && succeeded == libxml[n].succeeded
      ensures Fed(start, log, libxml, n + 1)
    {
      ghost var before := Feed(start, libxml[..n]);
      var calls := libxml[n].calls;
      assert AllReadable(calls);
      DeliverCallbacks(calls);
      ghost var last := Steps(before.0, calls);
      assert Snapshot() == last.0 && forwarded == (log + before.1) + last.1;
      FeedStep(start, libxml, n);
      assert (log + before.1) + last.1 == log + (before.1 + last.1);
      succeeded := libxml[n].succeeded;
    }

    /**
     * The chunk-splitting part of `parse`: the whole chunk in one call when it
     * is under `Int32.max`, else consecutive pieces of at most `Int32.max`
     * bytes, stopping after the first call libxml fails. The `k`-th call made
     * is answered by `libxml[k]`.
     */
    method FeedChunk(isFinal: bool, count: nat, libxml: seq<ChunkOutcome>) returns (calls: seq<ChunkCall>, didSucceed: bool)
      requires Valid()
      requires |libxml| >= |ChunkCalls(isFinal, count)|
      requires forall k :: 0 <= k < |libxml| ==> AllReadable(libxml[k].calls)
      modifies this
      ensures Valid()
      ensures Answered(calls, ChunkCalls(isFinal, count), libxml, didSucceed)
      ensures Fed(old(Snapshot()), old(forwarded), libxml, |calls|)
    {
      ghost var start := Snapshot();
      ghost var log := forwarded;
      assert libxml[..0] == [] && log + [] == log;
      assert Fed(start, log, libxml, 0);
      if count < MaxChunkSize {
        didSucceed := FeedPiece(libxml, 0, start, log);
        calls := [ChunkCall(0, count, isFinal)];
        return;
      }
      calls, didSucceed := FeedPieces(isFinal, count, libxml, start, log);
    }

    /** The `repeat` loop of `parse`, for a chunk of at least `Int32.max` bytes. */
    method FeedPieces(isFinal: bool, count: nat, libxml: seq<ChunkOutcome>, ghost start: DriverState, ghost log: seq<AnyContextualizedEvent>)
      returns (calls: seq<ChunkCall>, didSucceed: bool)
      requires count >= MaxChunkSize
      requires |libxml| >= |PiecesFrom(isFinal, count, 0)|
      requires forall k :: 0 <= k < |libxml| ==> AllReadable(libxml[k].calls)
      requires Valid() && Fed(start, log, libxml, 0)
      modifies this
      ensures Valid()
      ensures Answered(calls, PiecesFrom(isFinal, count, 0), libxml, didSucceed)
      ensures Fed(start, log, libxml, |calls|)
    {
      var offset := 0;
      calls := [];
      ghost var pieces := PiecesFrom(isFinal, count, 0);
      assert pieces == calls + pieces;
      while true
        invariant Progress(isFinal, count, offset, calls, pieces, libxml)
        invariant Valid() && Fed(start, log, libxml, |calls|)
        decreases count - offset
      {
        calls, didSucceed := FeedNextPiece(isFinal, count, offset, libxml, start, log, calls, pieces);
        offset := offset + MaxChunkSize;
        if !(didSucceed && offset < count) {
          return;
        }
      }
    }

    /** One turn of the `repeat` loop: the next planned piece, of at most `Int32.max` bytes from `offset`, goes to libxml. */
    method FeedNextPiece(isFinal: bool, count: nat, offset: nat, libxml: seq<ChunkOutcome>,
                         ghost start: DriverState, ghost log: seq<AnyContextualizedEvent>,
                         done: seq<ChunkCall>, ghost pieces: seq<ChunkCall>)
      returns (next: seq<ChunkCall>, succeeded: bool)
      requires Progress(isFinal, count, offset, done, pieces, libxml)
      requires forall k :: 0 <= k < |libxml| ==> AllReadable(libxml[k].calls)
      requires Valid() && Fed(start, log, libxml, |done|)
      modifies this
      ensures |next| == |done| + 1 <= |libxml|
      ensures Valid() && Fed(start, log, libxml, |next|)
      ensures succeeded == libxml[|done|].succeeded
      ensures succeeded && offset + MaxChunkSize < count ==>
        Progress(isFinal, count, offset + MaxChunkSize, next, pieces, libxml)
      ensures !(succeeded && offset + MaxChunkSize < count) ==> Answered(next, pieces, libxml, succeeded)
    {
      var size := if count - offset < MaxChunkSize then count - offset else MaxChunkSize;
      var isFinalChunk := isFinal && offset + size == count;
      PlanAdvance(isFinal, count, offset, done, pieces, libxml);
      succeeded := FeedPiece(libxml, |done|, start, log);
      next := done + [ChunkCall(offset, size, isFinalChunk)];
    }

    /**
     * `parse(final:chunk:using:)` on a chunk of `count` bytes: a pending
     * reset happens first, then the chunk is fed, then the error latch is
     * consulted before libxml's own error. Afterwards a reset is pending
     * exactly when something was thrown or the chunk was final.
     */
    method Parse(isFinal: bool, count: nat, libxml: seq<ChunkOutcome>, lastError: Option<LibxmlError>)
      returns (calls: seq<ChunkCall>, thrown: Option<Error>)
      requires Valid()
      requires |libxml| >= |ChunkCalls(isFinal, count)|
      requires forall k :: 0 <= k < |libxml| ==> AllReadable(libxml[k].calls)
      modifies this
      ensures Valid()
      ensures 1 <= |calls| <= |ChunkCalls(isFinal, count)| && calls == ChunkCalls(isFinal, count)[..|calls|]
      ensures forall k :: 0 <= k < |calls| - 1 ==> libxml[k].succeeded
      ensures libxml[|calls| - 1].succeeded ==> calls == ChunkCalls(isFinal, count)
      ensures var start := if old(needsResetBeforeNextParseCall) then Initial else old(Snapshot());
        var fed := Feed(start, libxml[..|calls|]);
        forwarded == old(forwarded) + fed.1 &&
        thrown == Thrown(fed.0, libxml[|calls| - 1].succeeded, lastError) &&
        Snapshot() == fed.0.(needsReset := thrown.Some? || isFinal)
      ensures needsResetBeforeNextParseCall <==> thrown.Some? || isFinal
    {
      if needsResetBeforeNextParseCall {
        Reset();
      }
      ghost var start := Snapshot();
      assert ResetOnlyOnStop(start);
      var didSucceed;
      ghost var log := forwarded;
      calls, didSucceed := FeedChunk(isFinal, count, libxml);
      assert Fed(start, log, libxml, |calls|);
      FeedKeepsInvariants(start, libxml[..|calls|]);
      assert ResetOnlyOnStop(Snapshot());
      assert Snapshot() == Feed(start, libxml[..|calls|]).0;
      if hasError && error.Some? {
        thrown := error;
        assert thrown == Thrown(Snapshot(), didSucceed, lastError);
        return;
      }
      if !didSucceed {
        ghost var fed := Snapshot();
        needsResetBeforeNextParseCall := true;
        if lastError.None? {
          thrown := Some(Zemel(Unknown));
        } else {
          var e := lastError.value;
          thrown := Some(Zemel(Parsing(e.line, e.column, e.message)));
        }
        assert thrown == Thrown(fed, didSucceed, lastError);
        return;
      }
      thrown := None;
      assert thrown == Thrown(Snapshot(), didSucceed, lastError);
      if isFinal {
        needsResetBeforeNextParseCall := true;
      }
    }
  }
}
