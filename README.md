# Zemel selection engine in Dafny

Zemel runs a routine, a static tree of selection rules written by the user, against the stream of events that libxml2's push parser produces for an XML document (element start, element end, text). At each position of the tree a selector decides whether the current event belongs to a node the routine cares about, and the engine runs, skips or tears down the handler code below that position accordingly. Nothing is built up as a DOM.

This project models that engine:

- the primitive arenas (`GrowableBuffers`, `AppendOnlyArrays`, `Stacks`), each a class over an array that grows by doubling;
- the selector state machines: child, child-container, descendant and descendant-container selectors, selector chains and the chain-executing selector that runs them, and the boxed selector pointers and selector kinds that own them (`ChildSelectors` … `SelectorPointerBoxes`);
- the start conditions on names and event kinds (`Conditions`), the selection verdicts and the events (`Selection`, `Events`);
- the per-node state arena: one boxed selector per body position and a stack of user-state slots (`NodeStates`);
- the body-shape descriptor, a flat pre-order array whose entries give the index just past each subtree (`RoutineBodies`);
- the routine context, which holds the arena, the current event, the current node cursor and the execution mode, and the routine methods that consult it (`RoutineContexts`, `RoutineMethods`);
- the parser driver that feeds chunks to the push parser, contextualises its callbacks with a depth and forwards them to the routine, and stops on the first error (`ZemelParsers`, `Documents`, `Errors`);
- the raw string, name, namespace and attribute views over libxml2 buffers (`StringPointers`, `Names`, `PrefixedNamespaces`, `Attributes`).

Memory that the source manages by hand is modelled with a log of the objects that were deinitialized and deallocated, so that "released exactly once" and "never released" can be stated and proved. libxml2 itself is a parameter: what it calls back for each chunk is an input to the model.

## Model

| member | source | states |
|---|---|---|
| AppendOnlyArrays.AppendOnlyArray.constructor | Sources/Zemel/Collections/AppendOnlyArray.swift:14-22 | a new array is empty, its cursor at 0, over a fresh buffer |
| AppendOnlyArrays.AppendOnlyArray.HasNext | Sources/Zemel/Collections/AppendOnlyArray.swift:18 | true exactly when the cursor is before the end of the stored elements |
| AppendOnlyArrays.AppendOnlyArray.ResetCursor | Sources/Zemel/Collections/AppendOnlyArray.swift:39-41 | the cursor goes back to 0 and the elements are kept |
| AppendOnlyArrays.AppendOnlyArray.Reset | Sources/Zemel/Collections/AppendOnlyArray.swift:43-48 | the array is emptied and the cursor is at 0 |
| AppendOnlyArrays.AppendOnlyArray.Append | Sources/Zemel/Collections/AppendOnlyArray.swift:50-61 | only with the cursor at the end; the element is added last, the cursor follows it, and the buffer is kept or replaced by a fresh one when full |
| AppendOnlyArrays.AppendOnlyArray.Next | Sources/Zemel/Collections/AppendOnlyArray.swift:63-69 | only with an element left; returns the element at the cursor and moves the cursor on by one, the elements unchanged |
| AppendOnlyArrays.AppendOnlyArray.ForEach | Sources/Zemel/Collections/AppendOnlyArray.swift:29-37 | visits exactly the stored elements, in order |
| AppendOnlySelectorArrays.Values | Sources/Zemel/Selectors/AppendOnlySelectorArray.swift:10-20 | one state per entry, each the state of the selector that entry points to |
| AppendOnlySelectorArrays.EntryKindsAreValueKinds | Sources/Zemel/Selectors/AppendOnlySelectorArray.swift:10-20 | each entry's kind tag is the kind of the selector it points to |
| AppendOnlySelectorArrays.Targets | Sources/Zemel/Selectors/AppendOnlySelectorArray.swift:10-20 | the selector objects of the entries, one per entry and in entry order |
| AppendOnlySelectorArrays.AsWrittenLinkSelectorsLeak | Sources/Zemel/Selectors/AppendOnlySelectorArray.swift:30-33 | as written, releasing the array never deallocates any selector it holds, so none is released exactly once |
| AppendOnlySelectorArrays.EveryLinkSelectorReleasedOnce | Sources/Zemel/Selectors/AppendOnlySelectorArray.swift:30-33 | corrected, every selector the array holds is deinitialized and then deallocated exactly once |
| AppendOnlySelectorArrays.AppendOnlySelectorArray.constructor | Sources/Zemel/Selectors/AppendOnlySelectorArray.swift:26-28 | a new array holds no entries and its cursor is at 0 |
| AppendOnlySelectorArrays.AppendOnlySelectorArray.HasNext | Sources/Zemel/Selectors/AppendOnlySelectorArray.swift:24 | true exactly when the cursor is before the end of the entries |
| AppendOnlySelectorArrays.AppendOnlySelectorArray.ResetCursor | Sources/Zemel/Selectors/AppendOnlySelectorArray.swift:35-37 | the cursor goes back to 0 and the entries are kept |
| AppendOnlySelectorArrays.AppendOnlySelectorArray.Append | Sources/Zemel/Selectors/AppendOnlySelectorArray.swift:39-41 | only at the end and for a selector not already held; the entry is added last and the cursor follows it |
| AppendOnlySelectorArrays.AppendOnlySelectorArray.Next | Sources/Zemel/Selectors/AppendOnlySelectorArray.swift:43-47 | returns the pointer and kind of the entry at the cursor and moves the cursor on by one |
| AppendOnlySelectorArrays.AppendOnlySelectorArray.Deinitialize | Sources/Zemel/Selectors/AppendOnlySelectorArray.swift:30-33 | releases the held selectors in entry order, each deinitialized then deallocated (corrected release; see the Findings row for Sources/Zemel/Selectors/AppendOnlySelectorArray.swift:30-33) |
| ChainExecutingSelectors.RunChain | Sources/Zemel/Selectors/ChainExecutingSelector.swift:20-23 | the chain's links run in order against the stored selectors exactly as RunLinks says: same selector states afterwards and same result or error |
| ChainExecutingSelectors.RunNextLink | Sources/Zemel/Selectors/SelectorChain.swift:189-216 | one link of that run: either the run ends with the link's error or it continues from the next link towards the same overall result |
| ChainExecutingSelectors.NoLinkSelectorIsAChainSelector | Sources/Zemel/Selectors/SelectorKind.swift:10-16 | a chain's own selector is never among the link selectors it stores |
| ChainExecutingSelectors.ChainExecutingSelector.constructor | Sources/Zemel/Selectors/ChainExecutingSelector.swift:12-14 | a new chain selector stores no link selectors and has chain length 0 |
| ChainExecutingSelectors.ChainExecutingSelector.Select | Sources/Zemel/Selectors/ChainExecutingSelector.swift:20-35 | the chain is rerun from the root with the cursor reset; result and selector states are RunLinks'; the first completed run fixes the chain length to the number of links and later runs must have the same length |
| ChainExecutingSelectors.ChainExecutingSelector.RecordChainLength | Sources/Zemel/Selectors/ChainExecutingSelector.swift:25-26 | the first completed run's length is stored; the stored link selectors are untouched |
| ChainExecutingSelectors.ChainExecutingSelector.Deinitialize | Sources/Zemel/Selectors/ChainExecutingSelector.swift:16-18 | releases exactly what the scratch array releases, so every stored link selector is deinitialized and then deallocated (corrected release; see the Findings row for Sources/Zemel/Selectors/AppendOnlySelectorArray.swift:30-33) |
| SelectorChains.LinkKind | Sources/Zemel/Selectors/SelectorChain.swift:228-336 | each kind of link uses its own selector kind: child text a child selector, descendant text a descendant selector, named or conditional children a child container selector, named or conditional descendants a descendant container selector, never a chain selector |
| SelectorChains.StartCondition | Sources/Zemel/Selectors/SelectorChain.swift:259-336 | definition (no contract of its own): the closure a container link hands its selector, answering each event with `SelectorChains.StartVerdict` |
| SelectorChains.StartVerdict | Sources/Zemel/Selectors/SelectorChain.swift:259-336 | a container link's start condition is true only on an element start and answers false for every other event without consulting the link's name or closure |
| SelectorChains.Root | Sources/Zemel/Selectors/SelectorChain.swift:153-161 | the chain with no links has length zero and reports being inside the current element, so the body under it may run only nested selectors |
| SelectorChains.Lengthened | Sources/Zemel/Selectors/SelectorChain.swift:127-136 | the chain grows by exactly one link and carries the new verdict |
| SelectorChains.ProcessLink | Sources/Zemel/Selectors/SelectorChain.swift:228-336 | a link's selector processes the event with the link's condition and stays of the link's kind |
| SelectorChains.LinkStep | Sources/Zemel/Selectors/SelectorChain.swift:189-216 | inside a matched container the link's selector decides and the chain grows by one; otherwise the selector is put back in its initial state and the chain grows by one, unmatched |
| SelectorChains.WithSelectorFor | Sources/Zemel/Selectors/SelectorChain.swift:164-187 | link `k` gets the stored selector at `k` or, when there is none, a new one appended in its initial state; nothing already stored changes |
| SelectorChains.WithSelectorKindsAgree | Sources/Zemel/Selectors/SelectorChain.swift:164-187 | fetching or appending link `k`'s selector keeps every stored selector of its link's kind |
| SelectorChains.ReplacedKindsAgree | Sources/Zemel/Selectors/SelectorChain.swift:202-212 | writing back a selector of link `k`'s kind keeps that agreement |
| SelectorChains.RunLinksKeepKinds | Sources/Zemel/Selectors/SelectorChain.swift:164-216 | a run of the chain leaves every stored selector of its link's kind |
| SelectorChains.RunLinksKeepEarlierSelectors | Sources/Zemel/Selectors/SelectorChain.swift:164-216 | a run only appends selectors and leaves those of links already run untouched |
| SelectorChains.RunLinksCompleteLength | Sources/Zemel/Selectors/SelectorChain.swift:127-136 | a run that completes has one more chain link per remaining link and a stored selector for every link |
| SelectorChains.RunLinksShape | Sources/Zemel/Selectors/SelectorChain.swift:127-216 | the three facts above together: kinds kept, earlier selectors kept, and a completed run as long as the chain |
| SelectorChains.RunLinks | Sources/Zemel/Selectors/SelectorChain.swift:164-216 | the reference for one pass of a chain (no contract of its own): each remaining link fetches or appends its selector, steps it, and the first condition error ends the pass with the selectors updated so far; the chain executors are proved equal to it |
| SelectorChains.OutsideAMatchNothingLaterMatches | Sources/Zemel/Selectors/SelectorChain.swift:209-214 | once a link is not inside a matched container, every later link reports unmatched and has its selector reset to the initial state, and the run completes |
| SelectorChains.SingleLinkIsItsSelector | Sources/Zemel/Selectors/SelectorChain.swift:153-162 | the root starts inside a matched container, so a one-link chain reports exactly what its selector reports |
| SelectorChains.PointerToNextSelector | Sources/Zemel/Selectors/SelectorChain.swift:164-187 | the stored selector at the cursor when there is one (of the requested kind), otherwise a fresh selector in its initial state appended at the end; the cursor moves on by one |
| SelectorChains.SelectWith | Sources/Zemel/Selectors/SelectorChain.swift:194-215 | the selector and the result change exactly as LinkStep says, or the condition's error is returned with the selector unchanged |
| SelectorChains.SelectLink | Sources/Zemel/Selectors/SelectorChain.swift:189-216 | one link of a chain: its selector is fetched or appended and then updated as LinkStep says, every other stored selector unchanged |
| SelectorChains.SelectWithEntry | Sources/Zemel/Selectors/SelectorChain.swift:194-215 | updating the selector of entry `k` changes only the state at position `k` |
| SelectorKinds.InitialValue | Sources/Zemel/Selectors/SelectorChain.swift:228-336 | the state a freshly made selector of each link kind starts in is of that kind |
| SelectorKinds.ValueOf | Sources/Zemel/Selectors/SelectorKind.swift:42-67 | the state read through a selector pointer is of the kind the pointer is tagged with |
| SelectorKinds.KindsAreExclusive | Sources/Zemel/Selectors/SelectorKind.swift:8-20 | a selector pointer has exactly one kind |
| SelectorKinds.NewLinkSelector | Sources/Zemel/Selectors/SelectorChain.swift:179-183 | a fresh selector of the requested link kind, in its initial state |
| SelectorPointerBoxes.NewSelector | Sources/Zemel/Routine/NodeStateReferences.swift:51-55 | a fresh selector of the requested kind in its initial state; a chain selector starts with no stored link selectors and chain length 0 |
| SelectorPointerBoxes.Boxing | Sources/Zemel/Selectors/SelectorPointerBox.swift:14-17 | boxing a pointer records the pointer's own kind |
| SelectorPointerBoxes.Unbox | Sources/Zemel/Selectors/SelectorPointerBox.swift:19-23 | only when the expected kind is the boxed kind; the result points to a selector of that kind |
| SelectorPointerBoxes.UnboxReturnsBoxedPointer | Sources/Zemel/Selectors/SelectorPointerBox.swift:14-23 | unboxing with the kind it was boxed with gives back the boxed pointer |
| SelectorPointerBoxes.BoxedKindIsUnique | Sources/Zemel/Selectors/SelectorPointerBox.swift:19-23 | the only kind a box can be unboxed as is the kind it recorded |
| SelectorPointerBoxes.DeinitializeSelector | Sources/Zemel/Selectors/SelectorKind.swift:42-67 | releases through the recorded kind: a chain selector first releases its stored link selectors, each deinitialized and then deallocated, then the selector itself is deinitialized (corrected release; see the Findings row for Sources/Zemel/Selectors/AppendOnlySelectorArray.swift:30-33) |
| SelectorPointerBoxes.DeinitializeAndDeallocateBoxedPointer | Sources/Zemel/Selectors/SelectorPointerBox.swift:25-29 | the boxed selector is deinitialized through its kind and then deallocated; a chain's link selectors are released by the corrected release (corrected release; see the Findings row for Sources/Zemel/Selectors/AppendOnlySelectorArray.swift:30-33) |
| SelectorPointerBoxes.BoxedSelectorReleasedOnce | Sources/Zemel/Selectors/SelectorPointerBox.swift:25-29 | releasing a box deinitializes and then deallocates the boxed selector exactly once, as the source does for the box itself; the links of a boxed chain follow the corrected release (see the Findings row for Sources/Zemel/Selectors/AppendOnlySelectorArray.swift:30-33) |
| NodeStates.UserStateCell.constructor | Sources/Zemel/Routine/NodeStateReferences.swift:77-79 | a fresh user-state cell holds the value its initializer produced |
| NodeStates.FilledCells | Sources/Zemel/Routine/NodeStateReferences.swift:33-37 | exactly the cells of the filled slots, no more than there are slots |
| NodeStates.ReleaseLogOfSlots | Sources/Zemel/Routine/NodeStateReferences.swift:33-37 | releasing the slots from index i onward releases slot i's cell first (if filled), then the rest |
| NodeStates.FilledCellsAreDistinct | Sources/Zemel/Routine/NodeStateReferences.swift:77-79 | when every slot holds its own cell, the filled cells are pairwise distinct |
| NodeStates.AsWrittenFilledSlotsLeak | Sources/Zemel/Routine/NodeStateReferences.swift:30-40 | as written, tearing a node down never deallocates the cell of a filled user-state slot |
| NodeStates.BoxLogMentionsNoCell | Sources/Zemel/Selectors/SelectorPointerBox.swift:25-29 | releasing the selector box touches no user-state cell |
| NodeStates.FilledSlotsReleasedOnce | Sources/Zemel/Routine/NodeStateReferences.swift:30-40 | in the corrected teardown every filled slot's cell is deinitialized and then deallocated exactly once |
| NodeStates.ReleasedOnceBeforeCells | Sources/Zemel/Routine/NodeStateReferences.swift:31-37 | an object released once by the box and not among the cells stays released once after the cells are released |
| NodeStates.BoxReleasedOnceWithNode | Sources/Zemel/Routine/NodeStateReferences.swift:30-40 | the node's teardown releases its boxed selector exactly once |
| NodeStates.ReleaseSlots | Sources/Zemel/Routine/NodeStateReferences.swift:33-37 | walks the slots in order and deinitializes and then deallocates every filled slot's cell (corrected teardown; see the Findings row for Sources/Zemel/Routine/NodeStateReferences.swift:30-40) |
| NodeStates.NodeStateReferences.constructor | Sources/Zemel/Routine/NodeStateReferences.swift:23-25 | no selector box, no user-state slots, no user-state type |
| NodeStates.NodeStateReferences.PointerToSelector | Sources/Zemel/Routine/NodeStateReferences.swift:47-59 | reuses the boxed selector when there is one; otherwise allocates a fresh selector of the kind in its initial state and boxes it; slots and user-state type unchanged |
| NodeStates.NodeStateReferences.PushEmptyUserStateSlot | Sources/Zemel/Routine/NodeStateReferences.swift:64-66 | one empty slot is appended; nothing else changes |
| NodeStates.NodeStateReferences.UncheckedPointerToUserState | Sources/Zemel/Routine/NodeStateReferences.swift:68-82 | returns the top slot's cell if filled; otherwise runs the initializer, fills the top slot with a fresh cell holding its value, or passes on its error leaving the slot empty; lower slots untouched |
| NodeStates.NodeStateReferences.CheckedPointerToUserState | Sources/Zemel/Routine/NodeStateReferences.swift:84-92 | records the user-state type on first use and demands the same type afterwards, then behaves as the unchecked access |
| NodeStates.NodeStateReferences.PopUserStateSlot | Sources/Zemel/Routine/NodeStateReferences.swift:94-102 | drops the top slot, deinitializing and deallocating its cell when it is filled |
| NodeStates.NodeStateReferences.Deinitialize | Sources/Zemel/Routine/NodeStateReferences.swift:30-40 | releases the boxed selector and then every filled slot's cell, in slot order (corrected teardown; see the Findings row for Sources/Zemel/Routine/NodeStateReferences.swift:30-40) |
| Attributes.AttributeAt | Sources/Zemel/UnsafeAttributes.swift:43-73 | an attribute exists at an index exactly when its local-name, value-start and value-end slots are all present |
| Attributes.AttributeAtReadsSlots | Sources/Zemel/UnsafeAttributes.swift:62-72 | the attribute's name is the namespace URI and local name read from its slots, and its value is the bytes between value start and value end |
| Attributes.FirstMatch | Sources/Zemel/UnsafeAttributes.swift:31-41 | the first index from a starting point whose attribute is present and has the name, or none when no later index does |
| Attributes.Subscript | Sources/Zemel/UnsafeAttributes.swift:31-41 | the value of the first present attribute with the name; none exactly when no attribute has the name |
| Attributes.NextPresent | Sources/Zemel/AttributeIterator.swift:102-115 | the first present attribute at or after a starting index, or none when every later slot is absent |
| Attributes.WalkStep | Sources/Zemel/AttributeIterator.swift:102-115 | one advance of the iterator visits the next present attribute and continues from there |
| Attributes.PresentFromSkipsAbsent | Sources/Zemel/AttributeIterator.swift:105-106 | skipping over absent slots does not change the present attributes still to visit |
| Attributes.WalkEnumeratesPresent | Sources/Zemel/AttributeIterator.swift:87-115 | the iterator visits exactly the present attributes, in index order |
| Attributes.WalkAdvance | Sources/Zemel/AttributeIterator.swift:105-111 | moving to the next present attribute keeps the iterator positioned on a present attribute and extends what it has visited by that index |
| Attributes.WalkEnds | Sources/Zemel/AttributeIterator.swift:113-114 | when no present attribute follows, the iterator has visited every present attribute |
| Attributes.RawAttributeIterator.constructor | Sources/Zemel/AttributeIterator.swift:81-85 | stores the attributes, the index and the attribute |
| Attributes.RawAttributeIterator.Over | Sources/Zemel/AttributeIterator.swift:87-97 | no iterator exactly when no attribute is present; otherwise one positioned on the first present attribute |
| Attributes.RawAttributeIterator.Next | Sources/Zemel/AttributeIterator.swift:102-115 | advances to the next present attribute and answers true, or answers false and stays put once every present attribute has been visited |
| Attributes.RawAttributeIterator.MoveTo | Sources/Zemel/AttributeIterator.swift:108-109 | repositions the iterator on the next present attribute |
| Attributes.RawAttributeIterator.Name | Sources/Zemel/AttributeIterator.swift:30-32 | the current attribute's name as read from its slots |
| Attributes.RawAttributeIterator.Value | Sources/Zemel/AttributeIterator.swift:36-38 | the current attribute's value bytes |
| Attributes.RawAttributeIterator.HasName | Sources/Zemel/AttributeIterator.swift:44-46 | true exactly when the current attribute's name equals the given name |
| Attributes.RawAttributeIterator.HasValue | Sources/Zemel/AttributeIterator.swift:50-54 | true exactly when the current attribute's value equals the given bytes |
| RoutineMethods.FirstMatchSkipsNonMatching | Sources/Zemel/Routine/Methods/Methods.swift:55-62 | passing over attributes without the name does not change the first match still ahead |
| RoutineMethods.FirstMatchFromNextPresent | Sources/Zemel/AttributeIterator.swift:105-106 | the first match from an index is the first match from the next present attribute, and none when none is present |
| RoutineMethods.FirstMatchAfterMiss | Sources/Zemel/Routine/Methods/Methods.swift:55-62 | after a miss at the current attribute, the first match is the one found from the next present attribute |
| RoutineMethods.FindFirstNamed | Sources/Zemel/Routine/Methods/Methods.swift:52-63 | iterating from the first present attribute stops on the first attribute with the name, or finds none exactly when no attribute has it |
| RoutineMethods.AdvancePastMiss | Sources/Zemel/Routine/Methods/Methods.swift:55-62 | one turn of the repeat loop: after a miss it advances without skipping any match, or reports that no match remains |
| RoutineMethods.AttributeExists | Sources/Zemel/Routine/Methods/Methods.swift:49-66 | fails with the expected-element error off an element start; otherwise true exactly when some attribute has the name |
| RoutineMethods.Attribute | Sources/Zemel/Routine/Methods/Methods.swift:72-74 | fails off an element start; otherwise the value of the first attribute with the name, none when no attribute has it |
| RoutineMethods.AttributeIs | Sources/Zemel/Routine/Methods/Methods.swift:80-99 | fails off an element start; otherwise true exactly when the first attribute with the name has the given value |
| RoutineMethods.ElementName | Sources/Zemel/Routine/Methods/Methods.swift:106-108 | the current element's name, or the expected-element error when the event is not an element start |
| RoutineMethods.ElementNameIs | Sources/Zemel/Routine/Methods/Methods.swift:117-119 | exact name comparison against the current element, or the expected-element error |
| RoutineMethods.ElementLocalName | Sources/Zemel/Routine/Methods/Methods.swift:125-127 | the current element's local name, or the expected-element error |
| RoutineMethods.ElementLocalNameIs | Sources/Zemel/Routine/Methods/Methods.swift:133-135 | local-name comparison against the current element, or the expected-element error |
| RoutineMethods.Text | Sources/Zemel/Routine/Methods/Methods.swift:144-146 | the current text node's bytes, or the expected-text error when the event is not text |
| RoutineMethods.NameChecksAgreeWithAccessors | Sources/Zemel/Routine/Methods/Methods.swift:104-135 | the name checks fail exactly when the accessors fail, agree with comparing the accessors' results, and a full-name match implies a local-name match |
| ChildContainerSelectors.ChildContainerSelector.constructor | Sources/Zemel/Selectors/ChildContainerSelector.swift:20 | a new child-container selector waits for a match |
| ChildContainerSelectors.ChildContainerSelector.Process | Sources/Zemel/Selectors/ChildContainerSelector.swift:24-53 | the new state and report are one transition of the selector; an error from the start condition is passed on and leaves the state unchanged |
| ChildContainerSelectors.ChildContainerTransition | Sources/Zemel/Selectors/ChildContainerSelector.swift:24-53 | never reports a matched node; reports a container start exactly when waiting and the condition accepts, its end exactly when the event is back at the matched depth, and within exactly when a matched container is open and the event is deeper |
| ChildContainerSelectors.RunChildContainer | Sources/Zemel/Selectors/ChildContainerSelector.swift:24-53 | one report per event |
| ChildContainerSelectors.RunChildContainerPointwise | Sources/Zemel/Selectors/ChildContainerSelector.swift:24-53 | the report for event k is what `process` answers at event k in the state the earlier events left |
| ChildContainerSelectors.ChildContainerStep | Sources/Zemel/Selectors/ChildContainerSelector.swift:24-53 | fails exactly when the selector is waiting for a match and the start condition throws, with that error; otherwise it is the transition with the condition consulted only while waiting |
| ChildContainerSelectors.RunChildContainerSingle | Sources/Zemel/Selectors/ChildContainerSelector.swift:24-53 | running one event is one transition |
| ChildContainerSelectors.RunChildContainerConcat | Sources/Zemel/Selectors/ChildContainerSelector.swift:24-53 | running two event sequences one after the other is running their concatenation |
| ChildContainerSelectors.DeeperEventsStayInside | Sources/Zemel/Selectors/ChildContainerSelector.swift:37-51 | while matched or ignoring a container, events deeper than it leave the state alone and report within (or unmatched) |
| ChildContainerSelectors.ChildContainerSelectorReportsNode | Sources/Zemel/Selectors/ChildContainerSelector.swift:24-53 | over one child node the selector reports start, within and end for an accepted element, unmatched for the rest, and is waiting again afterwards |
| ChildContainerSelectors.ChildContainerSelectorMatchesDirectChildren | Sources/Zemel/Selectors/ChildContainerSelector.swift:24-53 | over the events of a sequence of sibling nodes the selector matches exactly the direct child elements its condition accepts, each as a whole container |
| ChildSelectors.ChildSelector.constructor | Sources/Zemel/Selectors/ChildSelector.swift:19 | a new child selector waits for a match |
| ChildSelectors.ChildSelector.Process | Sources/Zemel/Selectors/ChildSelector.swift:23-43 | the new state and report are one step of the selector |
| ChildSelectors.ChildStep | Sources/Zemel/Selectors/ChildSelector.swift:23-43 | never reports a container; reports a matched node exactly when waiting for a match, the event is not an element start, and the condition holds; an element start met while waiting is skipped, and skipping ends exactly at that element's end |
| ChildSelectors.RunChild | Sources/Zemel/Selectors/ChildSelector.swift:23-43 | one report per event |
| ChildSelectors.RunChildPointwise | Sources/Zemel/Selectors/ChildSelector.swift:23-43 | the report for event k is what `process` answers at event k in the state the earlier events left |
| ChildSelectors.RunChildConcat | Sources/Zemel/Selectors/ChildSelector.swift:23-43 | running two event sequences one after the other is running their concatenation |
| ChildSelectors.IgnoringDeeperEvents | Sources/Zemel/Selectors/ChildSelector.swift:36-41 | while ignoring an element, events deeper than it are unmatched and leave the state alone |
| ChildSelectors.ChildReport | Sources/Zemel/Selectors/ChildSelector.swift:23-43 | the reference reports for one child node: one per event of the node |
| ChildSelectors.ChildReports | Sources/Zemel/Selectors/ChildSelector.swift:23-43 | the reference reports for a sequence of sibling nodes: one per event |
| ChildSelectors.RunChildSingle | Sources/Zemel/Selectors/ChildSelector.swift:23-43 | running one event is one step |
| ChildSelectors.ChildSelectorMatchesDirectChildren | Sources/Zemel/Selectors/ChildSelector.swift:23-43 | over the events of a sequence of sibling nodes the selector produces the reference reports and ends waiting for a match |
| ChildSelectors.ChildReportsMatchDirectText | Sources/Zemel/Selectors/ChildSelector.swift:25-34 | the reference reports match an event exactly when it is a text event at the children's depth that the condition accepts |
| Conditions.IsTextCondition | Sources/Zemel/Selectors/Conditions.swift:10-12 | true exactly for text events |
| Conditions.ConditionTrueForElementStart | Sources/Zemel/Selectors/Conditions.swift:14-16 | false without consulting the user condition off an element start; the user condition's answer or error on one |
| Conditions.StartsElementMatchingName | Sources/Zemel/Selectors/Conditions.swift:18-37 | true exactly for an element start whose local name equals the given one and, only when the given name has a namespace, whose namespace equals it too |
| Conditions.NameMatchingAgainstEquals | Sources/Zemel/Selectors/Conditions.swift:18-37 | with a namespace, matching is exact name equality; without one, it is local-name equality |
| DescendantContainerSelectors.DescendantContainerSelector.constructor | Sources/Zemel/Selectors/DescendantContainerSelector.swift:19 | a new descendant-container selector has no pending depths |
| DescendantContainerSelectors.DescendantContainerSelector.Process | Sources/Zemel/Selectors/DescendantContainerSelector.swift:25-46 | the new pending depths and report are one transition; an error from the start condition is passed on and leaves the pending depths unchanged |
| DescendantContainerSelectors.DescendantContainerTransition | Sources/Zemel/Selectors/DescendantContainerSelector.swift:29-45 | never reports a matched node; unmatched exactly when nothing is pending before or after; a start exactly when the event's depth is pushed; an end exactly when the innermost pending depth is popped |
| DescendantContainerSelectors.DescendantContainerStep | Sources/Zemel/Selectors/DescendantContainerSelector.swift:25-46 | fails exactly when the start condition throws, with that error; otherwise it is the transition for the condition's verdict |
| DescendantContainerSelectors.RunDescendantContainer | Sources/Zemel/Selectors/DescendantContainerSelector.swift:25-46 | one report per event |
| DescendantContainerSelectors.RunDescendantContainerPointwise | Sources/Zemel/Selectors/DescendantContainerSelector.swift:25-46 | the report for event k is what `process` answers at event k with the open depths the earlier events left |
| DescendantContainerSelectors.RunDescendantContainerSingle | Sources/Zemel/Selectors/DescendantContainerSelector.swift:25-46 | running one event is one transition |
| DescendantContainerSelectors.RunDescendantContainerConcat | Sources/Zemel/Selectors/DescendantContainerSelector.swift:25-46 | running two event sequences one after the other is running their concatenation |
| DescendantContainerSelectors.OpenDepthsCountStartsLessEnds | Sources/Zemel/Selectors/DescendantContainerSelector.swift:29-45 | over any events, the pending depths at the start plus the container starts reported equal the pending depths at the end plus the container ends reported |
| DescendantContainerSelectors.DescendantContainerReport | Sources/Zemel/Selectors/DescendantContainerSelector.swift:26-27 | the reference reports for one node, nested matches included: one per event of the node |
| DescendantContainerSelectors.DescendantContainerReports | Sources/Zemel/Selectors/DescendantContainerSelector.swift:26-27 | the reference reports for a sequence of sibling nodes: one per event |
| DescendantContainerSelectors.DescendantContainerSelectorOverForest | Sources/Zemel/Selectors/DescendantContainerSelector.swift:25-46 | over the events of well-nested sibling nodes deeper than every pending depth, the selector produces the reference reports and returns to the pending depths it started with |
| DescendantContainerSelectors.DescendantContainerSelectorOverNode | Sources/Zemel/Selectors/DescendantContainerSelector.swift:25-46 | the same for the events of one node |
| DescendantContainerSelectors.DescendantContainerSelectorClosesEverything | Sources/Zemel/Selectors/DescendantContainerSelector.swift:25-46 | from no pending depths, a document's events leave none pending and never report a matched node |
| DescendantContainerSelectors.NoNodeMatchesInReports | Sources/Zemel/Selectors/DescendantContainerSelector.swift:25-46 | the reference reports for sibling nodes never contain a matched node |
| DescendantContainerSelectors.NoNodeMatchesInReport | Sources/Zemel/Selectors/DescendantContainerSelector.swift:25-46 | the reference reports for one node never contain a matched node |
| DescendantSelectors.DescendantVerdict | Sources/Zemel/Selectors/DescendantSelector.swift:14-16 | a matched node exactly when the condition holds, unmatched otherwise |
| DescendantSelectors.DescendantSelector.Process | Sources/Zemel/Selectors/DescendantSelector.swift:14-16 | reports the verdict for the event; the selector keeps no state |
| DescendantSelectors.RunDescendant | Sources/Zemel/Selectors/DescendantSelector.swift:14-16 | one report per event |
| DescendantSelectors.RunDescendantPointwise | Sources/Zemel/Selectors/DescendantSelector.swift:14-16 | each report is the verdict for its own event alone |
| DescendantSelectors.ChildMatchesAreDescendantMatches | Sources/Zemel/Selectors/DescendantSelector.swift:14-16 | under the same condition every child match is a descendant match, and a descendant match of text at the children's depth is a child match |
| Documents.ForestEventsAreDeepEnough | Sources/Zemel/Zemel.swift:280-341 | every event of a sequence of sibling nodes is at least as deep as the siblings |
| Documents.NodeEventsAreDeepEnough | Sources/Zemel/Zemel.swift:280-341 | every event of a node is at least as deep as the node |
| Documents.ForestEventsSplit | Sources/Zemel/Zemel.swift:280-341 | the events of sibling nodes are the first node's events followed by the rest's |
| Events.IsElementStart | Sources/Zemel/Events.swift:36-41 | an event is an element start exactly when it is neither text nor an element end |
| Events.IsText | Sources/Zemel/Events.swift:43-48 | an event is text exactly when it is neither an element start nor an element end |
| Events.IsElementEnd | Sources/Zemel/Events.swift:50-57 | only an end event at the given depth passes; an end event passes exactly at its own depth |
| Selection.AppropriateBodyExecution | Sources/Zemel/Selectors/SelectionEvent.swift:22-30 | no body execution exactly for unmatched; a matched report never allows everything or nothing |
| Selection.MatchedBodyRunsExactlyOneKind | Sources/Zemel/Routine/RoutineExpressionExecution.swift:12-22 | a matched report allows exactly one of selectors, parent-end selectors and user handlers: handlers for a node or a container start, selectors within, parent-end selectors at the end |
| Selection.AnyAllowsAllNothingAllowsNone | Sources/Zemel/Routine/RoutineExpressionExecution.swift:10-22 | the any mode allows all three kinds of expression and the none mode allows none |
| Selection.AllowsSelectors | Sources/Zemel/Routine/RoutineExpressionExecution.swift:12-14 | definition (no contract of its own): nested selectors may run in the any and selectors modes; its properties are in the two lemmas above |
| Selection.AllowsParentEndSelectors | Sources/Zemel/Routine/RoutineExpressionExecution.swift:16-18 | definition (no contract of its own): parent-end selectors may run in the any and parent-end-selectors modes |
| Selection.AllowsUserHandlers | Sources/Zemel/Routine/RoutineExpressionExecution.swift:20-22 | definition (no contract of its own): user handlers may run in the any and user-handlers modes |
| Memory.ReleaseLog | Sources/Zemel/Selectors/SelectorPointerBox.swift:25-29 | releasing objects deinitializes and then deallocates each of them: two events per object |
| Memory.DeinitializeLog | Sources/Zemel/Selectors/AppendOnlySelectorArray.swift:30-33 | deinitializing objects without deallocating them: one event per object |
| Memory.DeinitializeLogDeallocatesNothing | Sources/Zemel/Selectors/SelectorKind.swift:42-67 | deinitializing alone never deallocates anything |
| Memory.ReleaseLogReleasesEachOnce | Sources/Zemel/Selectors/SelectorPointerBox.swift:25-29 | releasing distinct objects in turn, each deinitialized then deallocated as a boxed selector is here and as a popped user-state cell is at Sources/Zemel/Routine/NodeStateReferences.swift:94-102, releases each of them exactly once |
| Names.AsName | Sources/Zemel/UnsafeName.swift:25-27 | the owned name read from a borrowed one has a namespace exactly when the borrowed one has a namespace URI |
| Names.WithUnsafeName | Sources/Zemel/Name.swift:140-164 | borrowing a name and reading it back gives the same name |
| Names.HasLocalName | Sources/Zemel/UnsafeName.swift:37-39 | true exactly when the local names are equal |
| Names.HasNamespace | Sources/Zemel/UnsafeName.swift:41-51 | true exactly when the name has a namespace and it equals the given one; false without a namespace |
| Names.HasNamespaceAndLocalName | Sources/Zemel/UnsafeName.swift:53-55 | true exactly when both namespace and local name equal the given ones |
| Names.Equals | Sources/Zemel/UnsafeName.swift:57-75 | true exactly when the names are equal: both or neither have a namespace, namespaces equal when present, and local names equal |
| Names.NamespaceEquals | Sources/Zemel/Name.swift:66-76 | namespaces are equal exactly when their URIs are |
| Names.NamespaceEqualsURI | Sources/Zemel/Name.swift:62-64 | true exactly when the namespace's URI equals the string |
| Names.NameEquals | Sources/Zemel/Name.swift:124-126 | name equality through the borrowed form is equality of names |
| Names.NameHasNamespaceAndLocalName | Sources/Zemel/Name.swift:128-130 | true exactly when the name is in the namespace with the local name |
| Names.NameHasLocalName | Sources/Zemel/Name.swift:132-134 | true exactly when the local names are equal |
| Names.NameHasNamespace | Sources/Zemel/Name.swift:136-138 | true exactly when the name has the given namespace |
| Names.LocalNameMatchesOnlyUnqualified | Sources/Zemel/UnsafeName.swift:57-75 | a name made from a local name alone equals only names without a namespace that have that local name |
| Names.SubscriptNameHasNamespaceAndLocalName | Sources/Zemel/Name.swift:52-54 | the name made by subscripting a namespace has that namespace and local name, and equals itself |
| PrefixedNamespaces.Make | Sources/Zemel/UnsafePrefixedNamespaces.swift:31-36 | none exactly for a null pointer; otherwise the declarations and count given |
| PrefixedNamespaces.Tuple | Sources/Zemel/UnsafePrefixedNamespaces.swift:58-68 | the prefix and URI of a declaration are its two slots, each absent exactly when its slot is null |
| PrefixedNamespaces.NamespaceIterator.constructor | Sources/Zemel/UnsafePrefixedNamespaces.swift:38-39 | a new iterator has every declaration with a URI still to yield |
| PrefixedNamespaces.NamespaceIterator.Next | Sources/Zemel/UnsafePrefixedNamespaces.swift:41-55 | yields the next declaration with a URI, skipping those without one, or nothing once none remain |
| PrefixedNamespaces.FirstUnprefixed | Sources/Zemel/UnsafePrefixedNamespaces.swift:70-84 | the first declaration without a prefix from a starting point, every earlier one having a prefix |
| PrefixedNamespaces.FindFirstUnprefixedNamespaceFast | Sources/Zemel/UnsafePrefixedNamespaces.swift:70-84 | the first unprefixed declaration when it has a URI, and none when it has none or there is no unprefixed declaration |
| PrefixedNamespaces.EntriesBeforeUnprefixedArePrefixed | Sources/Zemel/UnsafePrefixedNamespaces.swift:70-80 | every declaration the iteration yields before the first unprefixed one has a prefix |
| PrefixedNamespaces.DefaultNamespaceIsFirstUnprefixedEntry | Sources/Zemel/UnsafePrefixedNamespaces.swift:38-84 | the default namespace found is a declaration the iteration yields, has no prefix, and no unprefixed declaration is yielded before it |
| PrefixedNamespaces.EntriesContainLater | Sources/Zemel/UnsafePrefixedNamespaces.swift:41-55 | what the iteration yields from a later index it also yields from an earlier one |
| Stacks.Stack.constructor | Sources/Zemel/Collections/Stack.swift:24-26 | a new stack is empty, over a fresh buffer |
| Stacks.Stack.IsEmpty | Sources/Zemel/Collections/Stack.swift:16 | true exactly when the stack holds no elements |
| Stacks.Stack.Last | Sources/Zemel/Collections/Stack.swift:18-22 | none for an empty stack, otherwise the top element |
| Stacks.Stack.SetLast | Sources/Zemel/Collections/Stack.swift:18-22 | writing through the top pointer replaces the top element and nothing else |
| Stacks.Stack.Push | Sources/Zemel/Collections/Stack.swift:43-51 | the element is appended on top, growing the buffer when full |
| Stacks.Stack.Pop | Sources/Zemel/Collections/Stack.swift:53-63 | the top element is removed and handed to the caller |
| Stacks.Stack.ForEach | Sources/Zemel/Collections/Stack.swift:33-41 | visits the elements bottom to top |
| GrowableBuffers.GrownCapacity | Sources/Zemel/Collections/GrowableBuffer.swift:26 | the new capacity is double the old, or 2 when it was 0; always larger than before |
| GrowableBuffers.GrowableBuffer.constructor | Sources/Zemel/Collections/GrowableBuffer.swift:18-21 | a fresh buffer of the initial capacity |
| GrowableBuffers.GrowableBuffer.GrowMoving | Sources/Zemel/Collections/GrowableBuffer.swift:25-47 | a fresh buffer of the grown capacity that starts with the first count elements of the old one |
| UserStateTypes.SameType | Sources/Zemel/UserStateType.swift:23-27 | the type check passes exactly when the two type tags are equal |
| StringPointers.Strlen | Sources/Zemel/UnsafeStringPointer.swift:32-34 | the index of the first zero byte |
| StringPointers.MemcmpMeansEqualPrefixes | Sources/Zemel/UnsafeStringPointer.swift:89-95 | comparing n bytes succeeds exactly when the first n bytes are equal |
| StringPointers.StrncmpWithoutZero | Sources/Zemel/UnsafeStringPointer.swift:103 | comparing n zero-free bytes against a C string succeeds exactly when the C string is at least n long and starts with them |
| StringPointers.StrcmpMeansEqualStrings | Sources/Zemel/UnsafeStringPointer.swift:153-155 | comparing two C strings succeeds exactly when they are equal |
| StringPointers.CStringLayout | Sources/Zemel/UnsafeStringPointer.swift:127-133 | a C string is zero-free, lies at the front of the buffer and is followed by its terminator |
| StringPointers.OptionalNullTerminated | Sources/Zemel/UnsafeStringPointer.swift:135-139 | none exactly for a null pointer, otherwise a wrapper around it |
| StringPointers.FromNullTerminated | Sources/Zemel/UnsafeStringPointer.swift:32-34 | a pointer with the C string's bytes, without the terminator |
| StringPointers.OptionalFromNullTerminated | Sources/Zemel/UnsafeStringPointer.swift:36-40 | none exactly for a null pointer, otherwise the C string's bytes |
| StringPointers.WithString | Sources/Zemel/UnsafeStringPointer.swift:42-50 | a pointer over exactly the string's bytes |
| StringPointers.EqualsString | Sources/Zemel/UnsafeStringPointer.swift:81-87 | true exactly when the bytes equal the string's |
| StringPointers.EqualsPointer | Sources/Zemel/UnsafeStringPointer.swift:89-95 | true exactly when both pointers hold the same bytes |
| StringPointers.EqualsNullTerminated | Sources/Zemel/UnsafeStringPointer.swift:97-115 | for zero-free bytes, true exactly when the C string equals them |
| StringPointers.Copy | Sources/Zemel/UnsafeStringPointer.swift:117-123 | a fresh buffer of the same length holding the same bytes |
| StringPointers.NullTerminatedEqualsString | Sources/Zemel/UnsafeStringPointer.swift:145-147 | for a zero-free string, true exactly when the C string equals it |
| StringPointers.NullTerminatedEqualsPointer | Sources/Zemel/UnsafeStringPointer.swift:149-151 | true exactly when the C string equals the pointer's zero-free bytes |
| StringPointers.NullTerminatedEquals | Sources/Zemel/UnsafeStringPointer.swift:153-155 | true exactly when the two C strings are equal |
| StringPointers.NullTerminatedCopy | Sources/Zemel/UnsafeStringPointer.swift:157-163 | a fresh C string equal to the original |
| StringPointers.CalculateLengthAndCopy | Sources/Zemel/UnsafeStringPointer.swift:165-172 | a fresh buffer of the C string's length holding its bytes, without a terminator |
| Names.HasNS | Sources/Zemel/UnsafeName.swift:19 | definition (no contract of its own): a borrowed name has a namespace exactly when its namespace URI pointer is non-null; `Names.AsName` is proved to keep it |
| Names.LocalName | Sources/Zemel/Name.swift:100-108 | definition (no contract of its own): a name made from a local name alone has no namespace; `Names.LocalNameMatchesOnlyUnqualified` states what it matches |
| PrefixedNamespaces.DefaultNamespace | Sources/Zemel/UnsafePrefixedNamespaces.swift:70-84 | reference (no contract of its own): the first declaration without a prefix, when it carries a URI, and none otherwise; the fast search is proved equal to it |
| GrowableBuffers.GrowableBuffer.Visit | Sources/Zemel/Collections/AppendOnlyArray.swift:29-37 | the walk both `forEach`s take from the buffer's base: exactly the first `count` elements, in order |
| RoutineBodies.Records | Sources/Zemel/Routine/Routine.swift:164-178 | the records a body's nodes receive, in depth-first order: one per node of the body |
| RoutineBodies.MembersRecords | Sources/Zemel/Routine/Routine.swift:191-194 | the records of a group's members one after the other: one per node of the group |
| RoutineBodies.MembersFrom | Sources/Zemel/Routine/Routine.swift:186-194 | a group from its i-th member on is that member followed by the rest, both in length and in records |
| RoutineBodies.WellNestedCons | Sources/Zemel/Routine/Routine.swift:107-109 | a node whose skip index lies just past its well-nested content makes a well-nested description |
| RoutineBodies.WellNestedConcat | Sources/Zemel/Routine/Routine.swift:191-194 | well-nested descriptions written one after the other are well nested |
| RoutineBodies.RecordsAreWellNested | Sources/Zemel/Routine/Routine.swift:157-178 | every node's skip index lies past the node and no further than the end of its enclosing content |
| RoutineBodies.MembersRecordsAreWellNested | Sources/Zemel/Routine/Routine.swift:184-194 | the same for a group's members |
| RoutineBodies.RoutineBodyDescription.Written | Sources/Zemel/Routine/Routine.swift:52-54 | the records stored between two indexes: one per index |
| RoutineBodies.RoutineBodyDescription.constructor | Sources/Zemel/Routine/Routine.swift:59-64 | fresh storage for the bounds' number of records, nothing written yet |
| RoutineBodies.RoutineBodyDescription.DidEncounterNode | Sources/Zemel/Routine/Routine.swift:98-120 | only inside the bounds; writes the node's skip index (one past the node and its content) and its deinitializer at the next index and advances it, leaving later indexes alone |
| RoutineBodies.RoutineBodyDescription.NextIndexAfterSkipping | Sources/Zemel/Routine/Routine.swift:131-133 | in a completely built description the index after skipping a node lies past the node and within the body |
| RoutineBodies.RoutineBodyDescription.DeinitializerForUserState | Sources/Zemel/Routine/Routine.swift:135-137 | the deinitializer recorded for the node at that index |
| RoutineBodies.Build | Sources/Zemel/Routine/Routine.swift:157-196 | building a body writes exactly its records after the ones already written and advances the next index by its length |
| RoutineBodies.BuildMembers | Sources/Zemel/Routine/Routine.swift:191-194 | building a group writes its members' records in order |
| RoutineBodies.BuildMember | Sources/Zemel/Routine/Routine.swift:193 | building one member keeps what has been written equal to the records of the members built so far |
| RoutineBodies.DescriptionFor | Sources/Zemel/Routine/Routine.swift:67-79 | the description built for a body holds exactly its records, is complete, and is well nested |
| RoutineContexts.InitialExecution | Sources/Zemel/Routine/RoutineContext.swift:240-243 | selectors are always allowed; handlers and parent-end selectors only on the first run |
| RoutineContexts.NewArena | Sources/Zemel/Routine/RoutineContext.swift:56-66 | a fresh array with one empty node state per body node, the node states owning disjoint storage |
| RoutineContexts.CurrentContextSlot.constructor | Sources/Zemel/Routine/RoutineContext.swift:15-18 | no context is current |
| RoutineContexts.CurrentContextSlot.Install | Sources/Zemel/Routine/RoutineContext.swift:179-189 | makes the context current and returns the one it replaces |
| RoutineContexts.CurrentContextSlot.Restore | Sources/Zemel/Routine/RoutineContext.swift:183 | puts the replaced context back |
| RoutineContexts.UnsafeRoutineContext.Node | Sources/Zemel/Routine/RoutineContext.swift:259 | the node state at a body index is valid |
| RoutineContexts.UnsafeRoutineContext.EmptyArenaInstalled | Sources/Zemel/Routine/RoutineContext.swift:56-66 | a context over a freshly made arena is valid and every node state is empty |
| RoutineContexts.UnsafeRoutineContext.constructor | Sources/Zemel/Routine/RoutineContext.swift:106-111 | node index 0, not run before, no run in progress, every node state empty |
| RoutineContexts.UnsafeRoutineContext.ResetNodeIndex | Sources/Zemel/Routine/RoutineContext.swift:153-155 | the node index becomes 0; nothing else changes |
| RoutineContexts.UnsafeRoutineContext.IncrementNodeIndex | Sources/Zemel/Routine/RoutineContext.swift:157-159 | the node index goes up by one; nothing else changes |
| RoutineContexts.UnsafeRoutineContext.SkipPastChildrenOfCurrentNode | Sources/Zemel/Routine/RoutineContext.swift:161-167 | the node index moves to the recorded skip index, which lies past the current node and within the body |
| RoutineContexts.UnsafeRoutineContext.Execution | Sources/Zemel/Routine/RoutineContext.swift:194-196 | true exactly during a run whose execution mode allows the category; false outside a run |
| RoutineContexts.UnsafeRoutineContext.LimitExecution | Sources/Zemel/Routine/RoutineContext.swift:198-212 | only during a run; sets the execution mode and returns the old one |
| RoutineContexts.UnsafeRoutineContext.RestoreExecution | Sources/Zemel/Routine/RoutineContext.swift:206 | puts the saved execution mode back when a run is in progress |
| RoutineContexts.UnsafeRoutineContext.BeginRun | Sources/Zemel/Routine/RoutineContext.swift:237-243 | starts a run on the event with the initial execution mode for whether the routine has run before, and no chain array |
| RoutineContexts.UnsafeRoutineContext.FinishRun | Sources/Zemel/Routine/RoutineContext.swift:230-235 | node index 0, marked as run before, no run in progress |
| RoutineContexts.UnsafeRoutineContext.PointerToCurrentSelector | Sources/Zemel/Routine/RoutineContext.swift:253-266 | the current node's boxed selector if it has one, otherwise a fresh selector of the kind boxed there; the node's slots and type and the context's fields unchanged |
| RoutineContexts.UnsafeRoutineContext.PushEmptyUserStateSlot | Sources/Zemel/Routine/RoutineContext.swift:268-272 | appends an empty slot at the given node only |
| RoutineContexts.UnsafeRoutineContext.UncheckedPointerToUserState | Sources/Zemel/Routine/RoutineContext.swift:274-279 | the node's top slot behaves as in the node state's unchecked access |
| RoutineContexts.UnsafeRoutineContext.CheckedPointerToUserState | Sources/Zemel/Routine/RoutineContext.swift:281-286 | the node's type check and top slot behave as in the node state's checked access |
| RoutineContexts.UnsafeRoutineContext.PopUserStateSlot | Sources/Zemel/Routine/RoutineContext.swift:288-292 | drops the node's top slot, releasing its cell when filled |
| RoutineContexts.UnsafeRoutineContext.ExpectedTextEvent | Sources/Zemel/Routine/RoutineContext.swift:309-319 | the text event when the current event is text, the expected-text error otherwise |
| RoutineContexts.UnsafeRoutineContext.ExpectedElementStartEvent | Sources/Zemel/Routine/RoutineContext.swift:321-331 | the start event when the current event starts an element, the expected-element error otherwise |
| RoutineContexts.UnsafeRoutineContext.ExpectedElementStartName | Sources/Zemel/Routine/RoutineContext.swift:333-343 | the element's name when the current event starts an element, the expected-element error otherwise |
| RoutineContexts.UnsafeRoutineContext.InstallEvent | Sources/Zemel/Routine/RoutineContext.swift:345-363 | only during a run; makes the event current and returns the old one |
| RoutineContexts.UnsafeRoutineContext.RestoreEvent | Sources/Zemel/Routine/RoutineContext.swift:358 | puts the saved event back when a run is in progress |
| RoutineContexts.UnsafeRoutineContext.SelectorChainArray | Sources/Zemel/Routine/RoutineContext.swift:99-101 | none outside a run |
| RoutineContexts.UnsafeRoutineContext.InstallSelectorChainArray | Sources/Zemel/Routine/RoutineContext.swift:368-380 | sets the chain array when a run is in progress and returns the old one |
| RoutineContexts.UnsafeRoutineContext.RestoreSelectorChainArray | Sources/Zemel/Routine/RoutineContext.swift:376 | puts the saved chain array back when a run is in progress |
| RoutineContexts.UnsafeRoutineContext.ReleaseArena | Sources/Zemel/Routine/RoutineContext.swift:68-84 | tears down every node state in index order with the corrected node teardown, so filled user-state cells and chain link selectors are deallocated too (corrected release; see both Findings rows) |
| RoutineContexts.UnsafeRoutineContext.Deinitialize | Sources/Zemel/Routine/RoutineContext.swift:113-118 | tears down every node state, as the arena release does (corrected release; see both Findings rows) |
| RoutineContexts.UnsafeRoutineContext.DestroyAndRecreateBacking | Sources/Zemel/Routine/RoutineContext.swift:125-141 | tears down every node state with the corrected release (see both Findings rows), then starts over with the same body: node index 0, not run before, no run, every node state empty, so the next run allows everything |
| RoutineContexts.UnsafeRoutineContext.InstallEmptyArena | Sources/Zemel/Routine/RoutineContext.swift:138-140 | a fresh empty arena for the same body; the index and run fields unchanged |
| RoutineContexts.ExecuteUserHandlerExpressionIfAllowed | Sources/Zemel/Routine/RoutineContext.swift:214-220 | runs the expression exactly when a context is current and allows user handlers, with execution limited to nothing while it runs, then restored |
| RoutineContexts.UnsafeRoutineContext.ReestablishAfterNodeChange | Sources/Zemel/Routine/RoutineContext.swift:259-260 | changing the state of one node by fresh objects, with nothing else in the arena touched, keeps the arena valid |
| RoutineContexts.Allows | Sources/Zemel/Routine/RoutineExpressionExecution.swift:12-22 | definition (no contract of its own): the `allows*` property that `execution(_:)` is asked about, one per category |
| RoutineContexts.UnsafeRoutineContext.Event | Sources/Zemel/Routine/RoutineContext.swift:297-307 | definition (no contract of its own): the run's event; asking outside a run is a precondition failure |
| RoutineBodies.RoutineBodyDescription.AssertCorrectlyBuilt | Sources/Zemel/Routine/Routine.swift:82-87 | traps unless the cursor has reached the counted length; once it passes, a description whose written records lay out a body is complete and its skip indices nest as subtrees (every index inside a node's span skips to no further than that node) |
| RoutineBodies.InclusiveLength | Sources/Zemel/Routine/Routine.swift:146-189 | definition (no contract of its own): the number of handler nodes in a body, each node counting itself and its content; `RoutineBodies.Records` is proved to write one record per counted node |
| RoutineBodies.MembersLength | Sources/Zemel/Routine/Routine.swift:187-189 | a group counts at least the nodes of each of its members |
| ZemelParsers.PiecesStep | Sources/Zemel/Zemel.swift:187-196 | each piece starts at the offset, has the remaining size capped at the largest chunk, is final only when the whole chunk is final and it reaches the end, and the loop continues only while the offset stays short of the count |
| ZemelParsers.PlanAdvance | Sources/Zemel/Zemel.swift:189-196 | one turn of the repeat loop: after a successful piece short of the end the loop goes on at the next offset; otherwise it stops with the answer of the last call |
| ZemelParsers.PiecesTile | Sources/Zemel/Zemel.swift:187-196 | the pieces cover the chunk end to end without gaps or overlap, each non-empty and no larger than the largest chunk, and only the last one is final |
| ZemelParsers.ChunkCallsCoverChunk | Sources/Zemel/Zemel.swift:181-197 | the calls planned for any chunk, short or long, cover it end to end, each within the size limit, only the last one final |
| ZemelParsers.StopParsing | Sources/Zemel/Zemel.swift:239-244 | records the error, stops the parser and asks for a reset; depth and root namespace unchanged |
| ZemelParsers.Forward | Sources/Zemel/Zemel.swift:246-262 | forwards exactly the event with the current depth and root namespace; a routine error stops parsing with that error, otherwise nothing changes |
| ZemelParsers.CapturedRoot | Sources/Zemel/Zemel.swift:297-305 | below the root element the stored root namespace is kept |
| ZemelParsers.CapturedRootCopiesDefaultNamespace | Sources/Zemel/Zemel.swift:297-305 | the root namespace changes only at the root element, to a copy of its first unprefixed declaration's URI |
| ZemelParsers.DefaultNamespaceIsReadable | Sources/Zemel/UnsafePrefixedNamespaces.swift:70-84 | the default namespace found has no prefix and a readable URI |
| ZemelParsers.Step | Sources/Zemel/Zemel.swift:264-341 | one callback keeps the driver's bookkeeping consistent and only asks for a reset once parsing stopped |
| ZemelParsers.StepBookkeeping | Sources/Zemel/Zemel.swift:264-341 | null text forwards nothing; text is forwarded at the current depth; a start without a local name stops with the unknown error (the release-build path; the debug-build trap is listed under Left out); a start is forwarded at the current depth and then the depth goes up; an end lowers the depth and is forwarded there; the root namespace changes only at depth 0; a routine error stops parsing |
| ZemelParsers.FoldConcat | Sources/Zemel/Zemel.swift:343-395 | handling two callback sequences one after the other is handling their concatenation |
| ZemelParsers.StepsKeepInvariants | Sources/Zemel/Zemel.swift:264-341 | any callback sequence keeps the bookkeeping consistent, the reset flag tied to stopping, and a recorded error recorded |
| ZemelParsers.StepsConcat | Sources/Zemel/Zemel.swift:343-395 | the callbacks of two sequences handled one after the other are those of their concatenation |
| ZemelParsers.NodeCallbacks | Sources/Zemel/Zemel.swift:343-395 | the callbacks a parser delivers for one node are all readable |
| ZemelParsers.ForestCallbacks | Sources/Zemel/Zemel.swift:343-395 | the callbacks for sibling nodes are all readable |
| ZemelParsers.AsForest | Sources/Zemel/Zemel.swift:264-341 | the node view of the siblings, one node per sibling |
| ZemelParsers.StepsOne | Sources/Zemel/Zemel.swift:264-341 | handling a one-callback sequence is one step |
| ZemelParsers.ForestCallbacksYieldForestEvents | Sources/Zemel/Zemel.swift:264-341 | below the root, the callbacks of sibling nodes forward exactly their events at the right depths and leave the driver as it was |
| ZemelParsers.NodeCallbacksYieldNodeEvents | Sources/Zemel/Zemel.swift:264-341 | below the root, the callbacks of one node forward exactly its events and leave the driver as it was |
| ZemelParsers.ElementCallbacksYieldNodeEvents | Sources/Zemel/Zemel.swift:280-341 | an element's callbacks forward exactly its events, with the root namespace captured at its start |
| ZemelParsers.DocumentCallbacksYieldNodeEvents | Sources/Zemel/Zemel.swift:280-341 | a document's callbacks forward exactly its events from depth 0, each carrying the root element's default namespace |
| ZemelParsers.FeedKeepsInvariants | Sources/Zemel/Zemel.swift:166-197 | feeding any number of pieces keeps the bookkeeping consistent and the reset flag tied to stopping |
| ZemelParsers.FeedStep | Sources/Zemel/Zemel.swift:166-197 | feeding one more piece handles its callbacks after those of the earlier pieces |
| ZemelParsers.Thrown | Sources/Zemel/Zemel.swift:199-217 | an error the routine raised wins; otherwise success throws nothing, and a failure throws the parsing error, or the unknown error when libxml reports none |
| ZemelParsers.Parser.constructor | Sources/Zemel/Zemel.swift:99-118 | depth 0, no root namespace, no error, no reset pending, nothing forwarded |
| ZemelParsers.Parser.Reset | Sources/Zemel/Zemel.swift:228-234 | back to the initial state; what was forwarded stays forwarded |
| ZemelParsers.Parser.StopParsingWithError | Sources/Zemel/Zemel.swift:239-244 | the state becomes the stopped state with the error |
| ZemelParsers.Parser.ContextualizeThenForward | Sources/Zemel/Zemel.swift:246-262 | the event is forwarded with the current context, and a routine error stops parsing |
| ZemelParsers.Parser.OnCharacters | Sources/Zemel/Zemel.swift:264-278 | one step on a text callback |
| ZemelParsers.Parser.CaptureRootNamespace | Sources/Zemel/Zemel.swift:297-305 | only the root namespace changes, to the captured one |
| ZemelParsers.Parser.OnElementStart | Sources/Zemel/Zemel.swift:280-327 | one step on an element-start callback (a start without a local name takes the release-build path: stop with the unknown error) |
| ZemelParsers.Parser.OnElementEnd | Sources/Zemel/Zemel.swift:329-341 | one step on an element-end callback |
| ZemelParsers.Parser.Handle | Sources/Zemel/Zemel.swift:343-395 | dispatches a callback to its handler: one step |
| ZemelParsers.Parser.DeliverCallbacks | Sources/Zemel/Zemel.swift:166-177 | handling the callbacks libxml delivers during one call, in order |
| ZemelParsers.Parser.FeedPiece | Sources/Zemel/Zemel.swift:166-177 | one call to libxml: its callbacks are handled and its answer returned |
| ZemelParsers.Parser.FeedChunk | Sources/Zemel/Zemel.swift:179-197 | a short chunk in one call, a long one piece by piece until a piece fails or the chunk is covered |
| ZemelParsers.Parser.FeedPieces | Sources/Zemel/Zemel.swift:187-196 | the repeat loop over the pieces of a long chunk, stopping at the first failure |
| ZemelParsers.Parser.FeedNextPiece | Sources/Zemel/Zemel.swift:189-196 | one turn of the repeat loop |
| ZemelParsers.Parser.Parse | Sources/Zemel/Zemel.swift:157-224 | resets first when a reset is pending; the calls made are a prefix of the plan, all but the last succeeded, and the whole plan ran when the last succeeded; the events forwarded and the error thrown are those of feeding the outcomes; a reset is pending afterwards exactly when something was thrown or the chunk was final |
| ZemelParsers.ChunkCalls | Sources/Zemel/Zemel.swift:181-197 | one call exactly when the chunk is no longer than `Int32.max`; the first call starts at offset 0 and the last carries the final flag |
| ZemelParsers.Consistent | Sources/Zemel/Zemel.swift:238-243 | definition (no contract of its own): a latched error is stored, libxml is stopped and a reset is pending, as `stopParsing` leaves them; `ZemelParsers.StepsKeepInvariants` proves every callback keeps it |
| ZemelParsers.Steps | Sources/Zemel/Zemel.swift:245-341 | reference (no contract of its own): the callbacks applied one after the other, with every forwarded event in order; `Parser.DeliverCallbacks` is proved equal to it |
| ZemelParsers.Feed | Sources/Zemel/Zemel.swift:166-197 | reference (no contract of its own): the callbacks of each `xmlParseChunk` call applied in call order; `Parser.Parse` is proved to forward exactly its events |

## Left out

- ZemelParsers.Step, ZemelParsers.Parser.OnElementStart: an element start without a local name first hits `assertionFailure` (Sources/Zemel/Zemel.swift:289-290), which traps in a debug build before the error is recorded; only the release-build path, stopping with `ZemelError.unknown`, is modelled.
- libxml2's push parser, its SAX handler table and its tokenisation are not modelled: the callbacks libxml2 makes for a chunk are an input (`ZemelParsers.ChunkOutcome`), and only what Zemel does with them is modelled.
- The failure to create a libxml2 parser context (Sources/Zemel/Zemel.swift:110-114) ends the program; the model assumes the context exists.
- The deinitializer of the parser's internal state (Sources/Zemel/Zemel.swift:17-57, deinit at lines 48-56) is not modelled: no release log is kept for the root default namespace or the error pointer.
- ZemelParsers.Parser.CaptureRootNamespace: the copy of the root default namespace replaces any earlier copy (Sources/Zemel/Zemel.swift:302-303); the model does not record that the earlier copy is never released.
- Overwriting the state of a chain link with a fresh default selector (Sources/Zemel/Selectors/SelectorChain.swift:212) is modelled as a value replacement; a descendant-container selector's pending depths are a sequence here, so the leak of its stack buffer is not captured.
- Deallocating the backing buffers of the growable buffer, append-only array and stack is not modelled; their contents are.
- The trampolines that route raw pointers into Swift closures (Sources/Zemel/Routine/RoutineTrampoline.swift) are not modelled; the thread-local slot for the current context is a single global cell (`RoutineContexts.CurrentContextSlot`).
- The result-builder syntax for routines (RoutineBodyBuilder.swift, Routine + General.swift), the `@State` property wrapper (Sources/Zemel/State.swift), the scoped `SelectorState`/`UnintializedSelectorState` handles (Sources/Zemel/SelectorState.swift:12, 83) and the reference-count token (ReferenceCount.swift) are not modelled: they are the public façade over the node state arena, reading and writing a user-state cell through a raw pointer, and the cells themselves and the operations that reach them (`UncheckedPointerToUserState`, `CheckedPointerToUserState`) are modelled in `NodeStates` and `RoutineContexts`.
- The overloads of the parse entry points and the per-method dispatch code (Select Method.swift, Handle Method.swift, End Method.swift, WithAttributes Method.swift, WithText Method.swift) are not modelled one by one; what they share is in `RoutineMethods` and `RoutineContexts`.
- User-state deinitializers are erased types in the source; here a deinitializer is a value naming its type, and running it is an entry in the release log.
- StringSource.swift and the branch of `UnsafeStringPointer.with(staticString:)` for a static string without a pointer representation (Sources/Zemel/UnsafeStringPointer.swift:58-69, which passes a length of 4 whatever the scalar's encoding) are not modelled.
- Decoding UTF-8 into Swift strings (`asString`, `debugDescription`) is not modelled; strings are their bytes.
- The private `State` enum in Sources/Zemel/Selectors/DescendantContainerSelector.swift:12 is never used and is not modelled.
- The `Selector` and `Deinitializable` protocols are not modelled as such; each selector kind is a case of `SelectorKinds.SelectorKind`.
- The root default namespace is captured but never read by matching; the doc comments at Sources/Zemel/Selectors/SelectorChain.swift:54 and 78 suggest otherwise, and the model follows the code.
- The concrete scenarios of the repository's tests (for example a `parent.child` chain matching once) are covered by the general lemmas rather than stated one by one.
- Concurrency is out of scope: one routine runs on one thread, as the source requires.

## Findings

| source | as written | input that shows it | evidently intended | confidence | as-written member | corrected member |
|---|---|---|---|---|---|---|
| Sources/Zemel/Routine/NodeStateReferences.swift:30-40 | tearing a node down only deinitializes the cell of each filled user-state slot (the deinitializer at Sources/Zemel/Routine/Routine.swift:172-174 never deallocates) | a node with one filled user-state slot, then torn down | each filled cell deinitialized and deallocated exactly once, as popping a slot does | not executed | NodeStates.AsWrittenFilledSlotsLeak | NodeStates.FilledSlotsReleasedOnce |
| Sources/Zemel/Selectors/AppendOnlySelectorArray.swift:30-33 | releasing a chain's selector array deinitializes each link selector through its kind but never deallocates it, although each was allocated at Sources/Zemel/Selectors/SelectorChain.swift:180 | a chain with one link that has run once, then released | each link selector deinitialized and deallocated exactly once | not executed | AppendOnlySelectorArrays.AsWrittenLinkSelectorsLeak | AppendOnlySelectorArrays.EveryLinkSelectorReleasedOnce |
