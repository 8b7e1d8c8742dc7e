# Verified models of a collaborative-text core, a function runner and its write surface

Three parts of the repository, each modelled in the form its code has and proved
against an independent description of what it is for.

**The causal tree** (`experiment/collaborative-text/src`). A document is a tree
of runs. `RunForest` gives the tree as a plain value, with depth-first text by
structural recursion; `RunEffects` says what every operation does to that walk.
`CausalTree`, `PositionIndex`, `SpanLists` and `Reducer` hold the stored state,
two maps and a flat span array, with the code's own loops, and prove that each
action leaves exactly the maps and spans of the tree it stands for without ever
walking it. `Removals` says which characters a delete takes on any document.
`LocalDelete`, `LocalInsert`, `Bridge` and `Relay` are the editor bridge and the
relay; `Editor.Peer` puts them together with the clock, the view and the set of
seen actions. `SplitFreshness` and `SplitRuns` explain why derived split ids do
not collide and exactly when they would, `Convergence` and `Concurrency` why the
order of arrival does not matter,
`Hlc` and `ClockRuns` why clock ids order siblings the way the editor expects.

**The runner's framed protocol** (`packages/functions-protocol`,
`packages/runner`). `FrameCodec` is the length-prefixed codec over bytes,
`HostTransport` the table of pending host calls, `Session` the connection that
serves many invocations, both as a class and as a step relation over events.

**The invocation write surface** (`packages/functions-runtime`, with the merge
and clock of `packages/core` and the membership rules of `packages/write`).
`FieldMerge` is the recursive merge, `Overlay` reads through buffered writes,
`Rosters` and `Writes` are the derived indexes, the guards and the commit.

Where the index, the view or the guards do not do what one might hope, the model
keeps the code's behaviour, states the exact condition, and gives a failing input:

- inserts under deleted parents: `Reducer.ApplyInsertRun`, `Convergence.MisplacedSpan`;
- deletes that overshoot their run: `Relay.ApplyUpdate`, `Relay.OvershootDiverges`;
- deletes whose split ids are taken: `Relay.ApplyUpdate`, `Removals.DeleteRemoves`, `Relay.CollisionDiverges`;
- puts under parents without a place in the index: `Relay.ApplyUpdate`, `Relay.MisshownDiverges`;
- extends of split runs: `SplitFreshness.ExtendSpentExactly`, `SplitFreshness.ExtendedLeftHalfCollides`;
- commutativity of the merge: `FieldMerge.CommutativeExactly`, `FieldMerge.EqualStampsDiverge`;
- wrapped counters: `Overlay.StampsAscend`, `Overlay.WrappedCounter`;
- stale replies: `Session.StaleReply`, `Session.StaleReplyMisdelivers`;
- resumed `unrelate` calls: `Writes.OneActionExactly`, `Writes.SecondAction`;
- doubled membership rows: `Writes.MembershipGuardExact`, `Writes.FiledExact`, `Writes.DoubledIsRefused`;
- permission patches that name the group: `Rosters.IndexKeepsCapable`, `Rosters.RefilingSlips`;
- unindexed permission patches: `Rosters.GuardMisled`, `Rosters.KeepsAdminExactly`, `Rosters.TwoPatchesLockOut`.

The documentation at `experiment/collaborative-text/src/causal-tree.ts:127-128`
says clock ids never contain the split separator; `Hlc.SeparatorFreeIds` shows
that this depends on the peer id, and peers are required to have such an id.

Ghost parameters named `tree` or `d` are the tree a stored state stands for; they
are proof bookkeeping and the code computes nothing from them. Wall-clock
readings are parameters.

## Model

| member | source | states |
|---|---|---|
| Editor.Peer.LocalChange | experiment/collaborative-text/src/cm-bridge.ts:152-314 | From any state in step, one editor change (from, to, inserted text) run through the bridge leaves the tree text equal to the editor text `old[..from] + text + old[to..]`, keeps tree, maps, index and clock dominance, advances the clock by at most one tick, and sends deletes and behind them at most one update with the text, into a run of this peer or as a run of its own, whose delivery to the old tree gives the new one |
| Editor.Peer.HandleAction | experiment/collaborative-text/src/relay.ts:333-356 | Own and seen actions change nothing; any other is recorded, merged into the clock once, and applied update by update: the maps hold the delivered tree and the index lists its visible runs after every action whose parents are there; and if every update is deliverable, the view shows exactly its text and the peer stays in step |
| Editor.Cross | experiment/collaborative-text/src/relay.ts:333-356 | Two peers edit concurrently, any number of changes each, with puts that need no split, text appended to runs the other neither deletes nor extends, and whole-run deletes, then handle each other's action: they have the same tree; and if neither deleted a run the other typed behind, they are in step and show the same text |
| Concurrency.ListsCommute | experiment/collaborative-text/src/relay.ts:198-323 | Two lists of such updates, each made without the other, can be delivered in either order with the same tree |
| Concurrency.PlainCommute | experiment/collaborative-text/src/relay.ts:198-323 | So can two single updates: puts, patches and whole-run deletes in any combination |
| Concurrency.AllDeliverableAfter | experiment/collaborative-text/src/relay.ts:198-323 | What one peer could deliver stays deliverable after the other's list, unless that deleted a parent it puts under |
| Editor.Exchange | experiment/collaborative-text/src/App.tsx:218-226 | Two peers with one tree: after one edits and the other handles the resulting action, both have the same tree and show the same spliced text |
| Editor.Peer.constructor | experiment/collaborative-text/src/hlc.ts:35-39 | A fresh peer is in step: empty tree, empty view, clock at the wall |
| Bridge.Change | experiment/collaborative-text/src/cm-bridge.ts:152-314 | The whole bridge step on values: text replaced, state still exactly the tree's, the updates sent carry the old tree to the new |
| Bridge.ChangeHealthy | experiment/collaborative-text/src/cm-bridge.ts:152-314 | A change keeps every split spent and the clock above every run |
| LocalDelete.DeleteLocal | experiment/collaborative-text/src/cm-bridge.ts:159-191 | The delete loop, reading positions from the index as it was before the first delete, erases exactly [from, to), and the deletes it sends say so |
| LocalDelete.DeleteRuns | experiment/collaborative-text/src/cm-bridge.ts:168-190 | The loop itself: after it the whole range is gone and the state represents the tree that is left |
| LocalDelete.DeleteNext | experiment/collaborative-text/src/cm-bridge.ts:169-190 | One DELETE_RANGE: it removes at least one and at most the wanted characters, at the run the stale index names, and the rest of the old walk stays valid |
| LocalDelete.StepUnderway | experiment/collaborative-text/src/cm-bridge.ts:176-189 | Why the stale index is sound: deleting at its answer extends the erased range by `count` and leaves what is still to be deleted unmoved |
| LocalDelete.Advance | experiment/collaborative-text/src/cm-bridge.ts:170-178 | The run that the old index names for an old position still stands in the edited tree, `offset` characters before the edit point |
| LocalDelete.CutHere | experiment/collaborative-text/src/cm-bridge.ts:182-187 | Deleting from that run is in range, keeps the tree collision-free and removes exactly the editor's characters |
| LocalInsert.TryExtend | experiment/collaborative-text/src/cm-bridge.ts:214-236 | EXTEND_RUN happens if and only if a leaf run written by this peer ends right in front of the position; then the text is pasted there and one patch of that run carries it; otherwise nothing changes |
| LocalInsert.TypedAuthored | experiment/collaborative-text/src/cm-bridge.ts:220-234 | What typing sends names only runs of the peer, in the tree it leads to |
| LocalInsert.OneHolder | experiment/collaborative-text/src/cm-bridge.ts:215-217 | Only one run holds the character in front of a position |
| LocalInsert.RunBefore | experiment/collaborative-text/src/cm-bridge.ts:214-219 | The run and offset found for the character in front of a position |
| LocalInsert.ExtendPastes | experiment/collaborative-text/src/cm-bridge.ts:219-230 | Appending to a leaf run that ends at the position is a paste at that position |
| LocalInsert.ChooseParent | experiment/collaborative-text/src/cm-bridge.ts:264-296 | The parent, after the split the code makes, ends exactly at the position; the split changes no text and equals the split a receiver makes |
| LocalInsert.SplitParent | experiment/collaborative-text/src/cm-bridge.ts:279-293 | After the split the parent ends exactly at the position, with no text changed |
| LocalInsert.InsertNew | experiment/collaborative-text/src/cm-bridge.ts:264-313 | A run with the next clock id and this peer's name pastes the text at the position, split or not, and one put with its split offset carries it |
| LocalInsert.InsertPastes | experiment/collaborative-text/src/cm-bridge.ts:299-313 | An id above every run of the tree lands directly behind its parent's own characters, before all siblings |
| LocalInsert.SplitBehind | experiment/collaborative-text/src/cm-bridge.ts:279-293 | Splitting behind the preceding character always succeeds in a collision-free tree and leaves that character last in the parent |
| LocalInsert.InsertLocal | experiment/collaborative-text/src/cm-bridge.ts:196-314 | Extend if a run can grow, insert otherwise, nothing for an empty text: the text is pasted, the clock ticks at most once |
| Relay.ApplyUpdate | experiment/collaborative-text/src/relay.ts:198-323 | Any update whose parent is there leaves maps that hold the delivered tree; the index stays exact if a put finds its seat; and on every tree, editor text equals tree text if and only if the update is neither an overshooting delete, which leaves its run but not the document, nor a colliding delete, whose split ids are taken so that another range with another reading goes, nor a misshown put |
| Relay.ApplyPut | experiment/collaborative-text/src/relay.ts:200-251 | The sender's split, then the insert, then the text shown at the position computed before it, deleted and empty parents included: view and tree agree if and only if the run is not misshown |
| Relay.InsertShown | experiment/collaborative-text/src/relay.ts:228-249 | The same after the split |
| Relay.ShownWhere | experiment/collaborative-text/src/relay.ts:228-249 | Showing a run at the computed position gives the tree's new text if and only if its text is empty, or it is new and visible and has a placeable parent or commutes with the text in front of it |
| Relay.MisshownDiverges | experiment/collaborative-text/src/causal-tree.ts:248-251 | The failing input: a run put under a deleted one behind visible text; the tree reads xz, the view zx |
| Relay.OvershootDiverges | experiment/collaborative-text/src/relay.ts:262-277 | The failing input: a run split at 1, then a delete of two characters under its id; the tree keeps them, the view loses them |
| Relay.ApplyDelete | experiment/collaborative-text/src/relay.ts:253-279 | On every tree: view and tree agree after a delete exactly when it neither overshoots nor collides |
| Relay.DeleteMirrors | experiment/collaborative-text/src/relay.ts:261-277 | On every tree: cutting the view at the run's position gives the tree's text if and only if the delete neither overshoots nor collides |
| Relay.InRangeMirrors | experiment/collaborative-text/src/relay.ts:261-277 | On every tree: a delete inside its run is mirrored if and only if it does not collide |
| Relay.FreeCutsMirror | experiment/collaborative-text/src/causal-tree.ts:462-486 | A delete whose split ids are free does not collide |
| Relay.CollisionDiverges | experiment/collaborative-text/src/relay.ts:281-306 | The failing input: a run split at 1 and extended by a patch, then a delete of its last two characters; the tree reads acd, the view ab |
| Removals.DeleteRemoves | experiment/collaborative-text/src/causal-tree.ts:438-487 | On every document DELETE_RANGE takes one range of the text, in bounds, and nothing else: the one asked for when its split ids are free, and otherwise a stated other one |
| Relay.ApplyPatch | experiment/collaborative-text/src/relay.ts:281-321 | Appended text is shown behind the run's old characters; missing, deleted or empty runs change neither side |
| Relay.ApplyAll | experiment/collaborative-text/src/relay.ts:351-354 | All updates of an action in order: the maps hold the delivered tree, and if all are deliverable index and view are exact as well |
| Wire.DeliverHealthy | experiment/collaborative-text/src/relay.ts:198-323 | Delivering an update keeps the document well formed, every split spent and every run below the clock |
| Wire.CarriesHealthy | experiment/collaborative-text/src/relay.ts:351-354 | The same over any list of updates |
| Wire.DeliverConcat | experiment/collaborative-text/src/relay.ts:351-354 | Delivering two lists in a row is delivering their concatenation |
| Wire.DeliverableLater | experiment/collaborative-text/src/relay.ts:348-354 | What can be delivered under a clock can be delivered under every later one, with the same result |
| Wire.DeliverableIsPresent | experiment/collaborative-text/src/relay.ts:351-354 | Deliverable updates find their parents, and delivering them is delivering each |
| Reducer.Replay | experiment/collaborative-text/src/causal-tree.ts:134-155 | Every reachable state, deleted parents included: the maps hold one tree with each run reached once and siblings strictly descending, the depth-first visit gives its text, `totalLength` is that text's length, and the spans are the visible runs with their lengths, once each; in depth-first order as long as every insert finds its seat |
| Reducer.DocReducer | experiment/collaborative-text/src/causal-tree.ts:144-155 | Each action leaves exactly the maps of the tree it stands for and an index that lists its visible runs; an exact index stays exact if and only if the action is no insert without a seat |
| Reducer.CreateDocState | experiment/collaborative-text/src/causal-tree.ts:134-138 | The initial state represents the empty document |
| Reducer.ApplyInsertRun | experiment/collaborative-text/src/causal-tree.ts:271-327 | Maps and span list are right from any reachable state; an exact index stays exact if and only if the run is present, deleted, under ROOT or a visible parent, or nothing visible follows it; otherwise its span stands last |
| Reducer.InsertTree | experiment/collaborative-text/src/causal-tree.ts:277-299 | The maps after an insert hold the new tree and nothing else |
| Reducer.InsertSpan | experiment/collaborative-text/src/causal-tree.ts:301-326 | The index after an insert, from the state whose maps are done |
| Reducer.InsertIndex | experiment/collaborative-text/src/causal-tree.ts:310-315 | Splicing the new span at an index gives the new walk for one index only: the number of pieces in front of the run |
| Reducer.InsertionIndex | experiment/collaborative-text/src/causal-tree.ts:285-291 | The first sibling with a smaller id |
| Reducer.FindSpanInsertIndex | experiment/collaborative-text/src/causal-tree.ts:610-652 | Always an index of the array; on an exact array, skipping whole sibling subtrees finds the number of visible runs that the depth-first walk meets before the new one, and a deleted parent yields the array's end |
| Reducer.SkipSiblings | experiment/collaborative-text/src/causal-tree.ts:642-649 | The skip loop passes exactly the spans of the preceding siblings' subtrees |
| Reducer.SkipsSubtree | experiment/collaborative-text/src/causal-tree.ts:643-648 | Skipping by membership stops exactly where a subtree's contiguous spans end |
| Reducer.SpanBehind | experiment/collaborative-text/src/causal-tree.ts:623-640 | The span behind the parent's own, where the spans of its children begin; -1 exactly without a visible parent |
| Reducer.ApplySplit | experiment/collaborative-text/src/causal-tree.ts:330-435 | SPLIT refines the tree split: halves, reparented children and two spans for one, or no change when out of range or already split |
| Reducer.SplitTree | experiment/collaborative-text/src/causal-tree.ts:349-399 | The maps after a split hold the split tree and nothing else |
| Reducer.SplitSpan | experiment/collaborative-text/src/causal-tree.ts:401-434 | The spans after a split list its runs, and are its walk if they were the walk before; a deleted run leaves them alone |
| Reducer.HalveSpan | experiment/collaborative-text/src/causal-tree.ts:408-428 | Two spans in place of one, at the run's own |
| Reducer.Redirect | experiment/collaborative-text/src/causal-tree.ts:394-399 | Exactly the listed children point at the right half |
| Reducer.ApplyDeleteRange | experiment/collaborative-text/src/causal-tree.ts:438-487 | DELETE_RANGE refines the tree operation in all four cases and in the refused ones |
| Reducer.TombstoneRun | experiment/collaborative-text/src/causal-tree.ts:490-508 | Marks the run, drops its span and its length; the walk loses exactly that run |
| Reducer.ApplyExtendRun | experiment/collaborative-text/src/causal-tree.ts:523-544 | Appends to node and span alike; a missing or deleted run changes nothing |
| Reducer.SubtreeVisibleLength | experiment/collaborative-text/src/causal-tree.ts:585-594 | The summed spans of a subtree are the length of its depth-first text |
| Reducer.BasePosition | experiment/collaborative-text/src/causal-tree.ts:242-254 | The position behind the parent's own characters, or none if the parent has no characters in the index |
| Reducer.LengthBefore | experiment/collaborative-text/src/causal-tree.ts:256-261 | The summed subtrees of the preceding siblings are the length of the text the walk meets in them |
| Reducer.FindInsertPosition | experiment/collaborative-text/src/causal-tree.ts:226-264 | The position equals the length of the text in front of the new run, so it agrees with the sum of the spans before its span index; 0 without a placeable parent |
| CausalTree.Reconstruct | experiment/collaborative-text/src/causal-tree.ts:162-170 | The depth-first visit of the maps yields the text of the tree |
| CausalTree.Dfs | experiment/collaborative-text/src/causal-tree.ts:547-557 | Visiting a run appends the text of its whole subtree in order |
| CausalTree.CollectSubtreeIds | experiment/collaborative-text/src/causal-tree.ts:564-576 | The explicit stack collects exactly the ids of a subtree |
| CausalTree.MatchReplace | experiment/collaborative-text/src/causal-tree.ts:364-399 | Updating the maps at one run and its chain matches replacing it in the tree, everything else untouched |
| PositionIndex.LookupPosition | experiment/collaborative-text/src/causal-tree.ts:176-196 | Finds a span and an offset inside it whose preceding spans sum to the position, exactly for positions inside the document |
| PositionIndex.RunOffsetToPosition | experiment/collaborative-text/src/causal-tree.ts:202-216 | The sum of the spans before the run's span plus the offset, or nothing beyond its end or without a span |
| PositionIndex.LookupNamesCharacter | experiment/collaborative-text/src/causal-tree.ts:176-196 | The run and offset found for a position name the character standing there |
| PositionIndex.LookupRoundTrip | experiment/collaborative-text/src/causal-tree.ts:176-216 | Position to run and offset and back is the identity on the document, and fails outside |
| PositionIndex.OffsetRoundTrip | experiment/collaborative-text/src/causal-tree.ts:176-216 | Run and offset to position and back is the identity on visible runs, and fails otherwise |
| PositionIndex.SpanOfRun | experiment/collaborative-text/src/causal-tree.ts:202-216 | A visible run has its first span right behind the spans of everything the walk meets before it |
| PositionIndex.NoSpan | experiment/collaborative-text/src/causal-tree.ts:490-508 | ROOT, deleted and absent runs have no span |
| SpanLists.PositionIn | experiment/collaborative-text/src/causal-tree.ts:202-216 | Defined exactly for offsets inside visible runs, in whatever order the spans stand; on an exact index, the length of the text in front of the run plus the offset |
| SpanLists.IndexesLists | experiment/collaborative-text/src/causal-tree.ts:176-196 | Depth-first spans list the visible runs, once each |
| SpanLists.InsertLists | experiment/collaborative-text/src/causal-tree.ts:311-315 | Splicing a new run's span in anywhere lists the runs of the new tree |
| SpanLists.SplitLists | experiment/collaborative-text/src/causal-tree.ts:416-428 | Two spans for one list the runs of the split tree |
| SpanLists.TombstoneLists | experiment/collaborative-text/src/causal-tree.ts:497-498 | Filtering a run's spans out lists the runs left |
| SpanLists.ExtendLists | experiment/collaborative-text/src/causal-tree.ts:531-534 | Growing a run's span lists the extended run and no other change |
| RunForest.InsertDoc | experiment/collaborative-text/src/causal-tree.ts:271-299 | INSERT_RUN keeps each run reached once, parents named and siblings strictly descending, and adds one id |
| RunForest.SplitDoc | experiment/collaborative-text/src/causal-tree.ts:330-399 | SPLIT keeps the same and adds only the split id |
| RunForest.InPlaceDoc | experiment/collaborative-text/src/causal-tree.ts:490-544 | Deleting and extending keep the tree's shape and ids |
| RunEffects.SplitText | experiment/collaborative-text/src/causal-tree.ts:330-435 | A split never changes the visible text, deleted runs included |
| RunEffects.SplitAllText | experiment/collaborative-text/src/causal-tree.ts:330-435 | Any sequence of splits in any order leaves the visible text unchanged |
| RunEffects.SplitLocated | experiment/collaborative-text/src/causal-tree.ts:349-388 | In the walk, one piece becomes two neighbours and nothing else moves |
| RunEffects.TombstoneLocated | experiment/collaborative-text/src/causal-tree.ts:490-508 | The walk loses exactly one piece |
| RunEffects.ExtendLocated | experiment/collaborative-text/src/causal-tree.ts:523-544 | The text grows right behind the run's own characters |
| RunEffects.InsertVisible | experiment/collaborative-text/src/causal-tree.ts:271-327 | The walk gains one piece at the place given by sibling order |
| RunEffects.InsertText | experiment/collaborative-text/src/causal-tree.ts:271-327 | INSERT_RUN is a splice of the text at the place the walk reaches the run |
| RunEffects.InsertFirst | experiment/collaborative-text/src/causal-tree.ts:285-293 | An id above every run goes in front of all its siblings |
| RunEffects.DeleteLocated | experiment/collaborative-text/src/causal-tree.ts:457-486 | All four delete cases leave of the run exactly what is outside the range, and every other piece alone |
| RunEffects.DeleteText | experiment/collaborative-text/src/causal-tree.ts:438-487 | The document loses exactly the `count` characters of the range |
| SplitRuns.CleanRun | experiment/collaborative-text/src/causal-tree.ts:144-155 | Over every run of actions whose inserts have a present parent and a separator-free id and whose extends hit leaf runs, each split ever made of a run lies at or beyond the run's current end |
| SplitRuns.SplitAfterRun | experiment/collaborative-text/src/causal-tree.ts:342-347 | After every such run from the empty document, an in-range split id is never taken |
| SplitRuns.DeleteAfterRun | experiment/collaborative-text/src/causal-tree.ts:438-487 | After every such run, an in-range delete removes exactly its `count` characters, in all four cases, and touches no other run |
| SplitFreshness.SpentCutsFree | experiment/collaborative-text/src/causal-tree.ts:462-486 | Hence the split ids that any in-range delete needs are free |
| SplitFreshness.InsertSpent | experiment/collaborative-text/src/causal-tree.ts:271-327 | INSERT_RUN with a separator-free id keeps every split at or beyond its run's end |
| SplitFreshness.SplitSpent | experiment/collaborative-text/src/causal-tree.ts:330-435 | So does SPLIT |
| SplitFreshness.SplitFind | experiment/collaborative-text/src/causal-tree.ts:349-367 | After a split both halves have the run's author and deletion, the right one hangs under the left, and every other run's text is kept |
| SplitFreshness.DeleteSpent | experiment/collaborative-text/src/causal-tree.ts:438-487 | So does DELETE_RANGE |
| SplitFreshness.ExtendSpent | experiment/collaborative-text/src/causal-tree.ts:523-544 | So does EXTEND_RUN on a leaf |
| SplitFreshness.ExtendSpentExactly | experiment/collaborative-text/src/causal-tree.ts:523-544 | EXTEND_RUN on any run keeps it if and only if no split of the run lies inside the extended text |
| SplitFreshness.ExtendedLeftHalfCollides | experiment/collaborative-text/src/causal-tree.ts:345-347 | The failing input: split at 1, extend the left half, delete its last two characters; the split-off half disappears instead |
| SplitFreshness.DeleteExactWhenFree | experiment/collaborative-text/src/causal-tree.ts:438-487 | For every document: an in-range delete is exact if and only if the split ids it needs are free |
| Convergence.TreesConverge | experiment/collaborative-text/src/causal-tree.ts:271-327 | Any two parent-before-child orders, with repetitions, of the same inserts and whole-run deletes build the same tree, deleted parents included |
| Convergence.ReduceAllBuilds | experiment/collaborative-text/src/causal-tree.ts:144-155 | That tree is the one the reducer's actions leave, for every causal order |
| Convergence.ReplayBoth | experiment/collaborative-text/src/causal-tree.ts:144-170 | For every two causal orders the stored states have identical nodes, children, text, length and spans up to order, deleted parents included; and identical indexes if each insert found its seat where it arrived |
| Convergence.MisplacedSpan | experiment/collaborative-text/src/causal-tree.ts:630-638 | The failing input: a run inserted under a deleted one; the tree reads zy while the spans stand in the order of yz |
| Convergence.BuildIsBuiltFrom | experiment/collaborative-text/src/causal-tree.ts:271-299 | The tree holds exactly the inserted runs, deleted exactly where a delete was seen |
| Convergence.SameRunsSameTree | experiment/collaborative-text/src/causal-tree.ts:281-294 | A well-formed tree is determined by its runs alone: sibling order carries no history |
| Convergence.ChildrenExactly | experiment/collaborative-text/src/causal-tree.ts:281-294 | The children of a run are exactly the runs naming it as parent |
| Convergence.SameTreeSameMaps | experiment/collaborative-text/src/causal-tree.ts:134-138 | A tree determines both maps |
| Ids.SplitIdInjective | experiment/collaborative-text/src/causal-tree.ts:130-131 | Run and offset can be read back from a split id, nested or not |
| Ids.SplitIdHasSeparator | experiment/collaborative-text/src/causal-tree.ts:124-131 | A split id contains the separator and differs from its run and from ROOT |
| Hlc.StepsForward | experiment/collaborative-text/src/hlc.ts:47-86 | Both clock steps are strictly later than everything they saw, and their time is the maximum of what they saw |
| Hlc.IncrementLeast | experiment/collaborative-text/src/hlc.ts:47-53 | No clock that keeps the wall time and is later than the local one comes before the next tick: the counter starts over when time advances |
| Hlc.ReceiveLeast | experiment/collaborative-text/src/hlc.ts:66-86 | No clock that keeps the wall time and is later than both comes before the merged one |
| Hlc.CompareTotalOrder | experiment/collaborative-text/src/hlc.ts:94-100 | `compare` is a total order |
| Hlc.StringOrderIsCompare | experiment/collaborative-text/src/hlc.ts:102-113 | Within the padded widths, string order of serialized clocks is `compare`, and serializing is injective |
| Hlc.LaterSortsAbove | experiment/collaborative-text/src/hlc.ts:109-113 | A strictly later clock sorts above an earlier run's id and everything split from it |
| Hlc.SplitKeepsStamp | experiment/collaborative-text/src/causal-tree.ts:130-131 | Splitting keeps the stamp an id starts with, however often |
| Hlc.SeparatorFreeIds | experiment/collaborative-text/src/causal-tree.ts:124-128 | A clock id contains the split separator exactly when its peer id brings it in |
| ClockRuns.ClockSafety | experiment/collaborative-text/src/hlc.ts:47-86 | In every run of any number of peers: ids are globally unique, an insert that happens before another has the smaller id, each clock dominates all its peer knows, and no clock's time exceeds the largest wall reading |
| ClockRuns.HappensBeforeOrder | experiment/collaborative-text/src/hlc.ts:47-86 | In every run an insert that happens before another, through any chain of events at one peer and of messages sent and received, has the smaller serialized id |
| ClockRuns.ClockForward | experiment/collaborative-text/src/hlc.ts:47-86 | A peer's clock never goes back |
| ClockRuns.DrawnId | experiment/collaborative-text/src/cm-bridge.ts:299-301 | The id an insert draws is its peer's clock right after |
| ClockRuns.StepInv | experiment/collaborative-text/src/relay.ts:348-349 | Joining, inserting, sending and receiving each keep the clock invariant |
| ClockRuns.RunInv | experiment/collaborative-text/src/relay.ts:339-354 | Hence every run does |
| FrameCodec.ChunkIndependence | packages/runner/src/session.ts:175-190 | However a byte stream is cut into chunks, the receiver ends as if it had decoded it whole: same frames and remainder, or the same failure after only frames that precede it; the retained buffer stays under 4 + MAX_FRAME_BYTES |
| FrameCodec.FeedFaithful | packages/runner/src/session.ts:175-190 | One more chunk keeps the agreement with the scan of the whole stream |
| FrameCodec.ScanAppend | packages/functions-protocol/src/codec.ts:73-97 | Scanning a stream is scanning a prefix and then what it left, unless the prefix failed |
| FrameCodec.FirstFrameStable | packages/functions-protocol/src/codec.ts:77-90 | More bytes never change the first frame or the first failure |
| FrameCodec.RestIsBounded | packages/functions-protocol/src/codec.ts:83-96 | Without a failure less than one largest frame is left over |
| FrameCodec.DecodeFrames | packages/functions-protocol/src/codec.ts:73-97 | The loop over offsets computes the recursive scan, dropping the frames before a failure |
| FrameCodec.ReadFrame | packages/functions-protocol/src/codec.ts:77-93 | One turn of the loop reads the first frame of the remainder |
| FrameCodec.RoundTrip | packages/functions-protocol/src/codec.ts:52-60 | Encoded frames are decoded first and in order, whatever bytes follow them |
| FrameCodec.Uint32RoundTrip | packages/functions-protocol/src/codec.ts:56-81 | The big-endian length prefix reads back |
| FrameCodec.Uint32Bytes | packages/functions-protocol/src/codec.ts:56 | The prefix holds the four bytes of the length, most significant first |
| FrameCodec.HeaderDecides | packages/functions-protocol/src/codec.ts:77-93 | For every length: oversize and empty frames are refused from the prefix alone, incomplete ones awaited, complete ones accepted exactly when the payload parses |
| FrameCodec.FitsExactly | packages/functions-protocol/src/codec.ts:62-70 | A frame fits exactly if its whole encoding, prefix included, is within the bound |
| FrameCodec.FittingFrameIsAccepted | packages/functions-protocol/src/codec.ts:68-70 | A frame that passes the sender's bound is accepted by the receiver's |
| HostTransport.SocketHostTransport.constructor | packages/runner/src/transport.ts:81-92 | A fresh transport is open, with no calls and ids from 1 |
| HostTransport.SocketHostTransport.Call | packages/runner/src/transport.ts:110-125 | A call is refused when closed, refused with its id used up when too large, and pending under a never-used id otherwise |
| HostTransport.SocketHostTransport.HandleReply | packages/runner/src/transport.ts:128-135 | Settles the pending call with that id and nothing else; an unknown id changes nothing |
| HostTransport.SocketHostTransport.FailAll | packages/runner/src/transport.ts:152-157 | The loop rejects every pending call once, and no settled call again |
| HostTransport.SocketHostTransport.Close | packages/runner/src/transport.ts:137-146 | Closed, nothing pending, every unsettled call rejected with the reason |
| HostTransport.CallConserves | packages/runner/src/transport.ts:110-125 | Every call stays pending or settled, ids stay distinct, settled calls keep their settlement |
| HostTransport.CallFate | packages/runner/src/transport.ts:110-125 | A new call's promise waits exactly if the call went out, under the id it went out with, and is rejected otherwise |
| HostTransport.SettleFate | packages/runner/src/transport.ts:128-135 | The promise behind the id is settled as the reply says, every other pending one still waits |
| HostTransport.ShutFate | packages/runner/src/transport.ts:137-157 | Every call that waited is rejected with the reason |
| HostTransport.SettleConserves | packages/runner/src/transport.ts:128-135 | So after a reply |
| HostTransport.ShutConserves | packages/runner/src/transport.ts:137-157 | So after closing |
| HostTransport.NextIdIsFree | packages/runner/src/transport.ts:113 | The next id is not pending |
| Session.SessionSafety | packages/runner/src/session.ts:58-200 | Every interleaving, log and audit frames included: at most one `ready`, one fatal report and one result per started invocation, exactly one for a handler that ended before a halt, nothing sent or started after the halt, no frame of an invocation behind its clean-up or the start of a later one, calls conserved, nothing pending for a finished invocation |
| Session.RunTidy | packages/runner/src/session.ts:98-105 | Over every run no call, note or result of an invocation stands in the log behind its end |
| Session.StepTidy | packages/runner/src/session.ts:98-147 | Each event keeps that, because only the running invocation's transport is open |
| Session.StepSane | packages/runner/src/session.ts:58-200 | Each event keeps the flags, the log and all call tables consistent |
| Session.RunSane | packages/runner/src/session.ts:58-200 | Hence every run does |
| Session.EndedHandlerIsAnswered | packages/runner/src/session.ts:115-119 | A handler that ends while nothing has halted has its result |
| Session.OpensReady | packages/runner/src/session.ts:170-174 | While nothing has halted, opening leaves exactly one `ready` |
| Session.InvokesStarts | packages/runner/src/session.ts:107-147 | An invoke starts an invocation with an open transport, or is a protocol error if one is running |
| Session.BreaksAnswers | packages/runner/src/session.ts:83-96 | A protocol error answers the waiting invocation, closes its transport, halts, and is reported once |
| Session.ClosesQuietly | packages/runner/src/session.ts:191-195 | The host closing halts without a frame and closes the running transport |
| Session.RunningSends | packages/runner/src/transport.ts:98-125 | A running invocation's call goes out under a new id and waits; its notes go out |
| Session.CleanUpFrees | packages/runner/src/session.ts:98-105 | Clean-up leaves the transport closed with nothing pending and the session idle |
| Session.HandledAllIsRun | packages/runner/src/session.ts:189 | Handling the frames of a chunk is the run of one event per frame, in order |
| Session.HandledAllConcat | packages/runner/src/session.ts:189 | Handling a chunk is handling its first part and then its second, however it is divided |
| Session.StaleReply | packages/runner/src/session.ts:98-105 | A reply to an older invocation's call touches no other invocation if and only if the running one has no pending call with that id |
| Session.ReplyFindsItsCall | packages/runner/src/session.ts:153-156 | After every run: a reply to a call of the latest invoke settles the one promise whose call frame carried that id, and nothing else, unless it was settled before |
| Session.RunLinked | packages/runner/src/transport.ts:110-125 | After every run each call frame that went out carries the id of a call in its invocation's table |
| Session.StaleReplyMisdelivers | packages/runner/src/session.ts:98-105 | The failing run: the host answers the first invocation's call after starting the second, and settles the second's |
| Session.FailSane | packages/runner/src/session.ts:83-96 | A protocol error answers the waiting invocation at most once, then halts and reports once |
| Session.CallSane | packages/runner/src/transport.ts:110-125 | A host call, from a running or a stale handler, keeps the session consistent |
| Session.NoteSane | packages/runner/src/transport.ts:98-108 | So does a log line or an audit record |
| Session.Session.constructor | packages/runner/src/session.ts:58-68 | A fresh session is idle |
| Session.Session.Opened | packages/runner/src/session.ts:170-174 | `ready` is sent the first time and only if not halted |
| Session.Session.Closed | packages/runner/src/session.ts:191-195 | Halts and rejects the running invocation's calls, once |
| Session.Session.Fail | packages/runner/src/session.ts:83-96 | The full effect of a protocol error, and nothing when already halted |
| Session.Session.HandlerSettles | packages/runner/src/session.ts:115-119 | The outcome is logged as the one result unless the session halted |
| Session.Session.Finish | packages/runner/src/session.ts:98-105 | The invocation's transport is shut and the session idle again |
| Session.Session.HandlerCalls | packages/runner/src/transport.ts:110-125 | A frame goes out only for the running invocation of a session that is not halted |
| Session.Session.HandlerNotes | packages/runner/src/transport.ts:98-108 | Log and audit frames go out only while the transport is open and the session not halted |
| Session.Session.Begin | packages/runner/src/session.ts:113-146 | A new invocation with its own open transport |
| Session.Session.Invoked | packages/runner/src/session.ts:107-147 | Starts an invocation, or fails the session if one is running |
| Session.Session.Replied | packages/runner/src/session.ts:153-156 | Settles the current invocation's call with that id, and nothing else |
| Session.Session.Dispatch | packages/runner/src/session.ts:149-161 | Replies and invokes are handled, other frames ignored |
| Session.Session.DispatchAll | packages/runner/src/session.ts:189 | All frames of a chunk in order, also behind one that halted the session, one event each in the session's history |
| Session.Session.Receive | packages/runner/src/session.ts:175-190 | Ignored when halted; otherwise every complete frame is handled in order or the session fails; buffer and dispatched frames agree with the scan of the whole stream; and the session stays what its history of events leads to, so that `SessionSafety` holds of it |
| FieldMerge.MergeFieldValue | packages/core/src/types/action.ts:90-113 | The copy-on-write loop computes the recursive last-writer-wins merge |
| FieldMerge.GreaterWins | packages/core/src/types/action.ts:97-100 | Of two leaves the one greater in stamp and then update id wins, in both argument orders |
| FieldMerge.MergeAtPath | packages/core/src/types/action.ts:90-113 | At every path where both sides have a value and not two maps, the merge has the greater leaf, or the incoming value on a change of kind or equal rank |
| FieldMerge.MergeKeepsOthers | packages/core/src/types/action.ts:103-112 | A key that one of two merged maps lacks keeps the other's value, at any depth |
| FieldMerge.CommutativeExactly | packages/core/src/types/action.ts:90-113 | Merging two values commutes if and only if their shapes agree and equal stamps carry equal leaves |
| FieldMerge.EqualStampsDiverge | packages/core/src/types/action.ts:97-100 | The failing inputs: equal stamps on different values, where whoever is merged last wins |
| FieldMerge.Associative | packages/core/src/types/action.ts:90-113 | Merging pairwise agreeing values is associative |
| FieldMerge.Idempotent | packages/core/src/types/action.ts:90-113 | Merging a value with itself changes nothing |
| FieldMerge.Absorbs | packages/core/src/types/action.ts:90-113 | A patch that was merged once changes nothing any more |
| FieldMerge.PatchesConverge | packages/functions-runtime/src/overlay.ts:78-83 | Any order and any repetition of the same agreeing patches over a row gives the same row |
| Overlay.PatchFields | packages/functions-runtime/src/overlay.ts:78-83 | The key loop computes the merge of the two field maps |
| Overlay.ReadOverlay | packages/functions-runtime/src/overlay.ts:51-103 | The read is the fold of the id's writes over the host's row; a row deleted last is gone, and behind an earlier delete nothing of before shows; no writes pass the host through; without host row and put there is none; type and sequence number come from the buffer or the host; the update stamp is the latest of the host's and all writes', the creation stamp the host's or that of the first stamped write |
| Overlay.DeleteForgets | packages/functions-runtime/src/overlay.ts:69-73 | A delete forgets everything in front of it, the host's row included |
| Overlay.PatchesMakeRow | packages/functions-runtime/src/overlay.ts:78-83 | Patches on no row make one with exactly the fields they name |
| Overlay.PutReplaces | packages/functions-runtime/src/overlay.ts:75-76 | A put leaves exactly its own fields |
| Overlay.LatestHlc | packages/functions-runtime/src/overlay.ts:33-45 | The recursive visit finds the greatest stamp among all leaves, or none |
| Overlay.FoldWrites | packages/functions-runtime/src/overlay.ts:69-89 | The loop over the writes folds the row and its two stamps |
| Overlay.Restamp | packages/functions-runtime/src/overlay.ts:85-88 | One more write moves the update stamp to the maximum and the creation stamp only if there was none |
| Overlay.HostIndependent | packages/functions-runtime/src/overlay.ts:55-67 | Once a put is buffered the host's row does not matter |
| Overlay.ReadAdvances | packages/functions-runtime/src/overlay.ts:69-84 | One more update advances the read by one step |
| Overlay.ReadIsRestriction | packages/functions-runtime/src/writes.ts:253-262 | Reading through an id's own writes equals reading it after the whole buffer was stored |
| Overlay.LaterPatchWins | packages/functions-runtime/src/overlay.ts:78-83 | A later-stamped patch wins every leaf it writes and keeps every field it does not name |
| Overlay.ReadYourLastWrite | packages/functions-runtime/src/overlay.ts:69-89 | With ascending stamps a leaf of a created row reads back as the last value written to it |
| Overlay.TickForward | packages/core/src/hlc/clock.ts:12-23 | A tick moves the packed stamp forward if and only if time advanced or the counter did not wrap |
| Overlay.StampsAscend | packages/core/src/hlc/pack.ts:6-8 | Stamps ascend if and only if no logical millisecond hands out more than 65,536 |
| Overlay.WrappedCounter | packages/core/src/hlc/clock.ts:18-20 | The failing input: the 65,537th stamp of a millisecond falls below its predecessor |
| Overlay.ReadBackOnClock | packages/functions-runtime/src/writes.ts:522-526 | Read your last write on the invocation's own clock, under that bound |
| Writes.WriteSurface.constructor | packages/functions-runtime/src/writes.ts:130-157 | A fresh surface: nothing buffered, sent or indexed |
| Writes.WriteSurface.RecordOne | packages/functions-runtime/src/writes.ts:254-261 | Buffer, per-id list, type and both indexes grow by exactly this update |
| Writes.WriteSurface.RecordAll | packages/functions-runtime/src/writes.ts:253-262 | A batch, in order |
| Writes.WriteSurface.Record | packages/functions-runtime/src/writes.ts:253-262 | A batch is buffered, indexed and accounted for, and known to be late when the surface is sealed |
| Writes.WriteSurface.Create | packages/functions-runtime/src/writes.ts:350-384 | `create`: nothing is recorded when sealed or unplanned; the scope check comes after recording, so a `create` that fails it throws with its updates buffered |
| Writes.WriteSurface.Relate | packages/functions-runtime/src/writes.ts:414-433 | `relate`: refused exactly when sealed or unplanned |
| Writes.WriteSurface.Amend | packages/functions-runtime/src/writes.ts:386-404 | `update`: refused exactly when sealed, unplanned, or it would disarm a group's last capable member |
| Writes.WriteSurface.Remove | packages/functions-runtime/src/writes.ts:406-412 | `delete`: refused exactly when sealed, without a schema, or when it would remove an entity's last known membership or a group's last capable member |
| Writes.WriteSurface.ResumeUnrelate | packages/functions-runtime/src/writes.ts:442-483 | After its read, `unrelate` records without checking the seal again; the invariant says when that was late |
| Writes.WriteSurface.Commit | packages/functions-runtime/src/writes.ts:485-505 | Nothing for an empty buffer; a failed local check keeps the buffer; otherwise one Action with exactly the buffered updates in order, sealed and emptied |
| Writes.WriteSurface.Perform | packages/functions-runtime/src/writes.ts:507-518 | Any one verb has exactly the effect of its value-level step, guards and refusals included |
| Writes.WriteSurface.PerformAll | packages/functions-runtime/src/writes.ts:507-518 | Every run of verbs: no entity that had a group loses them all; and there is at most one Action, carrying everything recorded in call order with nothing behind it, if and only if no `unrelate` resumed with something to record on a sealed surface |
| Writes.OneActionExactly | packages/functions-runtime/src/writes.ts:485-505 | The same over every run of the value-level steps |
| Writes.RunAccounted | packages/functions-runtime/src/writes.ts:253-275 | Through every run each recorded update is sent or buffered, in call order, and the surface is late exactly when a late `unrelate` resumed |
| Writes.NoResumeIsNotLate | packages/functions-runtime/src/writes.ts:442-449 | A run with no resume behind a commit is never late |
| Writes.PerformedKeepsGroups | packages/functions-runtime/src/writes.ts:343-348 | No verb empties an entity's known groups |
| Writes.ReadBack | packages/functions-runtime/src/writes.ts:311-322 | Through the surface: a row created here and written with stamps of the invocation's clock reads back the last value written to a leaf, under the counter bound |
| Writes.WriteSurface.Read | packages/functions-runtime/src/writes.ts:311-322 | Reads the buffer restricted to the id over the host's row, with the type of the id's last write; a row this invocation deleted last reads as none |
| Writes.SecondAction | packages/functions-runtime/src/writes.ts:442-449 | The failing run: an `unrelate` resumed after the commit leads to a second Action |
| Writes.SecondActionRun | packages/functions-runtime/src/writes.ts:485-505 | That run at value level, and that it is late |
| Writes.IndexedKeepsGroups | packages/functions-runtime/src/preflight.ts:66-80 | No update the guard lets pass empties an entity's known groups |
| Writes.IndexedAllKeepsGroups | packages/functions-runtime/src/writes.ts:168-203 | Nor does any batch without membership deletes |
| Writes.FiledBacked | packages/functions-runtime/src/writes.ts:189-203 | Filing under fresh row ids and guarded deletes keep every known group backed by a live membership row |
| Writes.KeepsLiveMembership | packages/functions-runtime/src/writes.ts:343-348 | Through every accepted run of them, an entity with a group keeps a live membership row |
| Writes.SurfaceKeepsMembership | packages/functions-runtime/src/writes.ts:406-412 | The same of the surface: through every run of `create` and `delete` of membership rows, refused deletes included, an entity with a group keeps a live membership row |
| Writes.IndexedPairs | packages/functions-runtime/src/writes.ts:186-251 | An update adds to the index exactly the (entity, group) pair it files and takes away exactly the pair of a deleted membership row |
| Writes.IndexedRows | packages/functions-runtime/src/writes.ts:196-201 | A membership row is remembered under the entity and group it names, every other row as before |
| Writes.FiledExact | packages/functions-runtime/src/writes.ts:189-203 | The index stays exactly the pairs of live rows through every accepted filing but the deletion of a row whose pair another live row files |
| Writes.KeepsExact | packages/functions-runtime/src/writes.ts:343-348 | So through every run without such a deletion |
| Writes.ResultingExactly | packages/write/src/membership.ts:107-122 | A put group survives, a current one unless removed and not put again, and no other |
| Writes.LastMembershipExactly | packages/write/src/membership.ts:132-140 | The rule is violated exactly by known groups, nothing put, and every one of them removed |
| Writes.UnknownMembershipPasses | packages/functions-runtime/src/writes.ts:343-348 | A row the index does not know, or whose entity it knows no groups of, may be deleted |
| Writes.MembershipGuardExact | packages/write/src/membership.ts:132-140 | On an exact index the guard refuses to delete a live row if and only if every live row of its entity files the same group |
| Writes.OnlyRowRefused | packages/write/src/membership.ts:132-140 | Where no two live rows file one pair, if and only if it is the entity's only live row |
| Writes.DoubledIsRefused | packages/write/src/membership.ts:132-140 | The failing input: an entity filed twice under one group, where deleting one row is refused although the other stays |
| Rosters.IndexKeepsCapable | packages/functions-runtime/src/writes.ts:232-247 | A created group's roster keeps a capable member through every update the guards pass, if and only if the update does not refile its last capable row with an empty list |
| Rosters.RefilingSlips | packages/functions-runtime/src/writes.ts:325-329 | The failing case: a patch that names the group is never refused, and filing the last capable row there again with an empty list leaves the roster without one |
| Rosters.ViolatedExactly | packages/write/src/membership.ts:178-189 | A change violates a known roster exactly if no upserted row and no other row that stays has permissions |
| Rosters.ForeignRowsPass | packages/functions-runtime/src/writes.ts:325-341 | Rows of groups this invocation did not create, or that it never wrote, are not guarded |
| Rosters.GuardExact | packages/write/src/membership.ts:178-189 | While the rosters mirror the rows, the guard refuses exactly the changes that leave a group without a capable live member |
| Rosters.MirrorsStep | packages/functions-runtime/src/writes.ts:232-247 | Rosters stay a mirror of the rows if and only if the change is not a patch that alters permissions without naming the group |
| Rosters.VouchesStep | packages/functions-runtime/src/writes.ts:232-247 | Rosters keep listing the live rows and vouching for the permissions they show if and only if the change is not a patch that takes permissions the roster still shows |
| Rosters.StepKeepsAdmin | packages/functions-runtime/src/preflight.ts:93-104 | No accepted change takes a created group's last administrator while the rosters vouch for the rows |
| Rosters.KeepsAdmin | packages/functions-runtime/src/writes.ts:325-341 | Through every accepted run of enrolments, dismissals and permission patches in which no patch but the last empties a list, a group keeps an administrator |
| Rosters.GuardMisled | packages/functions-runtime/src/writes.ts:325-341 | While the rosters list the rows, the guard lets a change that takes a created group's last administrator pass if and only if the roster still shows permissions of another member who has none any more |
| Rosters.KeepsAdminExactly | packages/functions-runtime/src/writes.ts:325-341 | Over every run of enrolments, dismissals and permission patches, refused ones included, a created group has an administrator all along if and only if no change that takes its last one is tried while the roster is misled about another member |
| Rosters.TriedExactly | packages/write/src/membership.ts:178-189 | The same for one change tried |
| Rosters.ListedStep | packages/functions-runtime/src/writes.ts:232-247 | Every accepted change keeps the live rows listed under their groups |
| Rosters.AnotherSuffices | packages/functions-runtime/src/writes.ts:325-335 | A permission patch passes whenever the roster shows another capable member, and leaves the roster as it was |
| Rosters.TwoPatchesLockOut | packages/functions-runtime/src/writes.ts:238-239 | The failing run, on a group the invocation founded itself: two patches that empty a list are both accepted and together leave no administrator |
| Rosters.FoundedIsBoth | packages/functions-runtime/src/writes.ts:226-247 | The rosters after a group and two members were put, from none |

## Left out

- Convergence.TreesConverge: concurrent splits are not covered, nor is a run that both peers extend or that one extends and the other deletes, because the code does not make them converge; `SplitFreshness` gives the exact conditions one replica needs, `Concurrency` covers the extends that do commute.
- Reducer.DocReducer: INSERT_RUN under a parent that is not in the tree, which leaves an orphan in the maps, and EXTEND_RUN of ROOT are not covered.
- Relay.ApplyUpdate: a put whose parent is not in the tree is not covered. The editor raises an error on a change outside its text, nothing catches it, and the action's remaining updates are lost; the model leaves the view alone and goes on.
- Editor.Peer.LocalChange: one change per editor transaction, positions inside the document and clocks within their padded widths; the bridge's branches for a failed lookup cannot be reached from such a state.
- Editor.Peer.HandleAction: each peer has its own set of seen actions, where the source keeps one per module.
- Hlc.StringOrderIsCompare: strings are ordered by character, which is the source's code-unit order for ids without surrogate pairs.
- FrameCodec.RoundTrip: JSON and UTF-8 inside a frame are abstract functions that invert each other on the frames sent.
- Session.SessionSafety: promise settlement and clean-up are two separate events in that order; limits, budgets and the clipping of results to the output bound are not modelled, and an exception from the socket's own send is ignored as in the code.
- Session.Session.Replied: the transports of a session are values of the same table type that `HostTransport.SocketHostTransport` updates in place, not objects.
- Overlay.ReadOverlay: an hlc string is an optional natural number, absent where the source has an empty string.
- Writes.WriteSurface.Read: a read is one step here. The source decides from the writes it has whether to ask the host, awaits the answer, and then folds the id's live list, so a put recorded meanwhile can still read as null (overlay.ts:51-60).
- Writes.WriteSurface.Create: what the planner makes of a verb, whether it makes anything, and the outcome of the scope check are parameters; planner batches delete no membership row.
- Writes.WriteSurface.Commit: the Action id, its stamp and the host's answer are not modelled; validation is a parameter.
- Relationship edges and the resolution of `unrelate` targets: bookkeeping with no property across operations.
- React components, cursor presence, the inspector, BroadcastChannel and CodeMirror view plumbing.
- The production text document, client sync, storage, query engine, CLI, deployment and the Elixir server.
