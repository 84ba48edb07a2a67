# region_profiler in Dafny

A model of the timing engine of the Python library `region_profiler`, together with the two pure consumers of its region tree. The parts are:

- **`Utils`** (`utils.dfy`): the online statistics accumulator `SeqStats` and the start/stop `Timer`.
  - The clock is an explicit, injected sequence of integer readings, `Clock(read, tick)`.
  - Every `clock()` call of the source consumes one reading.
- **`Node`** (`node.dfy`): `RegionNode` with its insertion-ordered children, and the operations `enter_region`, `exit_region`, `cancel_region` and `get_child`.
- **`Tree`** (`tree.dfy`): how paths of child names address nodes in the immutable tree (`At`, `Put`, `Covers`). The profiler's stack holds such paths where the source holds references.
- **`Profiler`** (`profiler.dfy`): `RegionProfiler` and its stack discipline, meaning construction, `region`, `func`, `finalize`, the enter/exit/cancel helpers and `current_node`.
  - Listener hooks are recorded, in call order, as `ListenerCall`s.
- **`IterProxy`** (`iter_proxy.dfy`): the `iter_proxy` generator as an explicit per-pull state machine.
  - The upstream iterator is a finite list of items that ends with `StopIteration` or with some other error.
- **`Reporters`** (`reporters.dfy`): `Slice` and the pre-order flattening `get_node_slice` / `get_profiler_slice`.
  - Siblings are ordered by a stable sort on descending total.
- **`ChromeTrace`** (`chrome_trace.dfy`): the `ChromeTraceListener`.
  - A two-field machine (`pending_begin_node`, `last_canceled_node`) chooses the B/E events.
  - Events are rendered from the region's timer in microseconds.
  - The trace file is modelled as a sequence of events plus a closed flag.
- **`Wrappers`** (`wrappers.dfy`): `Option` and `Result`.

Several files in the source are from different revisions of the library.

- `profiler.py` builds its root with `RootNode`, which `node.py` does not define. The root here is an ordinary `RegionNode` named `<main>`, which `__init__` never enters.
- `node.py` calls `total_elapsed()`, which `utils.py` does not define. For the fresh, once-stopped timer that `exit_region` uses, it is taken to be `end_ts - begin_ts`, i.e. `Elapsed`.

Two consequences for the listener are stated as lemmas rather than hidden:

- `exit_region` drops the timer before the profiler tells the listeners. An End event for the region just exited therefore cannot be rendered from the shown tree (`ChromeTrace.ExitedRegionCannotRenderEnd`).
- The root's Begin cannot be rendered either, because the root is never entered (`ChromeTrace.RootBeginCannotRender`). A fresh listener holds that Begin pending, so its hook fails at the first region entered below an untimed root (`ChromeTrace.FreshListenerFailsOnFirstRegion`).

`tests/test_region_naming.py:50-69` expects `func('foo')` to name its region `foo`, and `tests/test_region_naming.py:73-93` expects `func()` on `foo` to name it `foo`. `profiler.py:136` appends `"()"` in both cases, so the region is `foo()`. The model follows the code.

The event *choice* is modelled and proved separately from rendering.

## Model

| member | source | states |
|---|---|---|
| Utils.Add | region_profiler/utils.py:46-55 | count grows by one and total by x; x lies within [min, max]; the first sample is both min and max; otherwise min and max only widen, each to x or its old value |
| Utils.Avg | region_profiler/utils.py:57-60 | 0 for an empty sequence, otherwise the average times the count is the total |
| Utils.CollectFresh | region_profiler/utils.py:46-55 | after n >= 1 adds to fresh stats: count n, total the sum, min and max bound every sample and are each one of the samples, min <= max |
| Utils.CollectFrom | region_profiler/utils.py:46-55 | adds to existing stats: count and total grow by the length and the sum, every sample lies within [min, max], old bounds only widen |
| Utils.Start | region_profiler/utils.py:142-149 | running, begin_ts and last_event_time both the fresh reading, end_ts kept, one reading consumed |
| Utils.Stop | region_profiler/utils.py:151-160 | always records the reading as last_event_time; a running timer gets it as end_ts and stops; a stopped timer changes nothing else |
| Utils.MarkAuxEvent | region_profiler/utils.py:162-164 | only last_event_time changes, to the fresh reading |
| Utils.Elapsed | region_profiler/utils.py:174-183 | 0 while running, otherwise begin_ts plus the result is end_ts |
| Utils.CurrentElapsed | region_profiler/utils.py:185-196 | while running, now minus begin_ts and one reading consumed; otherwise `elapsed()` and no reading |
| Utils.StartStopElapsed | region_profiler/utils.py:142-183 | start then stop measures the difference of the two readings consumed, non-negative on a nondecreasing clock |
| Utils.CurrentElapsedGrows | region_profiler/utils.py:192-196 | on a nondecreasing clock a running timer's current elapsed time never decreases |
| Node.NewNode | region_profiler/node.py:8-13 | the name and factory as given, empty stats, no timer, no children |
| Node.EnterRegion | region_profiler/node.py:15-19 | a running timer started at the fresh reading; nothing else changes; one reading consumed |
| Node.ExitRegion | region_profiler/node.py:24-28 | with a live timer: one sample of stop minus start is added and the timer dropped; without one: node and clock unchanged |
| Node.CancelRegion | region_profiler/node.py:21-22 | the timer is dropped and the stats are kept |
| Node.IndexOf | region_profiler/node.py:30-32 | the first child with the name, or none when no child has it |
| Node.GetChild | region_profiler/node.py:30-36 | the existing child, with the parent unchanged; or a new child that is appended last with the given factory or the parent's; names stay distinct |
| Node.IndexOfAppend | region_profiler/node.py:33-36 | appending a child keeps every earlier lookup and makes the new name findable at the end |
| Node.GetChildIdempotent | region_profiler/node.py:30-36 | asking again for a name returns the same child and the same parent, whatever the factory |
| Node.GetChildDistinct | region_profiler/node.py:30-36 | children asked for under different names are different, and the first stays present |
| Node.EnterExitOneSample | region_profiler/node.py:15-28 | enter then exit adds exactly the sample stop minus start and leaves no timer, using two readings |
| Node.CancelThenExit | region_profiler/node.py:21-28 | cancel keeps the stats, and the exit after it is a no-op that reads no clock |
| Node.Repeat | region_profiler/node.py:15-28 | k enter/exit pairs use 2k readings and change only the timer (dropped) and the stats |
| Node.Legs | region_profiler/node.py:15-28 | the k leg durations, each the difference of a pair of consecutive readings |
| Node.RepeatedLegsAccumulate | region_profiler/node.py:15-28 | repeated enter/exit pairs accumulate the stats of the individual leg durations |
| Tree.PutFrame | region_profiler/profiler.py:211-226 | updating the node at one path leaves every node neither on the way to it nor below it unchanged |
| Tree.PutBelow | region_profiler/profiler.py:211-226 | below the updated path, the new tree is exactly the new node's subtree: what lies at `p + q` after the update is what lies at `q` in the new node |
| Tree.PutAncestors | region_profiler/profiler.py:211-226 | the nodes on the way to the updated node change only in their children |
| Profiler.Broadcast | region_profiler/profiler.py:214-215 | one call per listener, in registration order |
| Profiler.Init | region_profiler/profiler.py:49-56 | the stack is exactly [root], the current node is the root, the root is a fresh `<main>` node, and every listener is told the root was entered |
| Profiler.CurrentNode | region_profiler/profiler.py:228-236 | the node at the path on top of the stack |
| Profiler.EnterCurrent | region_profiler/profiler.py:211-215 | the tree is the old tree with only the top node replaced by its entered self (with `Tree.PutFrame`: every other node is unchanged); the stack is kept; every listener is told |
| Profiler.ExitCurrent | region_profiler/profiler.py:217-221 | the tree is the old tree with only the top node replaced by its exited self; the stack is kept; every listener is told |
| Profiler.CancelCurrent | region_profiler/profiler.py:223-226 | the tree is the old tree with only the top node replaced by its cancelled self; no clock reading; every listener is told |
| Profiler.Resolve | region_profiler/profiler.py:90-91 | the tree is the old tree with only the parent replaced by the parent get_child returns, so at most one child is added; nothing but the tree changes |
| Profiler.RegionOpen | region_profiler/profiler.py:88-94 | the tree is the resolved tree with only the named child replaced by its entered self; that child is pushed with a running timer and the stats get_child returned; one reading is used and the listeners are told |
| Profiler.RegionClose | region_profiler/profiler.py:95-96 | the tree is the old tree with only the current node replaced by its exited self; the listeners are told and the stack popped |
| Profiler.OpenOnFresh | region_profiler/profiler.py:49-56 | a region opened on a fresh profiler is the root's only child, entered, and on top of the stack |
| Profiler.OpenInsideOnly | region_profiler/profiler.py:88-94 | a region opened inside the root's only, childless child becomes that child's only child |
| Profiler.CloseInsideOnly | region_profiler/profiler.py:95-96 | closing it exits it in place and changes nothing else in the two-level tree |
| Profiler.CloseOnly | region_profiler/profiler.py:95-96 | closing the root's only child exits it in place |
| Profiler.NestedRegionsShape | tests/test_region_naming.py:10-24 | a reduced form of the test: only `region('a')` around `region('b')`, without the c/x and d/x regions, on a fresh profiler. The root then has the one child a, whose one child b has no children (the test's lines 10-12, 19-22 and 24), and no live timers remain |
| Profiler.Push | region_profiler/profiler.py:91 | the path becomes the top of the stack and nothing else changes; partner: `Profiler.RegionRestoresStack` |
| Profiler.Pop | region_profiler/profiler.py:96 | the top path is removed and nothing else changes; partner: `Profiler.RegionRestoresStack` |
| Profiler.RegionRestoresStack | region_profiler/profiler.py:91-96 | a body that leaves the stack as it found it sees `region` restore the caller's stack |
| Profiler.FinalizeCalls | region_profiler/profiler.py:207-209 | listener by listener in order: root exited, then finalize |
| Profiler.Finalize | region_profiler/profiler.py:202-209 | exits the root and makes exactly those listener calls, keeping the stack |
| Profiler.ApplyAsWritten | region_profiler/profiler.py:131-136 | applying the decorator rebinds its shared name to the given or function name plus "()" |
| Profiler.CallAsWritten | region_profiler/profiler.py:138-140 | a call of a wrapped function enters the region named by the decorator's name at call time |
| Profiler.DecoratorReuseRenames | region_profiler/profiler.py:131-140 | with one decorator from `func()` applied to f and then g, f called in between enters "f()", but afterwards f and g both enter "f()()", so f's region changes name |
| Profiler.Decorate | region_profiler/profiler.py:131-136 | the name is the given name, or else the function's, followed by "()" |
| Profiler.FirstUseAgrees | region_profiler/profiler.py:131-136 | on each application the decorator as written sets the name the corrected definition gives for that decorator's state, so the two agree until a decorator is reused |
| Profiler.FuncEnter | region_profiler/profiler.py:138-140 | calling a decorated function pushes and enters the region of that name under the root or the current node |
| IterProxy.Turn | region_profiler/profiler.py:188-198 | one loop turn drops the node's timer, changes nothing else but the stats, adds one sample and uses two readings when the turn is timed, and none and one reading otherwise; `IterProxy.TurnIsRegionOps` shows it is the node's own enter/exit or enter/cancel/exit |
| IterProxy.TurnIsRegionOps | region_profiler/profiler.py:188-198 | one pull's effect on the node is enter then exit, or enter, cancel, exit on StopIteration |
| IterProxy.Step | region_profiler/profiler.py:188-200 | one pull yields the next item and moves on, or finishes with StopIteration or the upstream error; the stack is unchanged and the listeners are told enter, [cancel,] exit |
| IterProxy.StepIsProfilerOps | region_profiler/profiler.py:189-198 | one pull equals push, enter, [cancel,] exit and pop on the profiler |
| IterProxy.Pull | region_profiler/profiler.py:182-200 | the first pull resolves the node under the parent current at that time; later pulls reuse it; an item comes out exactly while the generator stays suspended; a finished generator stops |
| IterProxy.Drain | region_profiler/profiler.py:188-200 | k pulls give k results and leave the stack as it was |
| IterProxy.YieldsAreItems | region_profiler/profiler.py:192-200 | the remaining pulls give the remaining items, then the end |
| IterProxy.DrainSuspendedYields | region_profiler/profiler.py:188-200 | from any position, the remaining pulls finish the generator and give exactly those results |
| IterProxy.Turns | region_profiler/profiler.py:188-198 | repeated pulls change only the node's timer (dropped) and stats |
| IterProxy.DrainIsRest | region_profiler/profiler.py:188-200 | pulling a paused proxy to the end leaves the profiler its remaining loop turns leave |
| IterProxy.RestTurns | region_profiler/profiler.py:188-198 | the remaining turns replace only the timed node, by what `Turns` makes of it, and use only its clock readings |
| IterProxy.DrainSuspendedTurns | region_profiler/profiler.py:188-198 | draining replaces only the timed node in the tree, by what the repeated per-pull turns make of it, and uses only their clock readings |
| IterProxy.TurnsSamples | region_profiler/profiler.py:188-198 | the node's stats accumulate one leg per item, plus one for an upstream error, and nothing for the final cancelled probe |
| IterProxy.FirstPullResolves | region_profiler/profiler.py:185-190 | draining a fresh proxy is draining, from position 0, the node resolved at the first pull |
| IterProxy.IterateYields | region_profiler/profiler.py:182-200 | a full iteration yields exactly the elements in order and then the end, and restores the stack |
| IterProxy.IterateFrame | region_profiler/profiler.py:182-200 | a full iteration changes the tree only by resolving the node and replacing it by what the turns make of it |
| IterProxy.IterateFreshShape | tests/test_region_profiler.py:10-19 | on a fresh profiler the root then has exactly one child, the iterated region, with no children and one sample per element (plus one when the source raises) |
| IterProxy.IterateSamples | region_profiler/profiler.py:188-198 | after a full iteration the node has no timer and n more samples (n+1 if upstream raised), each a leg of the clock |
| Reporters.NewSlice | region_profiler/reporters.py:47-56 | avg_time is total/count, or 0 with no hits; the other fields are as given |
| Reporters.Insert | region_profiler/reporters.py:98 | one step of the stable sort, lengthening the list by one; `Reporters.InsertSorted`, `Reporters.InsertPermutes` and `Reporters.InsertStable` carry its order, permutation and stability |
| Reporters.SortByTotal | region_profiler/reporters.py:98 | `sorted(children, key=-total)` keeps the length; `Reporters.SortDescending`, `Reporters.SortPermutes` and `Reporters.SortStable` state that it is descending, a permutation and stable |
| Reporters.InsertSorted | region_profiler/reporters.py:98 | inserting into a descending list keeps it descending, using only the new node and old members |
| Reporters.InsertPermutes | region_profiler/reporters.py:98 | inserting adds exactly the new node |
| Reporters.SortDescending | region_profiler/reporters.py:98 | siblings come out in non-increasing total |
| Reporters.SortPermutes | region_profiler/reporters.py:98 | the sorted siblings are a permutation of the children |
| Reporters.SortMembers | region_profiler/reporters.py:98 | every sorted sibling is a child of the node |
| Reporters.InsertStable | region_profiler/reporters.py:98 | among nodes of equal total, insertion keeps the new node in front of the old ones |
| Reporters.SortStable | region_profiler/reporters.py:98 | ties keep insertion order: for every total, the sorted siblings of that total appear in child order |
| Reporters.InsertSizeTotal | region_profiler/reporters.py:92-100 | inserting adds the node's subtree size and its total |
| Reporters.SortSizeTotal | region_profiler/reporters.py:92-100 | sorting keeps the subtree sizes and the sum of totals |
| Reporters.ProfilerSlice | region_profiler/reporters.py:105-118 | the root's slice comes first, with id 0, no parent and depth 0 |
| Reporters.ProfilerSliceShape | region_profiler/reporters.py:81-118 | one slice per node of the tree; each id is its index; every other slice is one level below an earlier parent slice; no inner time is negative; `Reporters.ProfilerSliceParent` and `Reporters.EverySliceLinked` pin each parent link to the slice of the parent node |
| Reporters.NodeSlice | region_profiler/reporters.py:81-102 | `get_node_slice` gives at least the node's own slice; `Reporters.NodeSliceHead`, `Reporters.NodeSliceIds`, `Reporters.NodeSliceLinks`, `Reporters.ChildBlock` and `Reporters.SubtreeBlock` state its head, numbering, links, and that every descendant's subtree is one block equal to that descendant's own `get_node_slice` |
| Reporters.KidsSlices | region_profiler/reporters.py:98-99 | the sorted children's slices, at least one per child; `Reporters.KidsSliceIds`, `Reporters.KidsSliceLinks` and `Reporters.KidsSliceBlock` state their numbering, links, and that each child's slices are one block equal to the child's own `get_node_slice` |
| Reporters.NodeSliceIds | region_profiler/reporters.py:92-99 | a node gives one slice per node of its subtree, numbered consecutively from its id |
| Reporters.KidsSliceIds | region_profiler/reporters.py:98-99 | the siblings' slices number one per node of their subtrees, consecutively |
| Reporters.NodeSliceLinks | region_profiler/reporters.py:92-99 | the head has the given parent and depth; every later slice points to an earlier slice of the same list one level up |
| Reporters.KidsSliceLinks | region_profiler/reporters.py:98-99 | each sibling's slices hang from the parent slice or from earlier slices of the list, one level down; which slice exactly is stated by `Reporters.KidsSliceBlock` and, over the whole tree, by `Reporters.ProfilerSliceParent` |
| Reporters.NodeSliceInnerNonNegative | region_profiler/reporters.py:96-102 | no slice has a negative inner time |
| Reporters.KidsSliceInnerNonNegative | region_profiler/reporters.py:96-102 | no sibling's slice has a negative inner time |
| Reporters.NodeSliceHead | region_profiler/reporters.py:92-102 | the head is the node's slice with inner time max(total - sum of the direct children's totals, 0) |
| Reporters.KidsSliceHeads | region_profiler/reporters.py:98-99 | the j-th sibling's first slice comes right after the slices of all siblings before it, and is that sibling's own slice |
| Reporters.ChildSlice | region_profiler/reporters.py:98-99 | the j-th sorted child's slice names the node's slice as parent, sits one level deeper and carries the child's name and total |
| Reporters.SiblingsDescend | region_profiler/reporters.py:98 | of two siblings, the one emitted earlier has a total no smaller than the later one |
| Reporters.KidsSliceElem | region_profiler/reporters.py:98-99 | the loop's output, read inside the j-th sibling's block, is that sibling's own `get_node_slice` output, slice by slice |
| Reporters.KidsSliceBlock | region_profiler/reporters.py:98-99 | the j-th sibling's slices are one contiguous block, after those of the siblings before it, equal to what the recursive call on that sibling appends, hung from the parent slice |
| Reporters.ChildElem | region_profiler/reporters.py:81-102 | inside a node's output, the j-th sorted child's block agrees slice by slice with the child's own output, numbered from its start and hung from the node's slice |
| Reporters.ChildBlock | region_profiler/reporters.py:81-102 | the j-th sorted child's slices are one block of the node's output, right after the node's slice and the earlier children's blocks, equal to the child's own `get_node_slice` one level deeper |
| Reporters.SliceIdPos | region_profiler/reporters.py:92-99 | a descendant's slice id is the first id plus its position, and its call depth grows by one per level |
| Reporters.SubtreeElem | region_profiler/reporters.py:81-102 | pre-order at every depth: inside the block of any descendant, the output agrees slice by slice with that descendant's own `get_node_slice`, with the descendant's id, its parent node's slice and its depth |
| Reporters.SubtreeBlock | region_profiler/reporters.py:81-102 | every descendant's subtree is one contiguous block at the descendant's position, equal to the descendant's own `get_node_slice` |
| Reporters.FindKid | region_profiler/reporters.py:98-99 | every position of the siblings' output lies inside exactly the block of some sibling |
| Reporters.Locate | region_profiler/reporters.py:81-102 | every slice but a node's own is the slice of the j-th sorted child of some descendant |
| Reporters.SubtreeHead | region_profiler/reporters.py:92-94 | the slice at a descendant's position carries that descendant's id, name and call depth |
| Reporters.SubtreeChildHead | region_profiler/reporters.py:92-99 | the slice of the j-th child of any descendant names the descendant's slice as parent, sits one level deeper and carries the child's name and total |
| Reporters.ProfilerSliceParent | region_profiler/reporters.py:81-118 | in `get_profiler_slice`, the slice of the j-th child of the node at any route has as parent the index of that node's slice, whose name is the node's, at call depth one less |
| Reporters.EverySliceLinked | region_profiler/reporters.py:81-118 | every non-root slice is the slice of some node's child, and its parent link is the index of that node's slice |
| Reporters.DeepSiblingsDescend | region_profiler/reporters.py:98 | at every depth, of two children of the same node, the one emitted earlier has a total no smaller than the later one |
| ChromeTrace.OnEntered | region_profiler/chrome_trace_listener.py:37-41 | entering writes an event exactly when a Begin was pending, and then exactly that Begin; the region becomes pending and the cancel mark is cleared |
| ChromeTrace.OnExited | region_profiler/chrome_trace_listener.py:43-56 | exit is silent exactly when the region is pending and was the last cancelled; otherwise it writes the pending Begin if any, then its End; nothing stays pending; with nothing pending the fields are kept |
| ChromeTrace.OnCanceled | region_profiler/chrome_trace_listener.py:58-59 | the region is remembered as the last cancelled and the pending Begin is kept |
| ChromeTrace.Next | region_profiler/chrome_trace_listener.py:32-59 | only entries and exits write, at most two marks; an entry leaves its region pending, an exit leaves nothing pending, a cancellation writes nothing, `finalize` changes nothing |
| ChromeTrace.ProbeLeavesNoTrace | region_profiler/chrome_trace_listener.py:37-59 | enter, cancel, exit with nothing between leaves no trace of the region and clears both fields |
| ChromeTrace.CloseSpan | region_profiler/chrome_trace_listener.py:43-59 | closing a region with nothing pending writes its End; with its own Begin pending, nothing if cancelled, Begin and End otherwise |
| ChromeTrace.SpanBrackets | region_profiler/chrome_trace_listener.py:37-59 | nested regions get matched Begin/End pairs in call order; a cancelled region with nothing inside gets none; a cancelled region with something inside keeps its End |
| ChromeTrace.SpansBrackets | region_profiler/chrome_trace_listener.py:37-59 | consecutive sibling regions produce their brackets one after the other |
| ChromeTrace.SessionBrackets | tests/test_chrome_trace.py:11-45 | a session writes the root's Begin, the nested brackets and the root's End, with nothing left pending |
| ChromeTrace.NodeCanceledTrace | tests/test_chrome_trace.py:48-86 | the iter_proxy loop of two elements gives b's and c's pairs twice, and the final probe of b leaves nothing |
| ChromeTrace.ParentNodeCanceledTrace | tests/test_chrome_trace.py:89-143 | a cancelled last probe that had a region inside it keeps its Begin and End |
| ChromeTrace.Render | region_profiler/chrome_trace_listener.py:61-65 | a Begin carries begin_ts and an End carries end_ts, in microseconds, with the region's name; it fails exactly when the region has no timer |
| ChromeTrace.RenderAll | region_profiler/chrome_trace_listener.py:37-59 | all marks render, in order, or the whole step fails |
| ChromeTrace.Write | region_profiler/chrome_trace_listener.py:67-69 | events are appended to the file; writing to the closed file fails |
| ChromeTrace.Handle | region_profiler/chrome_trace_listener.py:32-69 | a hook fails exactly when a chosen mark cannot be rendered (a missing timer) or events go to the closed file; otherwise it appends exactly the rendered events and updates the two fields; `finalize` closes the file and fails on a closed one |
| ChromeTrace.ExitedRegionCannotRenderEnd | region_profiler/profiler.py:217-221 | after `_exit_current_region` the exited region has no timer, so its End cannot be rendered from the tree |
| ChromeTrace.RootBeginCannotRender | region_profiler/profiler.py:49-56 | the root `__init__` builds has no timer, so its Begin cannot be rendered |
| ChromeTrace.FreshListenerFailsOnFirstRegion | region_profiler/chrome_trace_listener.py:37-41 | a fresh listener writes nothing for the root's entry and holds its Begin pending; the next entry must render that Begin and fails while the root is untimed |
| ChromeTrace.RegionSendsSpan | region_profiler/profiler.py:88-96 | with one listener, a region whose body sends the notices of some spans sends in all exactly the notices of the uncancelled span around them |
| ChromeTrace.TurnSendsSpan | region_profiler/profiler.py:188-198 | with one listener, a turn of `iter_proxy` sends the notices of an empty span, cancelled exactly when the turn is untimed |

## Left out

- Floating point: clock readings and durations are integers (an integer mock clock, as in the tests).
  - `Slice.avg_time` and `SeqStats.avg` are exact rationals.
  - `int(ts * 1000000)` is exact on integer readings.
- Utils.Avg: exact real division instead of floating-point division. For a non-empty sequence, the contract states `avg * count == total` rather than a rounded value.
- `SeqStats.__init__` with arbitrary arguments and `SeqStats.__eq__`: the model only builds empty stats, and datatype equality is the field-wise comparison `__eq__` performs.
- `Timer.is_running`, `begin_ts` and `end_ts` are the fields `running`, `beginTs` and `endTs`.
- `pretty_print_time`, `reporter_columns.py`, and `ConsoleReporter`, `CsvReporter` and `SilentReporter`: text formatting and stream output.
- `get_caller_info` and `get_name_by_callsite`: stack introspection. Region names are always given as strings.
- `default_clock` (perf_counter) and `MemoryClock` (psutil): replaced by the injected `Clock`.
- Timer factories are opaque tags (`TimerClass`). Every timer reads the same clock.
- Torch `record_function` and `cuda.synchronize`: a foreign library with no effect on the tree.
- `global_instance.py`, `region_profiler.py` (an obsolete duplicate), `listener.py` and `debug_listener.py`: process-wide plumbing and printing.
- `RootNode` live statistics and recursion depth: `RootNode` is not part of this model.
- The expectations of `test_timer.py` on `total_elapsed`: `total_elapsed` is not part of this model.
- Profiler.Broadcast: every listener hook is taken to return normally. In the source a hook that raises skips the remaining listeners. Raised from `_enter_current_region` inside `region`, it also leaves the region pushed and never exits or pops it (profiler.py:91-96). `ChromeTrace.Handle` models the failing hook, but the profiler does not consult it.
- ChromeTrace.Handle: a hook that fails is all-or-nothing here, the listener being left unchanged. In the source the hook has already changed state when it raises. `region_exited` clears `last_canceled_node` (chrome_trace_listener.py:52) before the Begin write at :54. On the Begin-then-End path the Begin is written and `pending_begin_node` cleared (:54-55) before the End write at :56 raises. The contract states exactly when a hook fails, but not the listener's state after the failure.
- Exceptions raised inside a `region` body: the source has no try/finally around the `yield`, so only normal completion is modelled.
- The upstream iterator's own effects: its `next()` runs during a pull, inside the proxy's entered region (profiler.py:192), so in the source any region it enters becomes a child of the proxy's node and any clock reading it takes falls inside the proxy's sample. `Turn` assumes that the upstream's `next()` reads no clock and touches no profiler state. The listener effect of a region inside the last probe is covered by `ChromeTrace.ParentNodeCanceledTrace`.
- `ChromeTraceListener.__init__`'s file handling:
  - the JSON header, pid and tid are not modelled;
  - the file is a sequence of events plus a closed flag, and `]` is the act of closing;
  - the stderr message is not modelled.
- The clock never runs out: readings are a total function of the tick.

## Findings

| source | as written | input that shows it | evidently intended | confidence | as-written member | corrected member |
|---|---|---|---|---|---|---|
| region_profiler/profiler.py:131-136 | `decorator` rebinds the closure variable `name` (`nonlocal name; name += "()"`), and `wrapped` reads that variable when it is called, so each application of the same decorator extends the name, and renames every function already wrapped | `d = rp.func(); d(f); d(g)`: calls of `f` and of `g` both enter `"f()()"` | every decorated function gets its own name plus `"()"` (`"g()"`) | medium, not executed | Profiler.DecoratorReuseRenames | Profiler.Decorate |
