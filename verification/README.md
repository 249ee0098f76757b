# Verified models of ark

Ark is an R kernel. Most of it is plumbing around the R C API, but some of its parts are
self-contained algorithms and protocols with strong promises: text edits and diffs, line-ending
normalisation, the list that protects R objects from the garbage collector, the sizing of R object
graphs, the bridge between channels and sockets, nested timeouts, the aggregation of span trees, the
hand-over of closures to the R thread, conversion between R and JSON, lexical paths, and quoting. This
project models those parts in Dafny, one module per component, and proves what they promise.

`dafny verify dfyconfig.toml` checks everything. `Prelude.dfy` holds the shared types and
`StableSort.dfy` the one notion of stable sorting that the text edits and the span trees both rely on.

How the models relate to the code:

- Code that changes things step by step is a class or a method with loops, proved against a function or
  a predicate on values. What the code promises is proved about that function or predicate.
- The two threads of the bridge, and the callers and the R thread of `r_task`, are state machines: a
  step is one channel, socket or slot operation, and theorems speak of every finite run.
- A panic or a failed assertion of the code is a `None`, `Err` or `false` result, never a precondition.
- Text is a sequence of bytes. Sizes, counts, durations and times are unbounded.

Where the code does less than its documentation or its users would expect, the model follows the code,
and a lemma says exactly when the expectation holds:

- The builder's check lets a non-empty deletion through twice. The documented invariant "disjoint" of a
  finished edit holds exactly when none was repeated (`FinishedSeparated`), and so does the meaning of
  the edit (`BuildAndApply`, `RepeatedDeletion`). Mapping an offset through such an edit can underflow;
  `ApplyToOffset` says exactly when, and `RepeatedUnderflow` shows one.
- `union` depends on the order of its operands (`UnionNotSymmetric`): whether the other order unites too
  is settled by `UnionOtherOrder`, and whether both then give the same edit by `UnionOrderIrrelevant`
  and, for finished edits, `FinishedOrderIrrelevant`.
- Normalised text can still contain `\r\n`: exactly when the input has `\r\r\n` (`LeftoverCrlf`).
- A named R list keeps the documented promise for repeated names exactly when no name comes again after
  an element that converts to an array (`NamedListPromise`).
- An interrupt owed to an outer timeout survives a nested one exactly when no frame in there comes to a
  check too late and R acts on no interrupt in there (`OuterInterruptSurvives`). It can be cleared by a
  nested timeout (`OuterInterruptLost`) or fire inside the nested frame and be swallowed by it
  (`OuterInterruptSwallowed`); then the outer body is never interrupted again (`NeverInterruptedAgain`).
- The backticked spelling of a name reads back in R as that name exactly when the name has no backslash
  (`WrappedReadsBackIff`).

## Model

| member | source | states |
|---|---|---|
| StableSort.SortIsStable | crates/aether_lsp_utils/src/text_edit.rs:213 | the sort used by the models is sorted and keeps equal keys in input order, as `sort_by_key` promises |
| StableSort.Unique | crates/ark/src/logger_hprof.rs:235 | that promise determines the result, so nothing depends on the sorting algorithm |
| Indels.CheckedSeparated | crates/aether_lsp_utils/src/text_edit.rs:217-225 | a list that passes the check is free of overlaps if and only if no non-empty deletion occurs twice |
| Indels.SpliceIsReference | crates/aether_lsp_utils/src/text_edit.rs:96-124 | on separated indels, the left-to-right splice is the offset-by-offset meaning of the list |
| Indels.ReferenceReorder | crates/aether_lsp_utils/src/text_edit.rs:212-215 | sorting by start and end, stably, does not change what a list of indels means |
| TextEdits.AcceptedIff | crates/aether_lsp_utils/src/text_edit.rs:207-225 | pushed indels are accepted if and only if any two are equal or disjoint, in whatever order they were pushed |
| TextEdits.CoalesceSeparates | crates/aether_lsp_utils/src/text_edit.rs:227-240 | coalescing removes every contact between neighbours, and neither adds nor removes an overlap |
| TextEdits.CoalesceKeepsMeaning | crates/aether_lsp_utils/src/text_edit.rs:227-240 | coalescing keeps the splice of every text |
| TextEdits.FinishedSeparated | crates/aether_lsp_utils/src/text_edit.rs:189-194 | a finished edit is strictly separated if and only if no non-empty deletion was pushed twice |
| TextEdits.FinishedMeaning | crates/aether_lsp_utils/src/text_edit.rs:189-194 | sort, check and coalesce together keep the meaning of the indels as they were pushed |
| TextEdits.BackwardsIsSplice | crates/aether_lsp_utils/src/text_edit.rs:119-121 | applying indels in place from the last to the first is the left-to-right splice |
| TextEdits.BuildAndApply | crates/aether_lsp_utils/src/text_edit.rs:96-240 | end to end: indels in range of which any two are equal or disjoint, pushed in any order, are accepted; finished and applied in place they do what the reference meaning says if and only if no non-empty deletion was pushed twice |
| EditLength.ReferenceLength | crates/aether_lsp_utils/src/text_edit.rs:106-123 | the reference meaning is never shorter than the sum of what each indel inserts and deletes says |
| EditLength.RepeatedLength | crates/aether_lsp_utils/src/text_edit.rs:217-225 | with a non-empty deletion repeated it is strictly longer, in any order of the indels |
| TextEdits.AppliedLength | crates/aether_lsp_utils/src/text_edit.rs:106-123 | applying any indels changes the length by exactly that sum, unless it panics |
| TextEdits.RepeatedDeletion | crates/aether_lsp_utils/src/text_edit.rs:217-225 | a deletion pushed twice is accepted, leaves overlapping indels, and deletes two stretches of the text |
| TextEdits.TextEdit.TotalLen | crates/aether_lsp_utils/src/text_edit.rs:106-113 | for every list the running length ends as the text's plus what the indels insert and delete, and underflows exactly if some first indels delete more than the text and their insertions |
| TextEdits.TextEdit.Apply | crates/aether_lsp_utils/src/text_edit.rs:96-124 | for every list it is the backward application or the underflow of the running length; the final assertion never fails; on separated indels in range there is no panic and the result is the splice |
| TextEdits.TextEdit.ApplyToOffset | crates/aether_lsp_utils/src/text_edit.rs:142-155 | for every list of indels the loop computes the offset map or panics; it panics exactly when the indels passed so far delete more than the offset and their insertions, and never on separated indels |
| TextEdits.RepeatedUnderflow | crates/aether_lsp_utils/src/text_edit.rs:150-151 | a deletion accepted twice makes the offset underflow |
| TextEdits.OffsetLost | crates/aether_lsp_utils/src/text_edit.rs:142-155 | an offset has no image if and only if it lies strictly inside a deletion |
| TextEdits.OffsetSplits | crates/aether_lsp_utils/src/text_edit.rs:142-155 | the image of an offset splits the edited text into the earlier indels on the text before and the later ones on the text after |
| TextEdits.OffsetMonotone | crates/aether_lsp_utils/src/text_edit.rs:142-155 | the offset map is monotone and never negative |
| TextEdits.TextEdit.Union | crates/aether_lsp_utils/src/text_edit.rs:126-140 | separated edits unite if and only if their indels are compatible; then the receiver is separated and holds exactly the indels of both, each non-empty deletion once and every insertion; otherwise it is unchanged |
| Unions.UnionSucceeds | crates/aether_lsp_utils/src/text_edit.rs:127-132 | union succeeds if and only if every indel of one edit is compatible with every indel of the other |
| Unions.UnionResult | crates/aether_lsp_utils/src/text_edit.rs:134-138 | the union is separated, holds exactly the indels of both, each non-empty deletion once and every insertion of either side |
| Unions.UnionMeaning | crates/aether_lsp_utils/src/text_edit.rs:126-140 | the splice of a union is what the receiver's indels and the argument's new ones mean together, the receiver's insertions first where both insert at one offset |
| TextEdits.UnionThenApply | crates/aether_lsp_utils/src/text_edit.rs:96-140 | compatible edits in range can be united and applied in place without a panic, with that meaning |
| Unions.UnionNotSymmetric | crates/aether_lsp_utils/src/text_edit.rs:129 | an insertion and a deletion with the same start unite in one order only |
| Unions.UnionOtherOrder | crates/aether_lsp_utils/src/text_edit.rs:127-132 | edits that unite in one order unite in the other if and only if the second deletes nothing from where the first inserts |
| Unions.UnionOrderIrrelevant | crates/aether_lsp_utils/src/text_edit.rs:126-140 | where both orders unite, the results are the same edit if and only if the insertions at each offset commute |
| Unions.FinishedOrderIrrelevant | crates/aether_lsp_utils/src/text_edit.rs:126-140 | for strictly separated edits that is: if and only if they insert the same text wherever both insert |
| TextEdits.TextEditBuilder.Push | crates/aether_lsp_utils/src/text_edit.rs:200-205 | early sorting does not change what will be finished; the assertion holds if and only if any two indels so far are equal or disjoint, or there are more than 16 |
| TextEdits.TextEditBuilder.Finish | crates/aether_lsp_utils/src/text_edit.rs:189-194 | finishing succeeds if and only if any two indels pushed are equal or disjoint, and depends only on what was pushed, in its order |
| Diff.InOrderAccepted | crates/aether_lsp_utils/src/diff.rs:17-44 | indels pushed in text order pass every assertion of the builder and are not reordered |
| Diff.Diff | crates/aether_lsp_utils/src/diff.rs:12-45 | for every chunk list no assertion fails, the edit is strictly separated and in range, and it turns the old text into the new one; it deletes exactly the bytes of deleted chunks and inserts as much as the inserted ones, so equal chunks stay untouched |
| LineEnding.Normalize | crates/aether_lsp_utils/src/line_ending.rs:59-90 | the moving-gap loop terminates and returns the byte-by-byte replacement of CRLF by LF |
| LineEnding.CopyWithin | crates/aether_lsp_utils/src/line_ending.rs:75-76 | moving a stretch without CRLF back over the gap keeps the state of the moving gap |
| LineEnding.ConvertIsReplaced | crates/harp/src/line_ending.rs:32-36 | replacing all matches with the library function is the same byte-by-byte replacement |
| LineEnding.ReplacedLength | crates/aether_lsp_utils/src/line_ending.rs:83-89 | the result is shorter by exactly the number of CRLF pairs |
| LineEnding.LeftoverCrlf | crates/aether_lsp_utils/src/line_ending.rs:1-3 | the result contains CRLF if and only if the input contains CR CR LF |
| LineEnding.Idempotent | crates/aether_lsp_utils/src/line_ending.rs:59-90 | normalising twice is normalising once if and only if the input has no CR CR LF |
| LineEnding.InferDetects | crates/aether_lsp_utils/src/line_ending.rs:36-43 | CRLF is inferred if and only if the bytes 13, 10 follow each other somewhere, and if and only if normalising changes the text |
| LineEnding.NormalizeRef | crates/aether_lsp_utils/src/line_ending.rs:96-101 | the borrowing variant returns the same text |
| ObjectSize.VSizeIsLeastClass | crates/harp/src/size.rs:425-452 | the vector size is the smallest allocation class of R that holds the data |
| ObjectSize.Walk.Tree | crates/harp/src/size.rs:73-120 | a visit terminates on cyclic graphs, enters only what is reachable, charges each new object at most once, and exactly once if no limit fires; a limit fires only on a failed stack check or a chain of 500 different objects |
| ObjectSize.Walk.Contents | crates/harp/src/size.rs:121-153 | alternative representations, attributes and data are visited in the order of the recursive calls |
| ObjectSize.Walk.Data | crates/harp/src/size.rs:155-411 | every type visits its own references and adds its own cost |
| ObjectSize.Walk.Pairlist | crates/harp/src/size.rs:202-231 | the cons loop charges every cell of the chain, visits every tag and value, and then the final CDR |
| ObjectSize.VisitedNode | crates/harp/src/size.rs:108-119 | entering an object once, then making its calls, is a visit of that object |
| ObjectSize.VisitedIsReachable | crates/harp/src/size.rs:43-65 | starting from nothing seen, the objects entered are those reachable by recursive calls, if no limit fires |
| ObjectSize.RSize | crates/harp/src/size.rs:43-65 | the size never exceeds the summed costs of the reachable objects, and equals it if every stack check succeeds, no chain of calls through different objects reaches the depth limit and reachable terminal environments have no attributes |
| ObjectSize.AnyGraph | crates/harp/src/size.rs:73-412 | these results hold for every graph whose references are null or objects and whose CDR chains are acyclic |
| ObjectSize.SmallNotDeep | crates/harp/src/size.rs:39-41 | a graph with fewer than 500 reachable objects never reaches the depth limit, whatever its shape |
| ObjectSize.SingletonsSkipped | crates/harp/src/size.rs:96-106 | the null pointer, nil, specials and builtins are never entered, and anything else is |
| ObjectSize.CostsSpelled | crates/harp/src/size.rs:113-411 | the cost of each type in bytes, with header, data, attributes and bindings |
| ObjectSize.AltrepSpelled | crates/harp/src/size.rs:121-145 | an alternative representation costs header and three pointers and passes on its class and data only |
| ObjectSize.EdgesSpelled | crates/harp/src/size.rs:147-411 | which references of each type are passed to recursive calls, in order |
| ObjectSize.ChainSpelled | crates/harp/src/size.rs:206-230 | the cons loop passes on the tag and value of every cell, in order, and the CDR that ends the chain |
| ObjectSize.ListCost | crates/harp/src/size.rs:202-231 | a list of n bare cells costs n nodes |
| PreciousList.Bypass | crates/harp/src/object.rs:91-101 | linking the neighbours of a cell with each other leaves a doubly linked list |
| PreciousList.InsertFirst | crates/harp/src/object.rs:58-73 | a cell linked in after the head leaves a doubly linked list, also when the tail had no CAR yet |
| PreciousList.PreciousList.Protect | crates/harp/src/object.rs:40-81 | protecting adds one tagged cell at the front, and nothing for nil |
| PreciousList.PreciousList.Unprotect | crates/harp/src/object.rs:83-106 | unprotecting removes just that cell and clears its tag |
| PreciousList.Handles.New | crates/harp/src/object.rs:316-321 | a new handle owns a cell exactly when its object is not nil |
| PreciousList.Handles.View | crates/harp/src/object.rs:323-335 | a view or null handle leaves the list alone |
| PreciousList.Handles.Clone | crates/harp/src/object.rs:544-554 | the clone of an owner owns a cell of its own, the clone of a view is a view |
| PreciousList.Handles.Drop | crates/harp/src/object.rs:556-562 | dropping a handle gives up exactly its own hold |
| PreciousList.BalancedDrop | crates/harp/src/object.rs:556-562 | when an owner goes, the tags are still exactly what the remaining handles hold |
| PreciousList.ReachableIffHeld | crates/harp/src/object.rs:35-38 | an object can be reached from the preserved head if and only if a live handle holds it |
| PreciousList.Run | crates/harp/src/object.rs:40-106 | after every run of new, view, clone and drop the list is well formed and its tags are the multiset of held objects |
| SpanTree.MergeSiblings | crates/ark/src/logger_hprof.rs:236-249 | the in-place loop with take, swap and truncate merges neighbours of equal name |
| SpanTree.NameOrder | crates/ark/src/logger_hprof.rs:235 | siblings are ordered by the first byte that differs, the shorter name first |
| SpanTree.Aggregate | crates/ark/src/logger_hprof.rs:230-253 | the recursion terminates by height and computes the aggregated tree |
| SpanTree.MergedHeight | crates/ark/src/logger_hprof.rs:239-242 | merging a level changes no height, although it lengthens child lists |
| SpanTree.AggregateCollapses | crates/ark/src/logger_hprof.rs:230-253 | every path of names carries one span afterwards if it carried any before, with the first fields and the total duration and count |
| SpanTree.AggregatedCanonical | crates/ark/src/logger_hprof.rs:230-253 | at every level siblings have distinct names in increasing order |
| SpanTree.CanonicalUnique | crates/ark/src/logger_hprof.rs:230-253 | the last two facts determine the result completely |
| Bridge.StepKeeps | crates/amalthea/src/kernel.rs:469-691 | every step of either thread or of the surroundings keeps the invariant |
| Bridge.NoLostWakeUp | crates/amalthea/src/kernel.rs:600-624 | in every run, a queued message that nobody is about to notify or draining has a pending notification |
| Bridge.InOrderDelivery | crates/amalthea/src/kernel.rs:499-509 | in every run, messages handed to sockets and then those in flight are exactly those sent, in order, and for each socket separately; a message is lost only if the receiver is gone, and the forwarder gives up only then or when all senders are gone |
| Bridge.OneNotificationEach | crates/amalthea/src/kernel.rs:612-624 | in every run and on both lanes, each message forwarded has one notification of its own |
| Bridge.InboundInOrder | crates/amalthea/src/kernel.rs:511-529 | in every run, inbound messages are forwarded to their channels in order, none lost or doubled |
| Bridge.PollAnnounces | crates/amalthea/src/kernel.rs:539-546 | a poll announces one turn for each ready socket |
| Bridge.TurnServes | crates/amalthea/src/kernel.rs:548-566 | left alone, a turn consumes one notification and hands over the whole queue, or else forwards one StdIn message, or else one subscription |
| Bridge.CommInOrder | crates/amalthea/src/kernel.rs:647-690 | the comm lane never reorders, loses messages only if its receiver is gone, and is given up only then or when all senders are gone |
| Bridge.AlwaysReadable | crates/amalthea/src/kernel.rs:537-570 | the branch that finds nothing readable is unreachable, and each announced turn can proceed |
| Bridge.BlockedMeansDelivered | crates/amalthea/src/kernel.rs:448-468 | when both threads block, unless a receiver is gone, everything sent has reached its socket, everything inbound its channel, every comm event was forwarded and announced; once all senders are gone, the forwarder has ended |
| Bridge.ThreadsMakeProgress | crates/amalthea/src/kernel.rs:537-570 | every step of the two threads lowers a weight, so they cannot run forever on their own |
| Bridge.Settles | crates/amalthea/src/kernel.rs:469-691 | from every reachable state the two threads alone reach a state where both block |
| Bridge.EverythingArrives | crates/amalthea/src/kernel.rs:448-468 | from every reachable state whose receiver lives, the two threads alone deliver everything sent and forward everything inbound |
| Bridge.AnythingGetsThrough | crates/amalthea/src/kernel.rs:448-468 | any list of messages can be sent and reaches its sockets in order |
| Bridge.OutsideIsFree | crates/amalthea/src/kernel.rs:600-624 | senders, frontends and the ends of channels may act at any time |
| Bridge.SelectsEither | crates/amalthea/src/kernel.rs:654-690 | the select loop may choose either lane that is ready, whatever the other holds, and ends only when both are disconnected |
| Timeout.RThread.CheckTimeout | crates/ark/src/timeout.rs:126-139 | a check trips exactly when a deadline is set and reached and it had not tripped before, asks for an interrupt only then, and changes nothing else |
| Timeout.RThread.WithTimeout | crates/ark/src/timeout.rs:94-121 | the saved and restored cells behave as the functional view of a frame, for every body; deadline, tripped flag and suspended flag are restored; a timeout is reported exactly if an own check came too late, and otherwise failure exactly if the body left by a longjump |
| Timeout.RThread.TryCatchWithTimeout | crates/ark/src/timeout.rs:147-153 | the suspended flag is restored after a return and after a longjump |
| Timeout.BodyKeeps | crates/ark/src/timeout.rs:98-100 | nothing a body does, nested frames included, changes its frame's deadline or resets its tripped flag |
| Timeout.FrameRestores | crates/ark/src/timeout.rs:113-114 | a frame restores deadline, tripped flag and suspended flag, whatever happened inside |
| Timeout.TimedOutIff | crates/ark/src/timeout.rs:104-120 | a frame reports a timeout if and only if a check of its own, outside nested frames, reached its deadline |
| Timeout.ReportIs | crates/ark/src/timeout.rs:102-120 | what a frame reports for every body: timeout, failed or completed |
| Timeout.QuietCompletes | crates/ark/src/timeout.rs:115-119 | a body in time, without a throw and in which no interrupt fires, completes and its result is handed back |
| Timeout.LateCheck | crates/ark/src/timeout.rs:126-139 | a check after some time times out exactly if that time has reached the timeout |
| Timeout.PendingHasFrame | crates/ark/src/timeout.rs:106-111 | at every point of every run, inside nested frames too, a pending timeout interrupt belongs to a tripped frame on the stack |
| Timeout.NothingPendingOutside | crates/ark/src/timeout.rs:106-111 | no timeout interrupt outlives the outermost call |
| Timeout.OuterInterruptSurvives | crates/ark/src/timeout.rs:94-121 | for every body, an interrupt owed to an outer frame survives a nested one if and only if no frame in it has a check at or after its deadline and R acts on no interrupt in it |
| Timeout.OuterInterruptSwallowed | crates/ark/src/timeout.rs:147-153 | R can fire the outer frame's interrupt inside a nested frame, which swallows it without any timeout |
| Timeout.OuterInterruptLost | crates/ark/src/timeout.rs:109-111 | a nested timeout can clear an interrupt owed to the outer frame |
| Timeout.NeverInterruptedAgain | crates/ark/src/timeout.rs:127-130 | once its interrupt is lost, a tripped frame's body is never interrupted again |
| Json.RoundTripIff | crates/harp/src/json.rs:353-366 | JSON to R to JSON is the identity on exactly the faithful values |
| Json.ComesBackIff | crates/harp/src/json.rs:293-366 | R to JSON to R is the identity on exactly the plain objects: scalars that are not missing, and non-empty lists of plain objects, without names or with proper ones |
| Json.ScalarKinds | crates/harp/src/json.rs:58-178 | in both directions every scalar keeps its kind |
| Json.ToRFails | crates/harp/src/json.rs:293-366 | conversion to R fails exactly on integers that R has no room for and on NUL in a string or key, at any depth |
| Json.ToJsonFails | crates/harp/src/json.rs:58-288 | conversion to JSON fails exactly on missing scalars, at any depth |
| Json.BigNearest | crates/harp/src/json.rs:303-306 | an integer beyond 64 signed bits becomes the nearest double |
| Json.Collect | crates/harp/src/json.rs:206-258 | the loop over a named list builds the collected fields |
| Json.CollectedFields | crates/harp/src/json.rs:232-255 | every key appears once and carries its values, grouped in order, for all lists |
| Json.PromiseKeptIff | crates/harp/src/json.rs:232-255 | a collected key carries the array of its values if and only if the first of them is not an array or comes alone |
| Json.NamedListPromise | crates/harp/src/json.rs:54-55 | a named list converts to the object of its names, each with its values as documented, if and only if no name comes again after an element that converts to an array |
| Json.VectorLikeList | crates/harp/src/json.rs:41-50 | a vector that is not a scalar converts like the list of its elements if and only if none is missing |
| Json.VectorElements | crates/harp/src/json.rs:67-178 | each element of a longer vector converts as it does alone, and a missing one to null instead of an error |
| RTask.RThreadKeeps | crates/ark/src/console/console_repl.rs:2021-2036 | every step of the R thread keeps callers, queue and result cells consistent |
| RTask.CallerKeeps | crates/ark/src/r_task.rs:297-385 | every step of a caller does too |
| RTask.CallerStaysBlocked | crates/ark/src/r_task.rs:322-328 | in every run, while a closure is queued or runs its caller is blocked |
| RTask.OwnOutcome | crates/ark/src/r_task.rs:341-385 | in every run no caller sees a wrong status or an empty cell, and each leaves with the outcome that its own closure means, nested calls included |
| RTask.AbortsExactly | crates/ark/src/r_task.rs:303-317 | in every run the process aborts exactly on a task that ended in a panic nobody recovers |
| TaskReturns.EveryCallReturns | crates/ark/src/r_task.rs:275-386 | from every reachable state, a call submitted or accepted can still end with its own closure's outcome if and only if no task it has to wait for, its own included, aborts the process |
| TaskReturns.SingleCallReturns | crates/ark/src/r_task.rs:275-386 | a call made when nothing else goes on is answered with its closure's outcome unless it aborts the process |
| TaskReturns.SingleOfferReturns | crates/ark/src/r_task.rs:116-160 | so is an idle task offered to an idle R thread, unless it panics |
| TaskReturns.BusyForever | crates/ark/src/r_task.rs:140-147 | a task whose offer timed out never runs |
| TaskReturns.OfferCanEnd | crates/ark/src/r_task.rs:140-147 | an offer not yet accepted can time out at any moment, and be accepted whenever the R thread is idle |
| RTask.FirstCome | crates/ark/src/r_task.rs:333-339 | in every run tasks are taken in the order they were submitted |
| RTask.SubmitQueues | crates/ark/src/r_task.rs:333-342 | a call from another thread always queues its task and blocks |
| RTask.EvalCall | crates/ark/src/r_task.rs:290-295 | a nested call passes on panics, passes on R errors unless caught, and otherwise hands its outcome to the code around it |
| RTask.FromAnyDepth | crates/ark/src/r_task.rs:290-295 | from any depth of nested calls a panic, or an R error nobody catches, comes out as it is |
| RTask.NestedInline | crates/ark/src/r_task.rs:290-295 | for every closure, to any depth of nested calls, the R thread evaluates it on the spot to the outcome of plain calls, be it a value, a panic or an R error from any depth, with queue, callers and result cells as before |
| RTask.NothingQueued | crates/ark/src/r_task.rs:290-295 | on the way, after any number of moves, only the R thread's own stack has changed |
| RTask.GuardNeeded | crates/ark/src/r_task.rs:290-295 | in every run without the thread test, once a running closure makes a nested call the R thread waits for itself: no continuation starts the nested task or lets the outer caller go |
| RTask.NoDeadlock | crates/ark/src/r_task.rs:275-386 | with the thread test, as long as some caller is blocked, a step is possible |
| FilePath.UppercaseDiskPrefix | crates/aether_path/src/file_path.rs:264-282 | exactly the lower-case letter right before the first colon changes, to its upper case |
| FilePath.UppercaseIdempotent | crates/aether_path/src/file_path.rs:264-282 | upper-casing twice is upper-casing once |
| FilePath.Normalise | crates/aether_path/src/file_path.rs:235-258 | the loop resolves the components, a later prefix is unreachable, and nothing takes the prefix back |
| FilePath.FromPath | crates/aether_path/src/file_path.rs:182-187 | exactly the paths that start with a root, or with a prefix and a root, are accepted, and normalised |
| FilePath.NormalisedForm | crates/aether_path/src/file_path.rs:143-152 | the result is absolute, consists of names below the same root, and so never climbs above it |
| FilePath.Idempotent | crates/aether_path/src/file_path.rs:235-258 | normalising twice is normalising once |
| FilePath.Composes | crates/aether_path/src/file_path.rs:235-258 | a directory may be normalised before a relative path is joined to it |
| FilePath.NormalisedSurvivors | crates/aether_path/src/file_path.rs:235-258 | the result is the root and exactly the names after which no stretch has more parent steps than names, in order |
| FilePath.ParsePrinted | crates/aether_path/src/file_path.rs:235-258 | path text for any components below a root is read back as them, parent steps included, without single dots |
| FilePath.TextIdempotent | crates/aether_path/src/file_path.rs:143-152 | printed and parsed again, a normalised Unix path is itself |
| Quoting.ReparseIdentifier | crates/oak_core/src/identifier.rs:23-89 | re-parsing the identifier of an accepted name gives the same name; the identifier is never a bare reserved word, and is bare exactly when the name is valid and not reserved |
| Quoting.ParseAccepts | crates/oak_core/src/identifier.rs:19-43 | exactly the non-empty names without backticks are accepted, wrapped, or bare if not reserved |
| Quoting.IdentifierGrowth | crates/oak_core/src/identifier.rs:91-117 | valid identifiers, built up one character at a time |
| Quoting.ReservedOnlyWrapped | crates/oak_core/src/identifier.rs:119-154 | every reserved word of R, and two dots with digits, is accepted between backticks only |
| Quoting.OnlyThoseReserved | crates/oak_core/src/identifier.rs:119-154 | nothing else is accepted between backticks but refused bare |
| Quoting.OneIdentifier | crates/oak_core/src/identifier.rs:46-48 | spellings have the same identifier if and only if they mean the same name |
| Quoting.OnePass | crates/oak_core/src/identifier.rs:53-59 | the two successive replaces are a one-pass escape |
| Quoting.QuotedReadsBack | crates/harp/src/syntax.rs:95-97 | quoted names and symbols read back as the name, with the literal ending at its last character |
| Quoting.StrQuote | crates/harp/src/syntax.rs:100-115 | the loop writes the one-pass escape between double quotes |
| Quoting.StrQuoteReadsBack | crates/harp/src/syntax.rs:99-115 | a quoted string reads back as itself, with the literal ending at its last character |
| Quoting.OneLine | crates/harp/src/syntax.rs:104-111 | the literal holds no raw line feed, carriage return or tab |
| Quoting.EscapesSpelled | crates/harp/src/syntax.rs:104-111 | the escapes themselves |
| Quoting.WrappedReadsBackIff | crates/oak_core/src/identifier.rs:78-83 | a backticked identifier reads back as its name if and only if the name has no backslash |
| Quoting.SymQuoteInvalidInjective | crates/harp/src/syntax.rs:87-93 | different names are never written the same |
| Quoting.QuotedIfInvalid | crates/harp/src/syntax.rs:87-93 | exactly the valid symbols are written as they are; anything else reads back from its quotes |

## Left out

- ZeroMQ, crossbeam, tokio and actix themselves: channels are sequences, notifications a counter, and polls and reads succeed.
- The R C API beyond cons cells and an abstract object graph, and code evaluated by R.
- The shell thread at the far end of the comm lane: it may consume notifications and messages in any way, so no wake-up claim is made for that lane.
- The diff algorithm: any chunk list is accepted, and old and new text are read off it.
- UTF-8 boundaries and 32-bit overflow in text edits; `text.reserve`, which only affects capacity; `invalidates_offset`.
- ObjectSize.VSizeIsLeastClass: computes with real numbers, so it does not model the rounding of 64-bit floats for vectors of more than 2^53 elements.
- SpanTree.Aggregate: works on tree values; children are owned by their parent, so update in place has no other observer.
- ObjectSize.RSize: does not say by how much a depth or stack cut-off, or an attribute on a terminal environment, makes the size too small.
- User interrupts from outside and Rust panics unwinding through `with_timeout`, which that code does not handle.
- 32-bit overflow of the call count and overflow of durations in `aggregate`; printing and filtering of span trees.
- Json.RoundTripIff: floats are real numbers, so it does not model the printing and parsing of JSON number text; the stack check is left out.
- Async tasks and wakers of `r_task.rs`, and what happens after an unrecovered panic aborts the process; closures are finite trees of calls and branches.
- Windows path text: prefixes are components, and only Unix path text is parsed and printed.
- Unicode tables: letters are a parameter, and `is_valid_symbol` and its regular expression are a parameter of `SymQuoteInvalid`.
- Command line, repositories, help proxy, graphics, LSP and DAP servers.
