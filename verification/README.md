# Verified model of the waveform query server

The repository opens hardware waveforms (VCD and FST) and answers queries over them, in process
and through a server that speaks JSON lines. This project models its stateful core in Dafny and
proves what that core is for. `dafny verify dfyconfig.toml` checks everything.

The modules follow the program:

- `MetadataCache`, `MetadataProtocol`, `MetadataTheorems`, `MetadataOrigins`, `MetadataHandover`: the
  single-flight metadata cache. The locked sections are methods of a class over `phase` and `next_attempt`, each proved equal to a
  transition function. Any number of threads with program counters take those transitions, one
  locked section, notification or guard drop at a time; the theorems are about every schedule.
- `WireGrammar`, `Runtime`, `JobRegistry`, `Scheduling`, `SchedulingTheorems`, `SchedulingAnswers`:
  the response lifecycle of one request, the request table of a connection, and the system of
  readers, job queue and workers that share them, interleaved at every lock, channel and counter
  operation.
- `Words`, `Decimals`, `Streaming`: 64-bit words, canonical decimals, the self-describing end
  frame, the capped frame counter and the transaction that splits, budgets and numbers chunks.
- `Compare`, `CompareTheorems`: the timeline merge against a pointwise specification.
- `Values`, `Utf8`, `Extraction`, `ExtractionTheorems`, `Legacy`, `Occurrences`, `FstVisit`, `Ops`:
  streaming extraction as a filter, its limits, the legacy iterator, the FST visitor, and the two
  query operations in both back ends. A VCD body is its command sequence (section 18.2 of IEEE Std 1364-2005).
- `Catalog`, `CatalogTheorems`: the compact catalog against the naive flattening of the scope tree.
- `Requests`, `RequestTheorems`, `LineAccumulator`: request decoding and encoding, and the bounded
  line accumulator.
- `Preflight`: the walk over FST sections and the variable-length numbers it reads.

Code that updates fields in place is a class whose methods state the new state through a
specification function; the theorems are about those functions and about runs of them.

Where the code does not do what its comments or names suggest, the model follows the code and the
exact condition is proved:

- src/opened/mod.rs:165-172 promises that a caller which observed an attempt building gets that
  attempt's outcome, and debug assertions at lines 289, 429 and 438 say so. A context builder that
  is cancelled resets the cache to absent (line 391); a plain caller registered on that attempt
  can then wait on the next attempt without being counted and receive its failure
  (`StaleWaiterSeesNewerAttempt`). A run keeps every registration current exactly when it has no
  transient end with registered waiters (`RunStaysCurrentExactly`), and a waiting caller can still
  be handed another attempt's failure exactly when `MetadataHandover.AtRisk` holds
  (`HandedOverExactly`). The model has release semantics.
- A window whose start lies after its end is answered with success by the FST back end before
  the source is looked at, so a changed source goes unnoticed there and not in the VCD back end
  (`FstVisit.QueriesAgreeExactly`); unknown names go unnoticed with it, and otherwise only the
  first one is reported (`FstVisit.RefusalsAgreeExactly`).
- The FST walk reads the intermediate length of a section of kind 7 without checking that it lies
  inside the section (`Preflight.IntermediateStaysInside`).
- The number of mismatches per signal is to be limited (src/lib.rs:486), but a cap of zero still
  lets one through; the cap is respected on all timelines exactly when it is not zero
  (`CompareTheorems.CapsExactly`).

Two results have conditions on values that the parser libraries hand over, which are not part of
this model: apart from the inverted window, the toggle counts of the two back ends differ only on
empty texts (`Ops.CountRequestsAgreeExactly`, `Ops.EmptyTextSplitsCounts`), and a full name is the
dot-join of its scopes unless the outermost identifier is empty (`CatalogTheorems.NameIsDotJoin`,
`CatalogTheorems.EmptyOutermostScope`). Both lemmas with a concrete input start from the types the
code accepts, a command sequence and a tree of scope items.

## Model

| member | source | states |
|---|---|---|
| `MetadataCache.MetadataState.ContextTurn` | src/opened/mod.rs:262-336 | one locked section of a context caller leaves exactly the state and verdict of the transition function `ContextPass`, on which all theorems below rest |
| `MetadataCache.MetadataState.PlainTurn` | src/opened/mod.rs:401-449 | the same for a plain caller (`PlainPass`) |
| `MetadataCache.MetadataState.RetryTurn` | src/opened/mod.rs:492-527 | the same for a retry (`RetryPass`): a failure is replaced only when nobody still has to acknowledge it |
| `MetadataCache.MetadataState.Publish` | src/opened/mod.rs:344-399 | the same for a builder's end, whether it returned, was cancelled or panicked (`PublishPass`) |
| `MetadataCache.MetadataState.DropRegistration` | src/opened/mod.rs:554-583 | the same for dropping a waiter registration, with the wrapping decrement of the release build (`DropPass`) |
| `MetadataProtocol.InvPreserved` | src/opened/mod.rs:262-609 | every step of every thread keeps the invariant: ordered attempts, single flight, counted waiters, agreeing values, nobody forgotten |
| `MetadataTheorems.ReachableInv` | src/opened/mod.rs:202-609 | the invariant holds after every schedule of any number of threads |
| `MetadataTheorems.WaiterAccounting` | src/opened/mod.rs:295-312 | in every reachable state `waiters` of `Building` and `pending_waiters` of `Failed` equal the number of live registrations on that attempt, over plain, context, cancelled and re-registered waiters; a thread about to decrement one finds it positive |
| `MetadataTheorems.AttemptStability` | src/opened/mod.rs:165-172 | once attempt k has published a failure, each caller registered on k keeps that failure in the cache until its own acknowledging step of the run, and takes exactly that failure away |
| `MetadataTheorems.OneBuilderAtATime` | src/opened/mod.rs:322-333 | in every reachable state at most one thread builds, `Building{k}` is the phase exactly while the builder of k is active, and the "attempt changed" panics are unreachable |
| `MetadataTheorems.AttemptsIncrease` | src/opened/mod.rs:322-333 | any later election of the same run, by any thread, gets a larger attempt id |
| `MetadataTheorems.ReadyIsAbsorbing` | src/opened/mod.rs:202-527 | `Ready` and its value never change again, whatever follows |
| `MetadataTheorems.SuccessesAgree` | src/opened/mod.rs:344-399 | any two successful returns of one cache at any two moments of a run carry the same metadata, including runs with panics and cancellations |
| `MetadataTheorems.NoLostWakeup` | src/opened/mod.rs:221-260 | a parked thread that no notification has reached waits for a running builder, or (a retry) for unacknowledged waiters, or a publisher still owes its `notify_all` |
| `MetadataTheorems.OneAcknowledgement` | src/opened/mod.rs:564-582 | from a failure with pending waiters, at most three unprompted steps (no timed or spurious wake-up) take exactly one of them away |
| `MetadataTheorems.FailureDrains` | src/opened/mod.rs:554-583 | hence all waiters of a failure can acknowledge it without outside help |
| `MetadataTheorems.RetryIsNotStranded` | src/opened/mod.rs:492-527 | hence a parked retry reaches the point at which it replaces the failure |
| `MetadataTheorems.StaleExactlyAfterTransientEnd` | src/opened/mod.rs:383-396 | a step makes some live registration stale if and only if it is the transient end of a context builder on an attempt with registered waiters |
| `MetadataTheorems.RunStaysCurrentExactly` | src/opened/mod.rs:284-294 | every registration is current in every state of a run, and the debug assertions hold there, if and only if no step of the run is the transient end of a context builder on whose attempt somebody is registered |
| `MetadataTheorems.StaleWaiterSeesNewerAttempt` | src/opened/mod.rs:410-439 | a concrete run in which a plain caller registered on attempt 1 waits on attempt 2 uncounted and is handed the failure of attempt 2, against the documented rule |
| `MetadataOrigins.ReadyExactlyIfBuilt` | src/opened/mod.rs:344-399 | the cache holds metadata m after a run if and only if some builder of the run was scanning and ended with just that m |
| `MetadataOrigins.FailureHasItsOrigin` | src/opened/mod.rs:344-399 | a failure of attempt k in the cache is the error with which the builder of k ended, or says that it panicked |
| `MetadataOrigins.OutcomesHaveOrigins` | src/opened/mod.rs:262-609 | every outcome any thread comes to in a run is explained by a step of that run: a success is the very value a builder produced, a cached failure a builder's error or panic, an uncached one the thread's own failing policy check or its own transient end, an unwinding its own panic, and exhaustion that no attempt number is left |
| `MetadataOrigins.BuilderReturnsItsEnd` | src/opened/mod.rs:344-399 | a builder returns how its own closure ended, whatever the others do between its publication and its return; only a context caller whose policy fails meanwhile returns that instead, and a panic always unwinds |
| `MetadataOrigins.FailedPolicyEndsCall` | src/opened/mod.rs:262-336 | once the policy of a context call keeps failing, at most three turns of its thread end the call without metadata and without a cached error, whatever the other threads do |
| `MetadataHandover.HandedOverExactly` | src/opened/mod.rs:401-449 | from any state of the invariant, a caller that waits on attempt k can be handed the failure of another attempt by some schedule if and only if another attempt has failed or is building, or one can still be elected: by some other thread while none exists, or after the transient end of a context builder that is building k |
| `WireGrammar.LegalIffNotBroken` | src/server/runtime.rs:443-481 | a frame sequence is a concatenation of complete responses (`result`, `error`, or `begin chunk* end` numbered 0,1,2,...) and at most one unfinished one if and only if the per-frame automaton never breaks |
| `Runtime.ValidateIsGrammar` | src/server/runtime.rs:443-481 | `validate_frame` accepts a frame of its request exactly when it is the next frame of the response grammar, and moves the lifecycle as the grammar does |
| `Runtime.TerminalFrameCloses` | src/server/runtime.rs:549-563 | the frame a required terminal builds closes the response from every unfinished lifecycle: an error if nothing was sent, else an end frame without totals |
| `Runtime.AwaitExactly` | src/server/runtime.rs:512-547 | a send is decided by its first round that does not find the channel full; if there is none, by the policy |
| `Runtime.AwaitTerminalExactly` | src/server/runtime.rs:549-588 | a required terminal is decided by its first round that does not find the channel full, whatever the policy says; if there is none, it gives up |
| `Runtime.OutputSink.SendFrame` | src/server/runtime.rs:512-547 | while other threads enqueue frames of other requests, this frame is enqueued and the lifecycle advanced, or neither; it is enqueued exactly when valid, within the frame limit and accepted by the channel before cancellation or disconnect; each error has its cause, and only a receiver that is gone or another thread's disconnect breaks the connection and cancels its jobs |
| `Runtime.OutputSink.RequiredTerminal` | src/server/runtime.rs:549-588 | afterwards the response is closed or the connection is gone, also when another thread disconnects it while the frame waits; it is closed exactly when it was, or the closing frame fits and the channel accepts it on a connected connection; otherwise every registered job is cancelled |
| `Runtime.Connection.Register` | src/server/runtime.rs:159-180 | registration succeeds exactly for an inactive id below the limit, and the table never exceeds the limit |
| `Runtime.Connection.Cancel` | src/server/runtime.rs:182-190 | cancelling finds exactly the active ids and cancels the token registered under that id |
| `Runtime.Connection.Disconnect` | src/server/runtime.rs:196-201 | disconnecting cancels every registered token |
| `JobRegistry.DeleteKeeps` | src/server/runtime.rs:192-194 | when a holder leaves with the entry under its id, every other holder still owns its own entry and no entry is orphaned |
| `Scheduling.OwnershipPreserved` | src/server/runtime.rs:701-771 | every step of every reader and worker keeps the account of ids: holders own their entries, entries have holders, the table is bounded, finished jobs are closed or disconnected |
| `SchedulingTheorems.WirePreserved` | src/server/runtime.rs:443-588 | every step keeps the frames of every id in step with the lifecycle of the one worker that streams it |
| `SchedulingTheorems.JobsPreserved` | src/server/runtime.rs:701-771 | every step keeps the balance of submitted, rejected, queued, active and completed jobs |
| `SchedulingTheorems.WireIsLegal` | src/server/runtime.rs:927-1007 | for any interleaving of readers and workers of any number of connections, and any reuse of ids, the frames enqueued for one id on a connection that is not disconnected are complete responses followed by at most one unfinished one |
| `SchedulingTheorems.ReleasedIdIsComplete` | src/server/runtime.rs:192-194 | an id outside the request table has only complete responses on the wire, so its next use starts a new one |
| `SchedulingTheorems.JobsAreConserved` | src/server/runtime.rs:701-771 | after every run each submitted job is rejected, queued, in hand or completed; the counters are never negative and at quiet moments are exact |
| `SchedulingTheorems.DecrementsFindJobs` | src/server/runtime.rs:701-771 | no decrement of `queued` or `active` finds its counter at zero |
| `SchedulingTheorems.TableIsExact` | src/server/runtime.rs:132-210 | the table of a connection holds exactly the ids being registered, queued or run, at most the limit, each held in exactly one place |
| `SchedulingTheorems.EndedJobRemovesItself` | src/server/runtime.rs:212-225 | when a worker removes the id of its finished job, the entry is the one that job registered, and its response is closed or its connection is gone |
| `SchedulingTheorems.RefusedJobRemovesItself` | src/server/runtime.rs:981-1000 | the same for a job the reader takes back |
| `SchedulingTheorems.CancelHitsItsTarget` | src/server/runtime.rs:182-190 | a cancel request cancels the one job held under that id on that connection and no other job anywhere |
| `SchedulingAnswers.EveryRequestIsAnsweredOnce` | src/server/runtime.rs:927-1007 | for any interleaving, on a connection that is not disconnected, the requests decoded with an id are as many as the complete responses on the wire for that id, plus one if a request with that id is still owed its response |
| `SchedulingAnswers.JobIsAnsweredOnce` | src/server/runtime.rs:728-771 | between the moment a worker receives a job and any later moment at which it has finished that job on a connection still connected, exactly one complete response was enqueued under its id; a job whose dispatcher sent nothing is answered with one error frame |
| `SchedulingAnswers.ReaderRepliesOnce` | src/server/runtime.rs:927-1000 | a reader that has begun to answer a request itself adds exactly one complete response of that kind before it is back at its loop, or its connection is gone |
| `SchedulingAnswers.ReplyStarts` | src/server/runtime.rs:939-1000 | it begins so with a result for a cancel request, and with an error for a refused timeout or context and for a job the queue does not take |
| `SchedulingAnswers.OfferIsTakenExactly` | src/server/runtime.rs:701-720 | the queue takes an offered job exactly when it has room and a receiver, as its last job |
| `SchedulingAnswers.RegistrationNeedsRoom` | src/server/runtime.rs:159-180 | a decoded request is registered under a fresh token exactly when the table has room; otherwise the connection is given up and nothing is registered |
| `SchedulingAnswers.QueueIsBounded` | src/server/runtime.rs:701-720 | in every reachable state the queue holds at most its depth |
| `SchedulingAnswers.CancelledExactly` | src/server/runtime.rs:182-201 | a step that disconnects a connection cancels every job registered on it; while the connection stays connected, a job is cancelled exactly by a cancel request for it |
| `SchedulingAnswers.EndedReadersDisconnect` | src/server/runtime.rs:1002-1023 | in every reachable state a reader that has left its loop has a disconnected connection |
| `Streaming.StableAfterThree` | src/server/protocol.rs:1025-1046 | the iteration of the self-describing byte count is stable after three rounds whenever its first candidate fits 64 bits |
| `Streaming.EndSuccess` | src/server/protocol.rs:1008-1047 | the end frame gets the least byte count that counts its own digits; the only failure is that no such count fits 64 bits, "did not stabilize" cannot happen |
| `Streaming.TryFrameBytes` | src/server/service.rs:653-697 | however the serializer cuts a frame into writes, the capped counter yields the exact line length, or nothing exactly when the line exceeds the limit |
| `Streaming.StreamOutput.SendChunk` | src/server/service.rs:595-609 | a chunk is sent, counted and numbered, or nothing changes; the stream's number stays the one the sink expects; it fails on the budget exactly when the chunk eats into the terminal reserve, and in transport only if the channel did not take that frame or no number is left |
| `Streaming.StreamOutput.SendRowsSplit` | src/server/service.rs:578-609 | halving an oversized chunk until it fits sends all rows in order, or a prefix of them; rows that fit one frame are sent as one; it fails as too large only if the first unsent row, alone and with the next number, does not fit a frame, on the budget only if a chunk of the rows that follow those sent, with the next number, eats into the terminal reserve, and in transport only if the channel did not take the next frame or no number is left |
| `Streaming.StreamOutput.Finish` | src/server/service.rs:611-631 | the end frame reports exactly the bytes of all lines of the response, itself included, at most the response limit, with the numbers of rows sent and of commands read; each failure has its cause: no such count, a frame too long, a total above the limit, or a channel that did not take it |
| `Streaming.StreamResponse` | src/server/service.rs:544-631 | a whole streamed response on a shared channel: on success the frames of this request are one complete response carrying exactly the given rows in order, every frame within the frame limit, with the exact totals of bytes, rows and commands; on failure a prefix of the rows in an unfinished stream or nothing, and the begin frame, chunk or end frame that could not be sent is the cause: too long, over the budget, or not taken by the channel |
| `Streaming.RoomLeavesSizes` | src/server/service.rs:544-631 | on a connection that stays, if every frame finds room before cancellation, a streamed response fails only on a size or because the sequence numbers are used up |
| `Compare.CompareTimeline` | src/query/compare.rs:276-331 | the two-pointer loop returns the merge report; a failing policy check leaves a prefix of it; it terminates on every pair of timelines; once cancelled it records no mismatch and succeeds only if it drained fewer than 4096 entries |
| `CompareTheorems.ReportIsPointwise` | src/query/compare.rs:276-331 | for non-decreasing timelines with times below 2^64-1 the report is, in time order, exactly the instants of either timeline at which the latest values (initially x) do not match, cut to the first max(1, m) |
| `CompareTheorems.ReportIsExact` | src/query/compare.rs:276-331 | without a cap the report of ordered timelines holds, in strictly ascending time order, exactly the instants of either timeline at which the latest values disagree, with both values and whether one of them is x or z in either case |
| `CompareTheorems.ValuesMatchExactly` | src/query/compare.rs:333-347 | two values match exactly when two floats have equal bits, or otherwise their normal forms are equal, or when unknown values are ignored and one of them is x or z in either case |
| `CompareTheorems.ValueAtExactly` | src/query/compare.rs:290-312 | the value of an ordered timeline at an instant is that of its last entry up to then, and x before its first entry |
| `CompareTheorems.CapsExactly` | src/query/compare.rs:276-331 | a cap m bounds the report of every two timelines, ordered or not, if and only if m is not zero; with a cap of zero one mismatch is still reported |
| `CompareTheorems.SelfComparisonIsEmpty` | src/query/compare.rs:276-347 | any timeline, ordered or not, compared with itself has no mismatch |
| `CompareTheorems.ComparisonIsSymmetric` | src/query/compare.rs:276-347 | for arbitrary timelines swapping the inputs swaps the two sides of every mismatch and changes nothing else |
| `CompareTheorems.CompareSignals` | src/query/compare.rs:186-237 | the counting loop over the compared signals and the final validation of both sources: all reports in order, the number of signals with mismatches, passing exactly when there are none; a changed source or a cancellation instead of a result |
| `CompareTheorems.PassesIffAllAgree` | src/query/compare.rs:186-237 | for ordered timelines the comparison passes exactly when every compared signal agrees at every instant, with or without a cap |
| `Extraction.ConvertVector` | src/query/stream.rs:319-336 | a binary vector of at most 128 bits becomes its value, within 128 bits; every other vector stays text |
| `ExtractionTheorems.BinaryInverse` | src/query/stream.rs:319-336 | a vector becomes the number n if and only if it is n written in at most 128 binary digits, most significant first |
| `ExtractionTheorems.ConversionExactly` | src/query/stream.rs:319-336 | a command converts to a value of an identifier if and only if it writes it: a binary number, a real with its bits, a string, a scalar or any other vector as text; no other command converts |
| `ExtractionTheorems.BindingsExactly` | src/query/stream.rs:30-65 | the bindings of an identifier are, in request order, exactly the requests for one of its names |
| `ExtractionTheorems.RefusalExactly` | src/query/stream.rs:30-65 | a request is refused exactly for too many signals, first, or for unknown names, which are listed as often as requested, the first one first |
| `Extraction.Resolve` | src/query/stream.rs:30-65 | resolution yields, for every identifier, its requested names in request order with duplicates; it fails on too many signals, then with exactly the unknown names; a cancelled query is refused |
| `Extraction.Extract` | src/query/extract.rs:61-76 | opening an extraction: refused requests and sources that are not current fail before any row; otherwise the iterator has exactly the rows and the end of the decoding under the budgets still to yield |
| `Extraction.SelectedChangeStream.Next` | src/query/stream.rs:245-316 | each call returns the head of the remaining decoding, its error or its end, and leaves the tail; a query already cancelled ends with an error before it reads another 4096 commands |
| `Extraction.OpenedTimeValueIter.EmitPending` | src/query/extract.rs:119-162 | one pending row, its texts charged in UTF-8 bytes, passes both budgets and is emitted, or the matching limit error ends the iteration |
| `Extraction.OpenedTimeValueIter.Next` | src/query/extract.rs:164-186 | each call returns the head of everything still due under the budgets and leaves its tail; after an error nothing is left |
| `ExtractionTheorems.ExtractionIsFilter` | src/query/stream.rs:245-316 | without a command limit the rows of any body are one row per binding for each selected change inside the window before the command that ends the stream: a malformed one, the first timestamp past the end, or the end of the body |
| `ExtractionTheorems.RowsAreTheSelectedChanges` | src/query/stream.rs:245-316 | on an error-free body with non-decreasing timestamps an unlimited extraction yields a row if and only if some command writes that value to a requested signal, the latest timestamp is the time of the row, and the window holds it with both ends included |
| `ExtractionTheorems.CommandLimitCuts` | src/query/stream.rs:170-185 | on any body a command limit c cuts exactly when command c+1 would have to be read, also if that one is malformed; otherwise it is not seen |
| `ExtractionTheorems.EarlyStopIsExact` | src/query/stream.rs:283-292 | when timestamps never decrease, stopping early equals filtering the whole body |
| `ExtractionTheorems.LimitsOnlyTruncate` | src/query/extract.rs:119-162 | row and byte budgets emit exactly the longest prefix of the unlimited rows within both, then, if and only if rows remain, the error of the exceeded budget (rows first) with its total |
| `ExtractionTheorems.KnownRowCosts` | src/query/extract.rs:15-24 | known rows cost what the budget documents: eight bytes for the time, sixteen for an integer, eight for a float, the UTF-8 bytes of names and texts |
| `ExtractionTheorems.Collect` | src/query/extract.rs:164-186 | a whole iteration yields everything due; a cancelled one yields a prefix and the cancellation, then nothing |
| `ExtractionTheorems.ExtractAll` | src/lib.rs:386-397 | resolve, stream, expand and collect together return exactly the filter of the body for the request, or the first of: unknown names, a source not current, a malformed command that is read, a source changed at the end |
| `Legacy.BuildTargetMap` | src/lib.rs:367-384 | the legacy target map holds the requested names per identifier in request order, and the unknown names |
| `Legacy.TimeValueIter.Next` | src/lib.rs:273-328 | each call of the legacy iterator returns the head of its remaining output and leaves the tail |
| `Legacy.LegacyAgrees` | src/lib.rs:256-328 | on every well-formed body the legacy iterator and the reusable extraction yield the same rows for the same request |
| `Legacy.LegacySkipsMalformed` | src/lib.rs:256-328 | on any body the legacy iterator reports each malformed command before the stop once and skips it: its rows are those of the reusable extraction on the body without them |
| `Legacy.TimeBounds` | src/lib.rs:330-356 | the bounds are the times of the first and the last timestamp or change, and fail exactly on a malformed command |
| `Legacy.ScanBounds` | src/opened/mod.rs:927-1006 | the metadata scan under a policy yields the bounds of the plain scan; a command limit cuts exactly when one more command must be read, before a malformed command is seen; a changed source fails after the last command |
| `Legacy.BoundsEncloseEvents` | src/lib.rs:330-356 | when timestamps never decrease every event lies within the bounds |
| `Legacy.CommandsLieWithinBounds` | src/lib.rs:330-356 | when timestamps never decrease, every timestamp and every change of any kind lies within the bounds |
| `Legacy.BoundsAreFirstAndLast` | src/lib.rs:330-356 | in any body the bounds are the times at the first and the last timestamp or change |
| `Legacy.ScanLimitExactly` | src/opened/mod.rs:927-1006 | a command limit c fails the scan exactly when command c+1 exists and none of the first c is malformed; otherwise it is not seen |
| `Legacy.ScanIsFirstAndLast` | src/opened/mod.rs:927-1006 | an unlimited scan of an error-free body yields the times at the first and at the last timestamp or change |
| `FstVisit.RowVisitor.Accept` | src/opened/waveform.rs:237-255 | a visitor keeps what it has seen; one that searches stops the visit at exactly the n-th hit and remembers it |
| `FstVisit.VisitChanges` | src/opened/fst.rs:608-687 | under all three limits the visitor sees the rows of the VCD iterator for the changes inside the window, the command budget counting callbacks, up to where it stops the visit; the visit ends with the same error, or as the final validation says; a cancelled one has seen a prefix |
| `FstVisit.Visit` | src/opened/fst.rs:559-687 | the whole visit: the signal limit, then at once success for an inverted window, then the first unknown name, then a source that is not current, then the rows |
| `FstVisit.RefusalsAgreeExactly` | src/opened/fst.rs:559-606 | a refused request gets the same error from both back ends if and only if the signal limit is exceeded, or the window is not inverted and only one name is unknown |
| `FstVisit.CallbackLimitCuts` | src/opened/fst.rs:608-634 | without row and byte limits a command limit c lets the rows of the first c changes through and fails exactly when there are more |
| `FstVisit.BackEndsExtractAlike` | src/opened/fst.rs:559-687 | an admitted visit of an FST file with the changes of an ordered VCD body yields the same output as that body under the same row and byte limits |
| `FstVisit.QueriesAgreeExactly` | src/opened/fst.rs:567-573 | from the request on, the two back ends yield the same output if and only if the window is not inverted or the source has not changed; otherwise FST reports success and VCD a stale source |
| `Ops.FindVcd` | src/query/ops.rs:9-46 | the VCD search answers with the n-th hit among the rows the extraction yields before its first error if the source is still current, else with that error or none; refused requests come first |
| `Occurrences.HitsExactly` | src/lib.rs:112-118 | an integer hits its canonical decimal, a float its printed text, a text every normalized target equal to it up to ASCII case |
| `Occurrences.NthExactly` | src/query/ops.rs:28-46 | the n-th hit is the event that passes the test after exactly n-1 others, whatever follows |
| `Ops.FindFst` | src/opened/waveform.rs:237-255 | the FST search with its early stop answers the same of the rows the visit yields under all limits |
| `Ops.SearchesAgreeExactly` | src/opened/waveform.rs:237-255 | on an ordered body the two searches agree if and only if the window is not inverted or the source has not changed |
| `Ops.ChangedSourceIsNotSearched` | src/query/ops.rs:28-46 | on a source that has changed every search fails, except the one for an inverted window on an FST file |
| `Ops.FindByIterator` | src/query/ops.rs:28-46 | the loop over an extraction gives the answer of its remaining output, or the query was cancelled |
| `Ops.CountTogglesVcd` | src/query/ops.rs:44-83 | the whole query: a refused request fails with its error, a source that is not current before any row; else the first error of the extraction, or per requested name the number of adjacent unequal formatted values whose predecessor is not empty; a query already cancelled fails |
| `Ops.CountTogglesFst` | src/opened/waveform.rs:269-283 | the whole query: too many signals or the error of the visit, or per requested name the number of adjacent unequal formatted values |
| `Ops.BackEndsAgree` | src/query/ops.rs:71-80 | the two counts of a signal are equal if and only if no empty formatted value is followed by a non-empty one |
| `Ops.TogglesCountChanges` | src/query/ops.rs:61-80 | the two counts are the numbers of positions at which the value differs from its predecessor, and from a non-empty predecessor |
| `Ops.FormattedExactly` | src/lib.rs:441-449 | a value of a signal of several bits is 0x and its lower-case hexadecimal digits, zero-padded to one for every four bits and no further |
| `Ops.FormattedInjective` | src/lib.rs:441-449 | two values of one signal are formatted alike exactly when they are equal |
| `Ops.CountRequestsAgreeExactly` | src/query/ops.rs:44-83 | for a request that is not refused, on an ordered body, the two back ends answer the same if and only if the window is not inverted or the source has not changed, and the query ends with an error or no requested name has an empty formatted value followed by a non-empty one |
| `Ops.EmptyTextSplitsCounts` | src/query/ops.rs:71-80 | a concrete body with the texts empty and a, decoded and expanded: one count is 0, the other 1 |
| `Ops.DuplicatesKeepCounts` | src/query/ops.rs:44-83 | however often a resolved request repeats a name, both counts of it are those of the changes of its identifier |
| `Catalog.CatalogBuilder.AddScope` | src/catalog.rs:98-102 | a scope gets the next 32-bit key, or the build fails for lack of keys |
| `Catalog.CatalogBuilder.AddSignal` | src/catalog.rs:104-146 | a signal gets the next key, its full name is indexed and its key appended to its alias list, or the build fails on a repeated name or for lack of keys |
| `Catalog.CatalogBuilder.Collect` | src/catalog.rs:148-178 | the recursion with one shared prefix that is extended and truncated comes to the fold of the items, and restores the prefix |
| `Catalog.ScopeComponents` | src/catalog.rs:220-246 | the walk over parents terminates and yields the components from the root |
| `Catalog.BuildIndex` | src/lib.rs:67-80 | the public index fails exactly on repeated names; otherwise it groups by identifier in order and finds every signal by name |
| `Catalog.IntoCompatibilityParts` | src/catalog.rs:267-303 | the materialised signals carry the names, identifiers and scope paths of the catalog |
| `Catalog.FromScopeItems` | src/catalog.rs:188-192 | the catalog of a header is the fold over its scope items from the empty builder |
| `CatalogTheorems.BuildSucceedsExactly` | src/catalog.rs:98-146 | a header is accepted if and only if its flattened full names are distinct and its signals and scopes fit 32-bit keys |
| `CatalogTheorems.CatalogIsFlattening` | src/catalog.rs:148-178 | the catalog lists exactly the naive flattening of the scope tree, in declaration order, every signal with its true scope path, and parents precede their scopes |
| `CatalogTheorems.NameIndexIsExact` | src/catalog.rs:214-216 | the name index maps a name to a key if and only if the flattening has that name at that position |
| `CatalogTheorems.AliasesAreExact` | src/catalog.rs:218-220 | the alias list of an identifier holds the positions of all its declarations and no others, ascending |
| `CatalogTheorems.CompatibilityNeverFails` | src/catalog.rs:267-303 | building the public index from the materialised parts of a catalog never fails |
| `CatalogTheorems.MaterialisedIsFlattening` | src/catalog.rs:267-303 | the materialised signals are the naive flattening, position by position and field by field |
| `CatalogTheorems.PrefixIsDotJoin` | src/catalog.rs:158-171 | the shared prefix is the dot-join of the scope components if and only if the outermost of several identifiers is not empty |
| `CatalogTheorems.NameIsDotJoin` | src/catalog.rs:112-128 | a full name is the dot-join of its scopes and its reference with the index text if and only if the outermost identifier is not empty |
| `CatalogTheorems.IndexedNamesDiffer` | src/catalog.rs:104-128 | two declarations of one scope with the same reference have the same name exactly when their index texts are the same |
| `CatalogTheorems.EmptyOutermostScope` | src/catalog.rs:112-128 | a concrete scope tree with an empty outermost identifier: its signal is a.v, the dot-join .a.v |
| `Decimals.ParseShowInverse` | src/server/protocol.rs:599-630 | a text parses to n if and only if n fits 64 bits and the text is n printed: parse and print are inverse on canonical texts and nothing else parses |
| `Requests.ParamMap.TakeOptionalDecimal` | src/server/protocol.rs:659-671 | taking a field yields what the received map held there and removes just that field |
| `Requests.ParamMap.RejectUnknown` | src/server/protocol.rs:707-715 | fields are left over exactly when the received map had a field that was not taken |
| `Requests.ParamMap.ParseMethod` | src/server/protocol.rs:461-559 | reading parameters by removing them, in the order and with the first error of the source, comes to looking them up in the map as received |
| `RequestTheorems.ParseIsInverse` | src/server/protocol.rs:366-398 | a parameter map parses to a method if and only if the method is valid, has that name and encodes to that map up to the default occurrence |
| `RequestTheorems.EncodedDecodes` | src/server/protocol.rs:418-450 | every valid request decodes from its own encoding |
| `RequestTheorems.DecodeIsInverse` | src/server/protocol.rs:434-459 | an envelope decodes to a request if and only if the request is valid and the envelope encodes it up to ignored fields; with active ids, exactly when moreover its id is not active |
| `RequestTheorems.UnknownComesBeforeRanges` | src/server/protocol.rs:461-559 | for every method an unknown parameter is reported only if there is one, and the window and the response limit are checked only if there is none |
| `LineAccumulator.JsonLineAccumulator.Push` | src/server/protocol.rs:230-276 | a push returns the lines and leaves the buffer of the specification, never more than the bound less one byte and never a newline; errors poison |
| `LineAccumulator.PushIsSplit` | src/server/protocol.rs:230-259 | a push succeeds if and only if every line of the buffered and new bytes together fits the bound and is valid text and the rest leaves room for a newline; it returns just those lines and buffers just that rest |
| `LineAccumulator.ErrorIsFirstFault` | src/server/protocol.rs:230-276 | a push that fails reports the first line, in input order, that is too long or not valid text |
| `LineAccumulator.OutputRebuildsInput` | src/server/protocol.rs:230-259 | the output lines, their newlines and the buffer rebuild the input |
| `LineAccumulator.ChunkingInvariant` | src/server/protocol.rs:230-276 | however the input is cut into pushes, the lines, the final state and the error are those of one push of the whole |
| `LineAccumulator.ErrorsPoison` | src/server/protocol.rs:230-276 | after an error every push fails and changes nothing |
| `Preflight.ReadVarint` | src/opened/fst.rs:68-84 | at most ten bytes are read, the number ends at the first byte without a continuation bit; the error tells a truncated file from an overlong number |
| `Preflight.AccumulatedIsSum` | src/opened/fst.rs:68-84 | or-ing in shifted 7-bit digits in a 64-bit word is adding them modulo 2^64 |
| `Preflight.ReadsModulo` | src/opened/fst.rs:68-84 | the value that is read is the base-128 sum modulo 2^64 |
| `Preflight.VarintInverse` | src/opened/fst.rs:68-84 | for every 64-bit number, wherever its standard encoding stands, exactly that number and that end are read |
| `Preflight.PreflightHierarchy` | src/opened/fst.rs:88-172 | the walk over positions terminates on every byte string and returns the first error of the section sequence |
| `Preflight.WalkIsPartition` | src/opened/fst.rs:88-172 | the walk accepts a file and visits given sections if and only if those sections lie end to end from the start to the end of the file or an end marker, all inside it, with every hierarchy section's declared sizes within the limits |
| `Preflight.WalkFailsExactly` | src/opened/fst.rs:88-172 | the walk fails with an error if and only if, after well-formed sections lying end to end from the start, the next header has just that fault |
| `Preflight.IntermediateStaysInside` | src/opened/fst.rs:148-158 | the intermediate length of an accepted section is read inside that section if and only if one of the section's own bytes there ends it |
| `Preflight.IntermediateFromTheNextSection` | src/opened/fst.rs:148-158 | a concrete accepted file whose intermediate length is read from the bytes after its section |
| `Preflight.ChargeResource` | src/opened/fst.rs:706-718 | a charge succeeds exactly when the exact sum is within the limit (or the limit is the largest word), and the new total is the sum, capped at the largest word |

## Left out

- Streaming.StreamResponse: frame lengths are abstract functions of what a frame holds, except for the digits of the byte count; a chunk is assumed at least as long as the number of its rows, and the response limit at most the one the configuration check allows (src/server/service.rs:30, 51-68).
- Streaming.StreamOutput.Finish: that the error frame of a failed stream fits the 4096-byte reserve is not claimed, since escaping can lengthen its text.
- SchedulingTheorems.WireIsLegal: nothing is said of a connection after its disconnection; there a worker may still enqueue, because checking and sending are separate operations, and the model allows more such sends than the code.
- SchedulingAnswers.EveryRequestIsAnsweredOnce: that an owed response is sent in the end is not claimed; a dispatcher may run for ever.
- CompareTheorems.ReportIsPointwise: a change at time 2^64-1 ends the merge, as in the code, so times lie below it.
- ExtractionTheorems.LimitsOnlyTruncate: the counters saturate at 2^64-1; the claim is for budgets below that value or sums that stay within it.
- ExtractionTheorems.ExtractionIsFilter: the command counter is unbounded, its saturation at 2^64-1 is not modelled.
- LineAccumulator.PushIsSplit: which byte strings are valid UTF-8 is a parameter.
- Requests.ParamMap.ParseMethod: field names are constructors rather than texts, and `usize` has 64 bits; reading and writing JSON text, with its duplicate-key check, is not modelled.
- FstVisit.VisitChanges: the parser hands over a given sequence of fewer than 2^64 changes inside the file's time range, never fails, and every value converts.
- FstVisit.Visit: an unknown name is reported as a missing signal, as in the VCD back end, though the error types differ.
- Values: lower-casing is ASCII only; floats are bit patterns with their printed text.
- Cancellation, deadlines and shutdown are arbitrary monotone flags; files, generations and their validation are an oracle that says current or stale.
- A builder's result, its panics and its cancellations are arbitrary in the cache model; the scan it runs is modelled on its own (`Legacy.ScanBounds`).
- The writer thread, sockets, listener and process lifecycle (src/server/listener.rs, src/server/app.rs), stopping the scheduler, panics of a dispatcher, and the gauges that only feed statistics.
- `ScanGate` (src/server/runtime.rs:227-268) and `CappedJsonLineWriter` (src/server/runtime.rs:381-426): a one-slot gate and a second capped counter.
- Sorting and partitioning of signal names in `compare_providers` (src/query/compare.rs:152-184): the compared signals and their timelines are inputs.
- `bound_error_details` (src/server/protocol.rs:163-190) and the wording and codes of errors beyond their kinds.
- Memory estimates of the catalog, header sanitising, FST value conversion, the describe and ping payloads, CLI, printing and the Python bindings.
