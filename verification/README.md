# beetles-memory: verified models

Dafny models of the parts of beetles-memory that carry real protocol, loop or arithmetic obligations, with proofs
about every input, every interleaving and every run. Check the whole project with `dafny verify dfyconfig.toml`
(Dafny 4.11).

| file | what it models |
|---|---|
| `NetworkFront.dfy`, `NetworkOutcomes.dfy` | the TCP admission front: permit counter, bounded queue, workers, deadline supervisor, shutdown; when a read is interrupted and how a call returns |
| `StreamReader.dfy`, `StreamItems.dfy`, `StreamErrors.dfy` | the bounded SSE/NDJSON reader over arbitrary chunks, the downstream budget tracker, what an item is on bytes, and which error is reported |
| `MetricEvents.dfy`, `RuntimeMetrics.dfy`, `MetricsProofs.dfy`, `MetricsAcceptance.dfy` | what event payloads say, and the runtime metrics report |
| `GovernanceStore.dfy` | the files of the governance-model revision store: names, bindings, reading, and the in-memory store |
| `GovernanceProtocol.dfy`, `GovernanceViews.dfy`, `GovernanceAnswers.dfy`, `GovernanceRuns.dfy` | updates, views and executions by any threads of any processes that may crash: what is published, what a call reads and answers, and runs that surprise |
| `RuntimeBudget.dfy`, `BudgetAuthority.dfy` | the budget compiler, limits and ceilings, and the authority that holds the current report |
| `LearningService.dfy` | the learning worker: wake generation, stop flag, attachment list |
| `IdempotencyCache.dfy` | the in-flight idempotency cache |
| `HttpIngress.dfy`, `HttpHeads.dfy` | HTTP/1.1 head ingress (sections 3, 5 and 6.3 of RFC 9112), and which texts are heads |
| `RequestIdentity.dfy` | request ids and length-prefixed framings |
| `Calendar.dfy`, `PercentCodec.dfy` | civil time and percent-encoding (sections 2.1 and 2.3 of RFC 3986) |
| `Text.dfy`, `Wrappers.dfy` | shared strings, numbers, `Option` and `Result` |

## How the models are built

Concurrent components are step systems. A state holds what the threads share, one position per thread, and a little
history (which tickets were armed, how often `notify` was called) that no step reads back. Every atomic access of the
source is one step, a lock is a step that waits, and a run is any sequence of enabled steps. The theorems quantify
over all runs. Objects whose fields the source updates in place are classes, and each method is proved against a
function on the object's abstract value; loops of the source are loops here.

Clocks, probe answers, I/O failures and crashes are inputs of the steps. UTF-8 validity, hashing, JSON and the
normalization of a governance configuration are function parameters, so every statement holds whatever they are; the
one hypothesis made is `GovernanceViews.Stable`, that a normalized configuration validates again when read back.

Seven properties one might expect do not hold as they stand. Each has its exact condition here:

- *Ending a lease completes only its own connection.* Connection ids are a wrapping 64-bit counter. Another
  connection is completed if and only if it holds that id by then (`CompletesOnlyItsOwn`), which cannot happen before
  2^64 ids were drawn; `ReusedIdCompletesAStranger` is a run in which it does.
- *The stream reader reports the same error for the same bytes.* One call does if and only if the first failing line
  is not one whose line budget breaks after the body budget would (`ErrorKindExactly`), and a whole run if and only if
  that holds of its first inadmissible item (`RunKindExactly`); `AmbiguousExample` is a stream of four bytes. Whether
  there is an error, and every item before it, never depends on chunking (`ChunkingIsInvisible`).
- *An update shows what it published.* It answers, after the lock is gone, with what was last stored into the cell of
  its process. It shows its own binding if and only if that last store was a refresh whose listing had its own
  revision and nothing newer (`UpdateAnswersExactly`); `UpdateShowsAnother` is a run in which it shows another
  update's configuration.
- *A view shows a binding that was the latest at some moment of the view.* What it reads itself was
  (`ReadersSeeALatest`). What it shows was if and only if the call that last stored into the cell had published or
  listed a revision as new as the view (`AnswersExactly`), so always when no other call has stored since its own
  refresh (`UndisturbedViewIsFresh`); `ViewShowsStale` is a run in which it was not.
- *Seconds convert to a civil time and back.* They do if and only if they lie before the end of year 2^31 - 1, where
  the year counter wraps (`EpochRoundTrip`, `FirstUncountedWraps`).
- *A notification wakes the worker.* The wake generation saturates. The worker goes to sleep exactly under the
  condition in `SleepDecision`, which loses notifications only once the counter it last read had saturated
  (`NoWakeIsLost`); `SaturationLosesWakes` is a run in which one is lost.
- *A current budget report is admissible.* It is except exactly when the probe answered with a snapshot that had
  already expired, which the snapshot checks let through (`CurrentReportIsAdmissible`); `ExpiredAnswerIsInstalled`
  gives such a configuration and answer.

## Model

| member | source | states |
|---|---|---|
| `NetworkFront.ConnectionReadDeadlines.Register` | crates/entry/src/network_front.rs:319-354 | arms a connection unless stopping or the id is taken, and changes nothing otherwise |
| `NetworkFront.ConnectionReadDeadlines.CompleteLease` | crates/entry/src/network_front.rs:356-359 | removes exactly that id and interrupts nobody |
| `NetworkFront.ConnectionReadDeadlines.StopAndInterruptAllReads` | crates/entry/src/network_front.rs:361-370 | sets stopping, empties the registry and interrupts exactly the reads that were armed |
| `NetworkFront.ConnectionReadDeadlines.RetainUnexpired` | crates/entry/src/network_front.rs:372-404 | an entry stays, unchanged, exactly if its expiry is still to come; exactly the others are interrupted |
| `NetworkFront.NextExpiry` | crates/entry/src/network_front.rs:372-404 | the minimum armed expiry, none exactly when nothing is armed |
| `NetworkFront.PermitsStep` | crates/entry/src/network_front.rs:173-263 | every step keeps `in_flight` equal to dispatching + queued + executing permits and at most `max_in_flight` |
| `NetworkFront.JobsStep` | crates/entry/src/network_front.rs:173-289 | every step keeps each accepted job in exactly one of queue, worker, finished, in acceptance order |
| `NetworkFront.LeaseEnds` | crates/entry/src/network_front.rs:406-416 | completing a lease keeps every armed connection accounted for: a lease that is over has left the registry, reused ids or not |
| `NetworkFront.InvAlways` | crates/entry/src/network_front.rs:173-404 | permit conservation, jobs once, channel, registry, stop and sleep invariants hold in every state of every run |
| `NetworkFront.SendAlwaysAccepts` | crates/entry/src/network_front.rs:173-207 | the queue-full and disconnected branches of the send are unreachable in every run |
| `NetworkFront.QuietFrontIsDrained` | crates/entry/src/network_front.rs:218-289 | in every run, when no call is running and all workers left, every accepted job was handled exactly once, every permit is back and every armed connection has left |
| `NetworkFront.JoinedFrontIsDrained` | crates/entry/src/network_front.rs:218-241 | after shutdown joined, the front is drained, also of jobs that were queued when it began, and every armed connection has left |
| `NetworkFront.DeparturesAreFinal` | crates/entry/src/network_front.rs:318-416 | in every run each armed connection is either registered or has left by completion, expiry or sweep, leaves once, and for good |
| `NetworkFront.StoppingIsFinal` | crates/entry/src/network_front.rs:319-370 | once stopping, nothing is armed again and the registry stays empty |
| `NetworkFront.SupervisorNeverOversleeps` | crates/entry/src/network_front.rs:372-404 | a sleeping supervisor wakes by every armed expiry (plus the time of its own pass) unless the arming call is about to notify it, and never sleeps through a notified stop |
| `NetworkFront.LeaseEndsExactly` | crates/entry/src/network_front.rs:356-359 | ending a lease makes another connection leave if and only if that connection holds its id |
| `NetworkFront.CompletesOnlyItsOwn` | crates/entry/src/network_front.rs:319-416 | the same for every step of every run that ends a lease; impossible while at most 2^64 ids were drawn |
| `NetworkFront.ReusedIdCompletesAStranger` | crates/entry/src/network_front.rs:319-359 | a run whose id counter wraps, in which ending one lease completes another connection |
| `NetworkOutcomes.LeavesExactly` | crates/entry/src/network_front.rs:318-416 | in every run a connection leaves the registry exactly at a supervisor pass past its deadline, at the sweep, or when a lease with its id ends, and for that reason |
| `NetworkOutcomes.PassKeepsExactly` | crates/entry/src/network_front.rs:379-386 | a supervisor pass keeps exactly the connections whose deadline is still to come |
| `NetworkOutcomes.ExpiresOnTime` | crates/entry/src/network_front.rs:183-197 | no read is interrupted for its deadline before the configured time has passed since its call took the time |
| `NetworkOutcomes.ReturnsExactly` | crates/entry/src/network_front.rs:173-207 | in every run a call returns each outcome exactly for its reason: sender gone, a full count compared, queued, or failed |
| `NetworkOutcomes.ToldShuttingDownExactly` | crates/entry/src/network_front.rs:177-179 | a call is told that the front is shutting down exactly if it began after the sender was taken |
| `NetworkOutcomes.RefusedOnlyWhenFull` | crates/entry/src/network_front.rs:243-263 | a call is refused as saturated only if every permit was taken at some moment of the call |
| `StreamReader.BoundedStreamReader.ReadBoundedLine` | crates/llm-gateway/src/budget_io.rs:254-291 | the chunk loop computes the chunked line reading |
| `StreamReader.BoundedStreamReader.FinishEvent` | crates/llm-gateway/src/budget_io.rs:293-300 | counts an event unless that passes the event budget |
| `StreamReader.BoundedStreamReader.NextSseEvent` | crates/llm-gateway/src/budget_io.rs:214-239 | the event loop computes the chunked event reading |
| `StreamReader.BoundedStreamReader.NextNdjsonLine` | crates/llm-gateway/src/budget_io.rs:241-252 | one line under the smaller of the line and event budgets |
| `StreamReader.ReadLineIsFlat` | crates/llm-gateway/src/budget_io.rs:254-291 | reading a line over any chunks is cutting the flat string at its first newline, with exact success conditions |
| `StreamReader.NextItemIsFlat` | crates/llm-gateway/src/budget_io.rs:214-308 | one call refines splitting the flat string, and fails exactly when the flat item breaks a budget, is not UTF-8, or the stream breaks first |
| `StreamReader.ChunkingIsInvisible` | crates/llm-gateway/src/budget_io.rs:214-300 | two chunkings of one stream give the same items in order and both end the same way |
| `StreamItems.ItemIsFirst` | crates/llm-gateway/src/budget_io.rs:214-252 | an item is exactly the shortest non-empty beginning of the bytes that ends one (a line feed; for SSE an empty line of either line ending), or the rest |
| `StreamItems.TerminatedExactly` | crates/llm-gateway/src/budget_io.rs:231-239 | bytes are a complete item exactly if they end one |
| `StreamItems.YieldsFirstItem` | crates/llm-gateway/src/budget_io.rs:214-300 | what one call yields from any chunks is the first item of the bytes, and of a broken stream only one that has ended |
| `StreamErrors.LineKind` | crates/llm-gateway/src/budget_io.rs:254-291 | outside the ambiguous lines the reported error, or its absence, is a function of the flat string |
| `StreamErrors.AmbiguousLine` | crates/llm-gateway/src/budget_io.rs:272-281 | on every ambiguous line two chunkings of the same bytes report different errors |
| `StreamErrors.ItemKind` | crates/llm-gateway/src/budget_io.rs:214-300 | the same function for whole events and NDJSON lines |
| `StreamErrors.AmbiguousItem` | crates/llm-gateway/src/budget_io.rs:272-281 | on every ambiguous event or line two chunkings of the same bytes report different errors |
| `StreamErrors.ErrorKindExactly` | crates/llm-gateway/src/budget_io.rs:214-300 | all chunkings of a stream report the same kind if and only if it is not ambiguous, for both protocols |
| `StreamErrors.AmbiguousRun` | crates/llm-gateway/src/budget_io.rs:214-300 | if the first inadmissible item of a stream is ambiguous, two chunkings of the stream end their runs with different errors |
| `StreamErrors.RunKindExactly` | crates/llm-gateway/src/budget_io.rs:214-300 | all chunkings of a stream end their runs the same way if and only if its first inadmissible item is not ambiguous |
| `StreamErrors.AmbiguousExample` | crates/llm-gateway/src/budget_io.rs:272-281 | one ambiguous stream, with both errors |
| `StreamReader.DrainCutsTheString` | crates/llm-gateway/src/budget_io.rs:214-300 | a run yields the items of the stream up to the first inadmissible one, and completes exactly when there is none |
| `StreamReader.DrainKeepsBudgets` | crates/llm-gateway/src/budget_io.rs:214-300 | the items concatenate to a prefix (all, when complete) and line, event, count and total budgets are kept |
| `StreamReader.BlankLineEndsTheEvent` | crates/llm-gateway/src/budget_io.rs:214-239 | a blank line occurs only as the last line of an event, and an event ends in one or takes the rest of the stream |
| `StreamReader.LinesWithinEach` | crates/llm-gateway/src/budget_io.rs:254-291 | the line budget is a budget on every line |
| `StreamReader.StreamBudgetTracker.ObserveChunk` | crates/llm-gateway/src/budget_io.rs:72-98 | the tracker's checks in order, with the totals each outcome leaves |
| `StreamReader.TrackerAgrees` | crates/llm-gateway/src/budget_io.rs:72-98 | whatever the reader emits the tracker accepts item by item, with equal running totals |
| `StreamReader.BoundedWriteCounter.Write` | crates/llm-gateway/src/budget_io.rs:166-193 | a write counts entirely or is refused and counts nothing |
| `StreamReader.ValidateJson` | crates/llm-gateway/src/budget_io.rs:101-108 | serializing in any pieces succeeds exactly when the whole document fits both limits |
| `RuntimeMetrics.BuildRuntimeMetricsReport` | crates/core/src/metrics.rs:82-272 | the passes over identities, sorted events, summaries, raw writes and lifecycle events compute the report function |
| `RuntimeMetrics.CountEvents` | crates/core/src/metrics.rs:164-272 | the two counting passes compute their folds, errors included |
| `RuntimeMetrics.Completion` | crates/core/src/metrics.rs:336-396 | a lifecycle event validates as succeeded or failed exactly by its payload: typed success, the matching result, finalize flags in order, and a failed one claims nothing |
| `RuntimeMetrics.WriteChange` | crates/core/src/metrics.rs:305-334 | a lifecycle write validates exactly if it failed or is a summary, and a summary gives its change count |
| `MetricsProofs.SortStrict` | crates/core/src/metrics.rs:88-106 | unique ids make the (timestamp, id) sort strict |
| `MetricsProofs.OrderIsInvisible` | crates/core/src/metrics.rs:88-272 | the whole result, report or error, is the same for every permutation of the events |
| `MetricsProofs.SummariesAreDistinct` | crates/core/src/metrics.rs:108-133 | changed summaries belong to pairwise different transactions |
| `MetricsProofs.RawsCover` | crates/core/src/metrics.rs:135-162 | the raw entries are exactly the raw identities, and their counts the raw events |
| `MetricsProofs.WritesCountOnce` | crates/core/src/metrics.rs:108-260 | `write_count` is the number of distinct write identities at or after the start of the window, `write_changed_count` the saturated sum of their changes and no smaller; hits, injections and commits never exceed their requests |
| `MetricsProofs.IdentitiesCounted` | crates/core/src/metrics.rs:108-193 | a transaction counts if its summary reports a change in the window, or if it has no summary and a memory write in the window; a write without transaction counts for itself |
| `MetricsProofs.ReportRepeatsTheQuery` | crates/core/src/metrics.rs:262-272 | the report repeats the query and the evidence |
| `MetricsProofs.MetersCountEvents` | crates/core/src/metrics.rs:194-260 | each other counter is the saturated number of the successful events whose payload says so |
| `MetricsProofs.LatestIsGreatest` | crates/core/src/metrics.rs:212-268 | the latest projection is the maximum in (timestamp, id) order, and absent exactly when there is none |
| `MetricsProofs.FailedEventsClaimNothing` | crates/core/src/metrics.rs:336-396 | a lifecycle event that validates as failed carries none of the outcomes counted for successful ones |
| `MetricsAcceptance.AcceptedExactly` | crates/core/src/metrics.rs:82-330 | a report is built if and only if the evidence adds up, every event has a name of its own and the payloads are consistent, said of the events alone |
| `MetricsAcceptance.SummariesAccept` | crates/core/src/metrics.rs:108-133 | the summary pass succeeds exactly when every changed write names a transaction and no two share one |
| `MetricsAcceptance.RawsAccept` | crates/core/src/metrics.rs:135-162 | the raw pass succeeds exactly when no identity has two timestamps, and keeps exactly the (identity, timestamp) pairs |
| `MetricsAcceptance.OwnersAgree` | crates/core/src/metrics.rs:164-193 | the counting pass refuses exactly a raw write whose summary reports no change or another time |
| `MetricsAcceptance.OwnedWriteIsInvisible` | crates/core/src/metrics.rs:164-193 | dropping a raw write owned by a summary changes the evidence counts and nothing else |
| `GovernanceStore.ParseInvertsName` | crates/entry/src/governance_model.rs:700-711 | parsing a file name gives a revision exactly when the name is that revision's own, over all of u64 |
| `GovernanceStore.CollectRevisions` | crates/entry/src/governance_model.rs:656-684 | the listing loop finds exactly the revisions, and stops exactly at an unexpected name |
| `GovernanceStore.ReadLatestBinding` | crates/entry/src/governance_model.rs:649-698 | reads the greatest listed revision and validates it |
| `GovernanceStore.LatestIsLast` | crates/entry/src/governance_model.rs:649-698 | over a sound directory the latest binding is the last one published |
| `GovernanceProtocol.InvAlways` | crates/entry/src/governance_model.rs:231-266 | in every run of updates, views, executions, failures and crashes: files match the publications, one lock holder, the holder's pending work fits the log, and each call is in a phase of what it was asked |
| `GovernanceProtocol.PublishedExactly` | crates/entry/src/governance_model.rs:512-524 | the published revisions are always exactly 1..n, each whole and carrying its own number, with no foreign file |
| `GovernanceProtocol.RevisionsAreImmutable` | crates/entry/src/governance_model.rs:728-786 | a published file never changes |
| `GovernanceProtocol.CallsPublishOnce` | crates/entry/src/governance_model.rs:231-266 | a call publishes nothing or exactly one revision, an update that returns Ok has published, and a reader never does |
| `GovernanceProtocol.CutShortMayHavePublished` | crates/entry/src/governance_model.rs:772-785 | a call that fails or crashes has published exactly when it had come past the rename: a failing update, exactly when it was syncing the directory |
| `GovernanceViews.FailuresAreHonest` | crates/entry/src/governance_model.rs:231-266 | an update fails only on I/O, its own configuration or exhausted revisions, a reader on I/O or on what is shown; conflict, foreign file and unreadable revision are unreachable |
| `GovernanceViews.BlockedOnlyByIo` | crates/entry/src/governance_model.rs:172-192 | a view is blocked only by an I/O failure of its own |
| `GovernanceViews.ListingsAreAllowed` | crates/entry/src/governance_model.rs:656-684 | every listing that sees each name present throughout and none absent throughout, while others publish, is one the steps allow |
| `GovernanceViews.ReadersSeeALatest` | crates/entry/src/governance_model.rs:385-392 | what a call reads without the lock was the latest binding at some moment since its view began, and is no older than what it published |
| `GovernanceViews.ReadsItsOwn` | crates/entry/src/governance_model.rs:385-392 | what an update reads back is its own publication if and only if its listing had nothing newer |
| `GovernanceAnswers.CellIsLastStore` | crates/entry/src/governance_model.rs:231-266 | a written cell holds exactly what the last storing step of its process stored, with no crash of the process since |
| `GovernanceAnswers.AnswersExactly` | crates/entry/src/governance_model.rs:172-229 | a call answers with what was last stored into the cell of its process; that was the latest binding at some moment of its view if and only if the call that stored it had published or listed a revision as new as the view |
| `GovernanceAnswers.UndisturbedViewIsFresh` | crates/entry/src/governance_model.rs:172-192 | a view that nothing was stored over since its own refresh shows what it read, the latest at some moment of it |
| `GovernanceAnswers.UpdateAnswersExactly` | crates/entry/src/governance_model.rs:231-266 | an update shows its own binding if and only if the last store into the cell before its answer was a refresh whose listing had its own revision and nothing newer; no older one if that refresh was its own |
| `GovernanceAnswers.ExecutesExactly` | crates/entry/src/governance_model.rs:316-332 | an execution returns the last stored binding exactly if it is enabled, and says disabled or not configured exactly otherwise |
| `GovernanceAnswers.OnlyEnabledExecutes` | crates/entry/src/governance_model.rs:316-332 | in every run nothing but an enabled binding is ever executed |
| `GovernanceAnswers.FailsExactly` | crates/entry/src/governance_model.rs:172-192 | an I/O failure shows as a blocked view, or as an error of an execution or of an update that has not come to its view |
| `GovernanceRuns.UpdateShowsAnother` | crates/entry/src/governance_model.rs:237-265 | a run in which an update returns another update's configuration |
| `GovernanceRuns.ViewShowsStale` | crates/entry/src/governance_model.rs:172-192 | a run in which a view shows a binding that was not the latest at any moment of it |
| `GovernanceProtocol.ExecutionIsStable` | crates/entry/src/governance_model.rs:334-375 | what a revision executes as never changes: the binding published under it if that is valid and enabled, with each refusal exact, and missing exactly until published |
| `GovernanceProtocol.UpdatePublishesItsConfig` | crates/entry/src/governance_model.rs:231-266 | whatever interleaves, a call publishes nothing but the normalized configuration it was asked for, and nothing if that is invalid |
| `GovernanceStore.EphemeralStore.constructor` | crates/entry/src/governance_model.rs:136-170 | an in-memory store starts without revisions |
| `GovernanceStore.EphemeralStore.Update` | crates/entry/src/governance_model.rs:252-261 | publishes the next revision exactly when the configuration is valid and revisions are left, and changes nothing otherwise |
| `GovernanceStore.EphemeralStore.BindingForRevision` | crates/entry/src/governance_model.rs:334-375 | finds every published enabled revision and nothing else |
| `RuntimeBudget.ValueBounds` | crates/core/src/budget.rs:884-1354 | every field is at most its profile ceiling, and at least its floor except exactly under a lower provider limit on rendering |
| `RuntimeBudget.ValueExactly` | crates/core/src/budget.rs:884-1354 | every field is exactly what the deepest cut by pressure, memory or storage leaves of its ceiling, its floor or the provider's limit; the fixed ones are never cut |
| `RuntimeBudget.CeilingMonotone` | crates/core/src/budget.rs:884-1354 | a profile row that has no less of anything has no lower ceiling for any field |
| `RuntimeBudget.ScaleMonotone` | crates/core/src/budget.rs:2063-2065 | scaling is monotone in the percentage, also where the multiplication saturates |
| `RuntimeBudget.CompileMonotone` | crates/core/src/budget.rs:884-1354 | more memory or storage and less pressure never lower any field or derived limit |
| `RuntimeBudget.EveryCutIsExplained` | crates/core/src/budget.rs:884-927 | a report without a limiting label is the profile ceiling, field by field |
| `RuntimeBudget.LabelsExactly` | crates/core/src/budget.rs:884-927 | each label is there exactly for its reason |
| `BudgetAuthority.CompileIsWellFormed` | crates/core/src/budget.rs:2323-2454 | every compiled budget is positive, keys cover the namespace, multi-hop needs two hops, rendered at most selected, message attributes at most turn attributes, evidence derived |
| `BudgetAuthority.LimitsKeepWellFormed` | crates/core/src/budget.rs:1728-1884 | validated non-production limits keep that |
| `BudgetAuthority.LimitsExactly` | crates/core/src/budget.rs:1728-1884 | limits lower each field to its limit and nothing else, and forbid the hops they do not allow |
| `BudgetAuthority.LimitIsExplained` | crates/core/src/budget.rs:1728-1884 | no label is lost, and those of the limits that bind are added |
| `BudgetAuthority.LimitLabelPlaces` | crates/core/src/budget.rs:1728-1884 | each limit has its own label, there exactly if it is below one of its fields |
| `BudgetAuthority.CeilingKeepsWellFormed` | crates/core/src/budget.rs:1669-1713 | so does the admission ceiling |
| `BudgetAuthority.CeilingIsIdempotent` | crates/core/src/budget.rs:1669-1713 | the ceiling step is the pointwise minimum on store fields, leaves the rest, and applying it again does nothing |
| `BudgetAuthority.CeilingIsExplained` | crates/core/src/budget.rs:1669-1684 | the ceiling's label is there exactly when it lowered a store field, and no other label is lost |
| `BudgetAuthority.SortedLabelsKeep` | crates/core/src/budget.rs:1679-1680 | sorting and deduplicating keeps exactly the labels, in order, once each |
| `BudgetAuthority.EvidenceFits` | crates/core/src/budget.rs:2022-2049 | chunk, body, document and transaction bytes are ordered, the last is half the snapshot, and documents times envelope fit the key-value budget exactly when one envelope fits |
| `BudgetAuthority.StaleBuysNoMore` | crates/core/src/resource.rs:111-118 | a snapshot marked stale never buys more than the fresh one |
| `BudgetAuthority.HeldReportIsGood` | crates/core/src/budget.rs:599-749 | after any run of calls and probe answers the held report is the compilation of the held snapshot capped by the first store budget, well-formed, with its evidence derived and its id covering its payload |
| `BudgetAuthority.CurrentReportIsAdmissible` | crates/core/src/budget.rs:328-343 | after any run, the current report is admissible at that time if and only if the probe did not answer with an already expired snapshot |
| `BudgetAuthority.ExpiredAnswerIsInstalled` | crates/core/src/budget.rs:655-703 | a valid configuration and a probe answer that passes the checks, after which the current report is not admissible |
| `BudgetAuthority.RuntimeBudgetAuthority.constructor` | crates/core/src/budget.rs:623-645 | the first report fixes the ceiling |
| `BudgetAuthority.RuntimeBudgetAuthority.Install` | crates/core/src/resource.rs:449-452 | snapshot and report are replaced together and stay consistent |
| `BudgetAuthority.RuntimeBudgetAuthority.Current` | crates/core/src/budget.rs:655-703 | the state after asking for the report, and when it is admissible |
| `BudgetAuthority.RuntimeBudgetAuthority.Renew` | crates/core/src/budget.rs:709-738 | a refresh installs a usable snapshot; a failed one changes nothing |
| `BudgetAuthority.Open` | crates/core/src/budget.rs:1385-1625 | an authority exists exactly for valid limits, a configuration whose manifest, target, role, probe source and medium agree, and a first snapshot that passes the checks |
| `LearningService.AttachmentList.Attach` | crates/entry/src/learning_service.rs:581-642 | decides in the source's order, appends only a new identity of the same authority within capacity whose binding installs, keeps the count |
| `LearningService.AttachmentList.Detach` | crates/entry/src/learning_service.rs:1017-1037 | keeps the list while others share the attachment, else removes exactly that one; the list stays sound and counted |
| `LearningService.RefuseKeepsRegistry` | crates/entry/src/learning_service.rs:616-624 | an attachment whose binding does not install leaves the registry sound |
| `LearningService.AttachesExactly` | crates/entry/src/learning_service.rs:581-642 | an attach call is approved exactly if the service runs and the identity is new, of the same authority and within capacity, and is then attached |
| `LearningService.DetachesExactly` | crates/entry/src/learning_service.rs:1017-1037 | a detach call takes away exactly its attachment |
| `LearningService.PassVisitsEach` | crates/entry/src/learning_service.rs:1061-1075 | a pass runs the cycle of each of its attachments once, in order, and remembers exactly whether one reported progress |
| `LearningService.InvAlways` | crates/entry/src/learning_service.rs:1058-1088 | registry, wake handshake and stop invariants hold in every state of every run |
| `LearningService.NoWakeIsLost` | crates/entry/src/learning_service.rs:383-387 | unless the counter it last read had saturated, an unsignalled sleeping worker began its last pass after every notification, had every notified attachment in it, and no stop call has returned |
| `LearningService.SleepDecision` | crates/entry/src/learning_service.rs:1075-1088 | exactly when the worker goes to sleep |
| `LearningService.SaturationLosesWakes` | crates/entry/src/learning_service.rs:383-387 | a run in which the worker goes to sleep although it was notified after its last pass began |
| `LearningService.StopEndsTheWorker` | crates/entry/src/learning_service.rs:1058-1088 | once the stop flag is set, the worker is done after at most three steps of its own, whatever else happens |
| `LearningService.StopReturnedEndsTheWorker` | crates/entry/src/learning_service.rs:857-866 | once a stop call has returned, every worker step brings it nearer its end, at most two steps away, except exactly when it is about to sleep over a saturated counter |
| `LearningService.StoppedListOnlyShrinks` | crates/entry/src/learning_service.rs:581-593 | once the stop flag is set the attachments never grow |
| `LearningService.ListIsAlwaysSound` | crates/entry/src/learning_service.rs:594-642 | identities are distinct, of one authority and within capacity, and the reported count is exact whenever the lock is free |
| `IdempotencyCache.EntryIdempotencyCache.constructor` | crates/entry/src/idempotency.rs:34-39 | an empty cache |
| `IdempotencyCache.EntryIdempotencyCache.Reserve` | crates/entry/src/idempotency.rs:41-75 | the records stay exactly the live keyed reservations; each refusal names its cause among the live ones |
| `IdempotencyCache.EntryIdempotencyCache.Release` | crates/entry/src/idempotency.rs:84-98 | a drop always finds its own record and frees exactly its key |
| `IdempotencyCache.ReserveKeeps` | crates/entry/src/idempotency.rs:41-75 | one holder a key and at most `max_keys` records after a reservation |
| `IdempotencyCache.DropKeeps` | crates/entry/src/idempotency.rs:84-98 | the same after a drop |
| `IdempotencyCache.AllDroppedIsEmpty` | crates/entry/src/idempotency.rs:84-98 | with no keyed reservation alive the map is empty |
| `HttpIngress.AcceptedStream.ReadHead` | crates/entry/src/http_ingress.rs:225-245 | takes exactly the shortest prefix ending in CRLFCRLF within the header budget; each failure says what was consumed |
| `HttpIngress.ParseHeaderLines` | crates/entry/src/http_ingress.rs:269-297 | the header loop computes the header fold, errors included |
| `HttpIngress.AcceptedStream.ReadAuthorizedRequest` | crates/entry/src/http_ingress.rs:201-223 | takes head plus content-length on success, not one byte past the head unless authorized, and says which error and how much was taken in every other case |
| `HttpIngress.ParsedIsAccepted` | crates/entry/src/http_ingress.rs:247-321 | what every accepted head is: token method, target, trimmed lower-case headers, host, no transfer-encoding, length within budget |
| `HttpHeads.ParsedExactly` | crates/entry/src/http_ingress.rs:247-321 | a head is read from a text exactly if its lines are that head: request line, one field a name, host, no transfer-encoding, length |
| `HttpHeads.HeadersExactly` | crates/entry/src/http_ingress.rs:269-297 | header lines are taken exactly if each is a field or empty and no name occurs twice, and then give what they say |
| `HttpHeads.RequestLineExactly` | crates/entry/src/http_ingress.rs:252-268 | a request line is a token, a target without spaces and the version |
| `HttpHeads.RefusedLine` | crates/entry/src/http_ingress.rs:252-268 | which part of a request line is refused |
| `HttpHeads.TokenCharsExactly` | crates/entry/src/http_ingress.rs:333-344 | token characters are the visible ones that are not delimiters (section 5.6.2 of RFC 9110) |
| `HttpIngress.AcceptedHeadsReparse` | crates/entry/src/http_ingress.rs:247-344 | printing an accepted head with its headers in any order and parsing it again gives the same head |
| `HttpIngress.PrintedHeadIsRead` | crates/entry/src/http_ingress.rs:225-344 | whatever follows it on the wire, the encoded print ends at the first CRLFCRLF, so reading takes exactly it, and parses to the same head |
| `RequestIdentity.RequestIdInjective` | crates/adapter/src/contract.rs:116-120 | transport, owner and request number can be read back from an id |
| `RequestIdentity.AnswersExactly` | crates/adapter/src/contract.rs:98-138 | a call is answered exactly if source and principal have a name, no counter is exhausted and an explicit key is not blank; each refusal has its own reason |
| `RequestIdentity.RequestIdsAreDistinct` | crates/adapter/src/contract.rs:83-158 | no two calls of a process are answered with the same id, in any interleaving of owners; exhaustion refuses instead |
| `RequestIdentity.FramesInjective` | crates/adapter/src/contract.rs:140-150 | length-prefixed framing determines the fields, their number and order |
| `RequestIdentity.KeyMaterial` | crates/adapter/src/contract.rs:140-150 | the update loop hashes the framing of domain, mode and fields |
| `RequestIdentity.KeyMaterialInjective` | crates/adapter/src/contract.rs:140-150 | the material determines mode and fields |
| `RequestIdentity.OperationMaterialInjective` | crates/adapter/src/contract.rs:803-833 | the fingerprint material determines operation and payload |
| `Calendar.DaysFromEpoch` | crates/core/src/util.rs:430-444 | the year and month loops compute the day number |
| `Calendar.EpochToCivil` | crates/core/src/util.rs:447-477 | the division and search loops compute the civil time, with the year wrapping at 32 bits |
| `Calendar.CivilToEpoch` | crates/core/src/util.rs:480-483 | seconds in 64-bit arithmetic |
| `Calendar.EpochRoundTrip` | crates/core/src/util.rs:447-483 | a second converts back to itself if and only if its year fits in 32 bits, and then has a real civil time |
| `Calendar.FirstUncountedWraps` | crates/core/src/util.rs:452-460 | the first second that does not: its year wraps to the least 32-bit integer |
| `Calendar.RoundTripExactly` | crates/core/src/util.rs:425-483 | civil fields survive the round trip if and only if they are a real time from 1970 on |
| `Calendar.OrderIsKept` | crates/core/src/util.rs:425-483 | the order of civil times is the order of seconds |
| `Calendar.SecondsExactly` | crates/core/src/util.rs:425-483 | the seconds of a real time in closed form, by the Gregorian leap rule and the lengths of the months |
| `PercentCodec.PercentEncodeQuery` | crates/core/src/util.rs:132-150 | the encoding loop computes the encoding |
| `PercentCodec.PercentDecodeQuery` | crates/core/src/util.rs:179-209 | the decoding loop computes the decoding, passed through the lossy text conversion |
| `PercentCodec.DecodeInvertsEncode` | crates/core/src/util.rs:132-209 | decoding inverts encoding on every byte string |
| `PercentCodec.TripleDecodes` | crates/core/src/util.rs:179-209 | a percent sign with two hexadecimal digits of either case is one byte |
| `PercentCodec.OtherBytesDecode` | crates/core/src/util.rs:179-209 | a plus sign is a space, and a byte that begins no triple is itself |
| `PercentCodec.UnreservedExactly` | crates/core/src/util.rs:132-150 | exactly letters, digits and `-._~` are encoded as themselves |
| `PercentCodec.QueryRoundTrip` | crates/core/src/util.rs:132-209 | decoding the encoding of a text gives the text, the lossy conversion included |
| `PercentCodec.EncodingIsCanonical` | crates/core/src/util.rs:132-150 | only unreserved bytes and well-formed lower-case triples, never `+` or a space |
| `PercentCodec.EncodeInvertsDecode` | crates/core/src/util.rs:132-209 | a canonical text is an encoding exactly when no triple hides an unreserved byte |

## Left out

- Sockets, real time, thread scheduling, fsync durability and operating-system locks: they are steps, inputs or an atomic rename, and a crash releases the lock. Power loss is not modelled.
- SHA-256, serde JSON, URL parsing, Unicode encoding, decoding and lossy conversion: parameters. Framing injectivity is proved, collision resistance is not.
- GovernanceViews.FailuresAreHonest: assumes that normalization is stable (`GovernanceViews.Stable`); without it a reader may also report an invalid stored configuration. `GovernanceViews.BlockedOnlyByIo` assumes the same.
- GovernanceProtocol: the value `open` first puts into the cell, which no call answers from because every answer follows a refresh of the call's own; mutex poisoning; and the fields views and probe plans copy out of a binding.
- Calendar.EpochToCivil: the year wraps as in a release build; the overflow panic of a debug build is not modelled.
- LearningService.AttachmentList.Detach: the reference count is an input, so nothing is claimed about which detach calls see a low one.
- What an attachment cycle does inside the learning engine: it reports progress or not.
- RuntimeBudget: `projection_render_chars_for_request`, the retention quota report, the transcript query budget and the benchmark capacity extension only copy or clamp single fields.
- BudgetAuthority.Open: error texts are not modelled.
- The pressure level is an input: deriving it from memory is not monotone, so it is no part of the monotonicity result.
- RequestIdentity: key texts around the hashes and audit ids, which only prefix what is modelled.
- HttpIngress: the authentication decision itself; it is a predicate on the head.
- The SDK runtime, the store kernel, console views, command-line parsing, agent-rule and A2A rendering, credential scrubbing, floating-point scoring and the replay build scripts: user interface, I/O, easy members or no crisp specification.
