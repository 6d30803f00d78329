# CPA Usage Keeper: verified model

CPA Usage Keeper collects usage events and quota facts from a proxy and turns them into tables, charts and
prices. This project models the parts of it that carry state or delicate arithmetic, in Dafny, and proves
what they promise. Each model keeps the branches, limits and error paths of the code it stands for. What
the code updates in place is a class or a loop here, proved equal to a function; the properties are lemmas
about those functions, over every input, every interleaving or every run.

| module | models |
|---|---|
| `QuotaHistory`, `QuotaHistoryAcceptance`, `QuotaHistoryWritten`, `QuotaHistoryInvariants`, `QuotaHistoryRuns`, `QuotaHistoryArrival`, `QuotaHistoryBoundaries`, `QuotaHistoryProgress`, `QuotaHistoryChronology`, `QuotaHistoryOverlaps`, `QuotaHistoryRunner` | the quota history batch: current cycles, deferred equal-percentage tails, pending segments, flush |
| `AggregationStore`, `AggregationRunner`, `AggregationSafety`, `AggregationProgress`, `AggregationMeaning`, `UsageRows`, `UsageRowsMeaning` | the aggregation runner: three cursors, targets, identity scans, and the rows they stand for |
| `LatencySketch`, `SketchCodec`, `Sketches`, `LatencySample`, `SampleCodec`, `SampleSets`, `SplitMix`, `Varint`, `CodecMeaning`, `LatencyRows`, `LatencyStore`, `LatencyTable`, `LatencyMeaning` | the mergeable latency sketch, the bounded sample, their binary forms, and the table of rows of both |
| `ActivityGrain` | activity buckets and windows over fixed seconds and local days |
| `Pricing`, `PricingMeaning`, `PricingSafety`, `PricingLaws`, `PricingCompiler` | the price compiler and the cost of a request |
| `HeaderCache`, `HeaderCacheLaws`, `HeaderCacheNewest`, `HeaderCachePlan`, `HeaderCacheMeaning`, `HeaderWindow` | the one-minute window of response-header snapshots |
| `Resp`, `RespLaws`, `RespReplies`, `RespReader` | the RESP2 writer and reader of the queue client |
| `MetadataSync` | the metadata refresh debounce |
| `UsageDimensions`, `Text`, `Sorting`, `Wrappers` | what usage is grouped and priced by; string, sorting and option helpers |

`dafny verify dfyconfig.toml` checks the whole project.

## Reading guide

- The state machines with more than one thread (`AggregationSafety`, `MetadataSync`) are step relations: an
  `Action` per critical section or environment event, `Enabled`, `Next`, and theorems over every possible
  sequence of actions. Loads, writes, lookups and inbox checks may fail at every point where they are made.
- `QuotaHistoryAcceptance`, `QuotaHistoryWritten`, `RespReplies` and the modules whose names end in `Meaning`
  say what the other modules' functions compute: in the fields of what went in, with constants written out, and
  without the functions that compute it.
- Database contracts are those of the repository functions: a page holds the lowest ids of a range, a write
  adds its rows and moves its cursor together or not at all, a list of identities is ascending.
- Time is integer nanoseconds; local days are any strictly increasing sequence of whole-second midnights at
  least 364 seconds apart. Costs, gamma powers and percentages are exact reals.

## Where code and expectation part

- The cycle test takes a reset 2^63 ns (about 292 years) or more ahead for the same cycle, because the
  clamped difference cannot be negated (`QuotaHistoryInvariants.SameCycleExactly`, `QuotaHistoryInvariants.FarResetTakenForSameCycle`).
- A deferred tail need not carry the reset boundary of its window (`QuotaHistoryBoundaries.TailBoundaryMayDiffer`);
  `QuotaHistoryBoundaries.TailBoundaryExactly` says when it does.
- The percentile rank is computed in 64 bits and is the nearest rank exactly while `count*95+99` does not wrap
  (`LatencySketch.RankExact`, `LatencySketch.RankWraps`).
- Uncached input tokens wrap to a positive count when cache tokens exceed input by more than 2^63
  (`PricingLaws.NormalInputExact`, `PricingLaws.WrapWitness`), and a group's price is the sum of its events'
  prices exactly under the condition of `PricingLaws.GroupPriceExact` (not in `PricingLaws.GroupPriceDiffers`).
- The comment on metadata synchronization says that a failed attempt is tried again by the existing schedule;
  in notification mode it is tried again exactly if something else had been left to act on
  (`MetadataSync.RetriedExactly`, `MetadataSync.FailureIsNotRetried`).
- The plan type in the header window may depend on arrival order (`HeaderCachePlan.PlanTypeDependsOnOrder`);
  `HeaderCachePlan.PlanAnyOrderExactly` says when it does not.
- Decoders accept padded varints, so decoding and encoding again need not return the same bytes; it does exactly
  for unpadded ones (`SketchCodec.SketchReencodeIff`, `SampleCodec.SampleReencodeIff`; `SketchCodec.PaddedSketch`,
  `SampleCodec.PaddedSample`).

## Model

| member | source | states |
|---|---|---|
| `QuotaHistoryRuns.Ledger` | internal/quota/codex_quota_history_scheduler.go:105-132 | over any run of batches, whatever loads, identity lookups and writes do: accepted observations of a window = written + lost with a failed write + still deferred |
| `QuotaHistoryRuns.LedgerWithoutFailures` | internal/quota/codex_quota_history_scheduler.go:452-503 | with every write succeeding, accepted = written + deferred, and after a final shutdown batch everything accepted is written |
| `QuotaHistoryRuns.ProcessConserves` | internal/quota/codex_quota_history_scheduler.go:105-132 | one batch conserves counts per window: accepted + deferred before = handed to the writer + deferred after |
| `QuotaHistoryRuns.MergeHeld` | internal/quota/codex_quota_history_scheduler.go:218-359 | an accepted candidate adds exactly its count to what is pending and deferred for its window, a refused one adds nothing, and no other window changes its count |
| `QuotaHistoryRuns.AcceptedUnreported` | internal/quota/codex_quota_history_scheduler.go:333-359 | a candidate is accepted although the merge reports no change if and only if it repeats the percentage of a window without a live segment, and then only that window's deferred tail changes |
| `QuotaHistoryRuns.ShutdownEmptiesStable` | internal/quota/codex_quota_history_scheduler.go:407-435 | a shutdown batch leaves no deferred tail, even if its write fails |
| `QuotaHistoryRuns.SurvivorsNotDue` | internal/quota/codex_quota_history_scheduler.go:407-435 | a tail that survives a batch was not due, not marked immediate, and shares no response with anything the batch wrote |
| `QuotaHistoryRuns.FinishSettles` | internal/quota/codex_quota_history_scheduler.go:452-503 | after every flush, successful or not, no pending index is live and every deferred tail mirrors its window |
| `QuotaHistoryRuns.RunSettled` | internal/quota/codex_quota_history_scheduler.go:105-132 | the settled state holds after every run from an empty state |
| `QuotaHistoryRuns.FlushStores` | internal/quota/codex_quota_history_scheduler.go:452-503 | what a flush leaves: submitted tails gone either way, submitted windows re-clocked on success and forgotten on failure |
| `QuotaHistoryInvariants.MergeAllInv` | internal/quota/codex_quota_history_scheduler.go:111-118 | in every state of the merge loop a live pending index points at a segment of its own window that agrees with it on window, reset, source, percentage and last instant |
| `QuotaHistoryInvariants.MergeInv` | internal/quota/codex_quota_history_scheduler.go:218-359 | one candidate keeps that invariant in every branch |
| `QuotaHistoryInvariants.DeferredOrPending` | internal/quota/codex_quota_history_scheduler.go:333-352 | a window never has both a deferred tail and a live segment in the batch |
| `QuotaHistoryInvariants.SameCycleExactly` | internal/quota/codex_quota_history_runner.go:239-253 | two resets belong to one cycle if and only if they lie within two minutes, or the new one lies 2^63 ns or more ahead, where the clamped difference does not negate |
| `QuotaHistoryInvariants.FarResetTakenForSameCycle` | internal/quota/codex_quota_history_runner.go:239-253 | a concrete Header with a reset 292 years ahead that passes for the same cycle and is refused as a rise |
| `QuotaHistoryBoundaries.TailBoundaryExactly` | internal/quota/codex_quota_history_scheduler.go:333-394 | after any run, and in every state of the batch that follows it, a deferred tail carries its window's reset boundary if and only if one of the observations it took was authoritative, or the boundary the window had when the tail was opened and that of the first observation give way to the same one; batches in between do not matter |
| `QuotaHistoryBoundaries.RunTold` | internal/quota/codex_quota_history_scheduler.go:105-132 | over any run, tail and window carry what folding the observations of the tail's story gives |
| `QuotaHistoryBoundaries.BothStep` | internal/quota/codex_quota_history_scheduler.go:309-394 | windows and tails take over an observation's boundary by one rule: an authoritative one replaces any, an absolute one a relative one |
| `QuotaHistoryBoundaries.BoundariesKept` | internal/quota/codex_quota_history_scheduler.go:452-503 | a tail that outlives a batch keeps its boundary, and so does its window |
| `QuotaHistoryBoundaries.TailBoundaryMayDiffer` | internal/quota/codex_quota_history_scheduler.go:378-394 | they may differ: a concrete Header whose reset only the tail records |
| `QuotaHistoryProgress.NeverBack` | internal/quota/codex_quota_history_scheduler.go:259-359 | over any run, while a window stays in memory, its last observed instant never goes back |
| `QuotaHistoryProgress.RisesOnlyTrusted` | internal/quota/codex_quota_history_scheduler.go:270-332 | over any run, while a window stays in memory, its percentage ends higher only through an accepted observation of at least that percentage which is authoritative or starts a later cycle |
| `QuotaHistoryArrival.AnyArrivalOrder` | internal/quota/codex_quota_history_scheduler.go:105-155 | with distinct instants per window, a batch has the same state, accepted and submitted segments for every order in which its candidates arrive |
| `QuotaHistoryChronology.Chronology` | internal/quota/codex_quota_history_scheduler.go:105-132 | over any run of point observations, the segments stored for a window since it was last loaded are ordered, do not overlap, and end by the remembered instant |
| `QuotaHistoryChronology.ClearChronology` | internal/quota/codex_quota_history_scheduler.go:105-132 | the same for any observations, as long as no segment is opened behind a tail before that tail ends |
| `QuotaHistoryOverlaps.OrderExactly` | internal/quota/codex_quota_history_scheduler.go:218-375 | after such a run what is stored of every window lies in order below its floor, and the next candidate leaves pending and deferred segments in order above the floors if and only if it opens no segment before the end of its window's tail |
| `QuotaHistoryOverlaps.SpanOverlaps` | internal/quota/codex_quota_history_scheduler.go:355-359 | a concrete run with a span of two instants that stores two overlapping segments |
| `QuotaHistoryChronology.RunFloors` | internal/quota/codex_quota_history_scheduler.go:452-503 | the same as an invariant of the run: what memory holds starts where storage ends |
| `QuotaHistoryChronology.SortKeepsOrder` | internal/quota/codex_quota_history_scheduler.go:456-465 | the stable sort before a write keeps every window's segments in the order they arose |
| `QuotaHistoryRunner.Runner.ProcessBatch` | internal/quota/codex_quota_history_scheduler.go:105-132 | one batch in place leaves exactly the state and submits exactly the segments of the specification, and keeps the state settled |
| `QuotaHistoryRunner.Runner.MergeSorted` | internal/quota/codex_quota_history_scheduler.go:111-118 | the merge loop, with the responses that changed something |
| `QuotaHistoryRunner.Runner.MergeObservation` | internal/quota/codex_quota_history_scheduler.go:218-359 | one candidate in place: rejection, recovery and its failure, then the verdict |
| `QuotaHistoryRunner.Runner.MergeInto` | internal/quota/codex_quota_history_scheduler.go:259-359 | the verdict on a well-formed observation, branch by branch; what that verdict accepts and leaves is in the rows of QuotaHistoryAcceptance |
| `QuotaHistoryRunner.Runner.CalibrateTail` | internal/quota/codex_quota_history_scheduler.go:309-325 | a boundary calibration at the same instant, in place or appended |
| `QuotaHistoryRunner.Runner.ExtendTail` | internal/quota/codex_quota_history_scheduler.go:333-352 | an equal percentage extends the live segment or the deferred tail |
| `QuotaHistoryRunner.Runner.AppendChange` | internal/quota/codex_quota_history_scheduler.go:362-375 | a semantic change is appended and remembered |
| `QuotaHistoryRunner.Runner.MergeDeferredStable` | internal/quota/codex_quota_history_scheduler.go:378-394 | a deferred tail is created or extended |
| `QuotaHistoryRunner.Runner.AppendDeferredStable` | internal/quota/codex_quota_history_scheduler.go:397-404 | a deferred tail is sealed before a change |
| `QuotaHistoryRunner.Runner.MarkMaterialized` | internal/quota/codex_quota_history_scheduler.go:120-127 | the other window of a changed response is written with it |
| `QuotaHistoryRunner.Runner.AppendDueStable` | internal/quota/codex_quota_history_scheduler.go:407-435 | the due tails, with the other window of their response, in key order |
| `QuotaHistoryRunner.Runner.Flush` | internal/quota/codex_quota_history_scheduler.go:452-503 | one writer call and what it leaves, on success and on failure |
| `QuotaHistoryRunner.Runner.FinishBatch` | internal/quota/codex_quota_history_scheduler.go:120-131 | marking, collecting and writing together |
| `QuotaHistoryRunner.Runner.VerifyCandidates` | internal/quota/codex_quota_history_scheduler.go:158-215 | trusted candidates and those of confirmed identities, in order |
| `QuotaHistoryRunner.Runner.SplitPreferred` | internal/quota/codex_quota_history_runner.go:125-155 | trusted candidates, and Headers whose window no trusted one covers |
| `QuotaHistoryRunner.SplitCovers` | internal/quota/codex_quota_history_runner.go:125-155 | a Header is dropped if and only if a trusted candidate of its window is present |
| `QuotaHistoryAcceptance.AcceptedExactly` | internal/quota/codex_quota_history_scheduler.go:218-359 | a candidate is accepted if and only if it is usable and opens a segment (first of a window, another window length, a reset more than two minutes later, no tail, a later decline, a trusted rise), repeats the percentage at a later instant, or brings a better reset boundary for the very instant seen last; said in plain comparisons with what memory or storage knows |
| `QuotaHistoryAcceptance.OneWay` | internal/quota/codex_quota_history_scheduler.go:259-332 | these three ways exclude each other |
| `QuotaHistoryAcceptance.OpenedLeaves` | internal/quota/codex_quota_history_scheduler.go:362-375 | a new segment is the observation itself, pending last, behind the sealed tail; the window remembers its percentage, reset and instant, and keeps its write clock only within the cycle |
| `QuotaHistoryAcceptance.RepeatedLeaves` | internal/quota/codex_quota_history_scheduler.go:333-394 | a repeated percentage lengthens the live segment, or else the deferred tail, in every field; the window moves to the later instant and to the better boundary |
| `QuotaHistoryAcceptance.CalibratedLeaves` | internal/quota/codex_quota_history_scheduler.go:309-325 | a calibration changes the boundary of the live segment and adds its count, or appends a segment with the percentage already known |
| `QuotaHistoryAcceptance.RefusedLeaves` | internal/quota/codex_quota_history_scheduler.go:218-258 | a refused candidate changes no tail, no segment and nothing known of any window, except that a window whose load fails is not loaded again in this batch |
| `QuotaHistoryWritten.LookedAt` | internal/quota/codex_quota_history_scheduler.go:158-215 | a batch looks at exactly the candidates whose account is vouched for or listed by the lookup, each as often as it came |
| `QuotaHistoryWritten.EarliestFirst` | internal/quota/codex_quota_history_scheduler.go:143-155 | candidates of one window are looked at from the earliest to the latest instant |
| `QuotaHistoryWritten.ArrivalOrderKept` | internal/quota/codex_quota_history_scheduler.go:143-155 | those of one window and instant in the order they came |
| `QuotaHistoryWritten.SplitExactly` | internal/quota/codex_quota_history_runner.go:125-155 | trusted candidates stay, each as often as it came, and of the Headers exactly those of windows no trusted candidate answers |
| `QuotaHistoryWritten.AcceptedAre` | internal/quota/codex_quota_history_scheduler.go:111-118 | what a batch reports as accepted are the segments of exactly the candidates accepted in their turn |
| `QuotaHistoryWritten.ChangedAre` | internal/quota/codex_quota_history_scheduler.go:111-127 | the responses whose other window is written along are those of exactly the candidates that change something at once |
| `QuotaHistoryWritten.WrittenExactly` | internal/quota/codex_quota_history_scheduler.go:407-503 | the writer gets the segments of the batch and a tail if and only if it, or another tail of the same response, is pressing: shutdown, marked, of a changed response, never written, or a heartbeat old; the others stay as they are |
| `QuotaHistoryWritten.OpenedIsSubmitted` | internal/quota/codex_quota_history_scheduler.go:105-132 | every candidate that opens a segment reaches the writer in the same batch, unchanged if no later candidate is of its window |
| `AggregationSafety.NoLostNotification` | internal/poller/usage_aggregation_runner.go:119-140 | in every interleaving a notified event id is covered by the pending target, the active target or all three cursors, at all times |
| `AggregationSafety.AlwaysExact` | internal/poller/usage_aggregation_runner.go:447-587 | in every reachable state the overview rows and the daily activity rows equal one pass over the events up to their own cursor, and the latency table holds the rows of the pages that make up the events up to its cursor |
| `AggregationSafety.RoundCompletes` | internal/poller/usage_aggregation_runner.go:597-610 | a round that ends leaves all three cursors at or past its target |
| `AggregationSafety.WaitingMeansDone` | internal/poller/usage_aggregation_runner.go:239-258 | a runner that waits without a timer has aggregated everything it owes and visited every identity known at the last notification |
| `AggregationSafety.WaitingTables` | internal/poller/usage_aggregation_runner.go:239-258 | with every event notified, the waiting runner's tables are the one-shot aggregation of all events |
| `AggregationProgress.ComesToRest` | internal/poller/usage_aggregation_runner.go:239-258 | from every reachable world whose debounce timer has fired, while nothing arrives, no more turns without failure and deferral can be taken than there is work left, and once none can be taken the runner waits |
| `AggregationProgress.TurnHelps` | internal/poller/usage_aggregation_runner.go:334-413 | every such turn, of either kind, leaves strictly less to do: events before the target, identities before the end of the scan, scans |
| `AggregationProgress.TurnIsSteps` | internal/poller/usage_aggregation_runner.go:334-413 | such a turn is three steps of the system |
| `AggregationMeaning.WaitingMeaning` | internal/poller/usage_aggregation_runner.go:239-258 | with every event notified, every row of the waiting runner's hourly, daily, permanent activity and latency tables says in the events' own fields what it should of all committed events, and exists exactly if one belongs to it |
| `AggregationMeaning.OverviewMeaning` | internal/poller/usage_aggregation_runner.go:447-505 | in every exact store the overview rows count the events up to the cursor, bucket by bucket and dimension by dimension |
| `AggregationMeaning.StoredActivityMeaning` | internal/poller/usage_aggregation_runner.go:447-505 | the permanent activity rows count the events of their day and group up to the cursor |
| `AggregationMeaning.StoredLatencyMeaning` | internal/poller/usage_aggregation_runner.go:447-505 | latency rows summarize the measured events of their period and group up to the cursor, if no page was too late for them |
| `AggregationMeaning.PageMeaning` | internal/repository/usage_aggregation_page.go:34-65 | a page holds events behind the cursor up to the target, all of them or the thousand with the lowest ids |
| `AggregationMeaning.UpToMeaning` | internal/repository/usage_aggregation_page.go:34-65 | the events up to a cursor are those with ids up to it |
| `AggregationMeaning.IdentityPageMeaning` | internal/repository/usage_identities.go:404-447 | a page of identities holds the lowest ids behind the cursor, at most 25, and fewer only at the end |
| `AggregationSafety.TurnsAlternate` | internal/poller/usage_aggregation_runner.go:415-428 | while both kinds of work are pending a turn is of the other kind than the last one not deferred at its start, after failures too |
| `AggregationSafety.ScansCover` | internal/poller/usage_aggregation_runner.go:387-408 | no identity work pending means that every identity existing at a notification was visited by a page after it |
| `AggregationSafety.GoodTurnsFinish` | internal/poller/usage_aggregation_runner.go:447-587 | a turn without failure or deferral reports the target reached exactly when it is, or leaves strictly less to aggregate |
| `AggregationSafety.NoEmptyPage` | internal/poller/usage_aggregation_runner.go:452-454 | the empty-page errors cannot occur below a committed target |
| `AggregationSafety.CommitLeavesPage` | internal/repository/usage_aggregation_page.go:34-65 | events committed during a turn do not reach its pages |
| `AggregationSafety.CommitCommutes` | internal/repository/usage_aggregation_page.go:34-65 | a commit in the middle of a rollup turn makes no difference to the turn: it is one before the commit and one after it |
| `AggregationSafety.Safety` | internal/poller/usage_aggregation_runner.go:262-413 | the invariant behind these, in every reachable state, over commits, notifications, new identities, failures and restarts |
| `AggregationRunner.AggregationRunner.NotifyUsageEventsCommitted` | internal/poller/usage_aggregation_runner.go:119-140 | raises the pending target to the highest positive id and the identity generation by one, or does nothing |
| `AggregationRunner.AggregationRunner.NotifyUsageIdentitiesChanged` | internal/poller/usage_aggregation_runner.go:143-151 | raises the identity generation |
| `AggregationRunner.AggregationRunner.FinishStartup` | internal/poller/usage_aggregation_runner.go:292-305 | adopts the startup target once; keeps only newer notifications |
| `AggregationRunner.AggregationRunner.FreezePendingTarget` | internal/poller/usage_aggregation_runner.go:308-324 | adopts, raises or drops the pending target |
| `AggregationRunner.AggregationRunner.BeginTurn` | internal/poller/usage_aggregation_runner.go:334-346 | the kind of the next turn and what it captures |
| `AggregationRunner.AggregationRunner.EndRollups` | internal/poller/usage_aggregation_runner.go:375-382 | counts a reached target only for the round it was taken from, and completes it |
| `AggregationRunner.AggregationRunner.CompleteRollupRoundIfReady` | internal/poller/usage_aggregation_runner.go:597-610 | ends a reached round and drops notifications it covered |
| `AggregationRunner.AggregationRunner.EndIdentity` | internal/poller/usage_aggregation_runner.go:395-408 | moves the scan on and records its generation |
| `AggregationRunner.AggregationRunner.AdvanceAfterFailure` | internal/poller/usage_aggregation_runner.go:612-624 | a failed turn yields to the other kind |
| `AggregationRunner.AggregationRunner.RunPreparedOnce` | internal/poller/usage_aggregation_runner.go:334-413 | a whole turn with notifications arriving between its critical sections: inbox deferral, failure, rollups or identities |
| `AggregationRunner.NextIdentities` | internal/repository/usage_identities.go:420-448 | one page of identities: the lowest ids beyond the cursor, at most 25, and whether it is the last |
| `AggregationStore.RollupStore.RunRollupsTurn` | internal/poller/usage_aggregation_runner.go:430-445 | a rollup turn keeps every table exact for its cursor and moves each cursor by at most its page; with nothing in the way each table moves exactly if its own page can be built and written, whatever becomes of the others; waiting work defers the rest, and it fails only if something it asked for failed |
| `AggregationStore.RollupStore.RunSharedRollupsPage` | internal/poller/usage_aggregation_runner.go:447-504 | one shared page, three transactions, with any of loads, builds, writes and inbox checks failing |
| `AggregationStore.RollupStore.RunFallbackRollupsPages` | internal/poller/usage_aggregation_runner.go:506-587 | separate pages for cursors that stand apart |
| `AggregationStore.RollupStore.OverviewPage` | internal/poller/usage_aggregation_runner.go:457-473 | an overview page is written with its cursor or not at all, and its table stays exact |
| `AggregationStore.RollupStore.ActivityPage` | internal/poller/usage_aggregation_runner.go:480-486 | the same for activity |
| `AggregationStore.RollupStore.LatencyPage` | internal/poller/usage_aggregation_runner.go:493-499 | the same for latency, whose table is grouped, encoded and merged row by row, and never refused for its contents |
| `AggregationStore.RollupStore.ApplyLatencyPage` | internal/repository/usage_latency_stats.go:86-104 | rows and cursor together, only from the expected cursor |
| `AggregationStore.LatencyRowExact` | internal/repository/usage_latency_stats.go:86-104 | of every hour and day of an API group that no page was too late for, the table holds, byte for byte, the row of all its samples up to the cursor, and no row if there are none |
| `AggregationStore.RollupStore.ApplyOverviewPage` | internal/repository/usage_overview_stats.go:105-119 | rows and cursor together, only from the expected cursor |
| `AggregationStore.PageContinues` | internal/repository/usage_aggregation_page.go:34-65 | a page continues exactly behind the cursor and ends at its highest id, up to the target |
| `AggregationStore.CommitKeepsExact` | internal/poller/usage_aggregation_runner.go:119-140 | a commit leaves every table exact for its cursor |
| `AggregationStore.CursorsNeverRetreat` | internal/poller/usage_aggregation_runner.go:430-445 | no turn moves a cursor back |
| `AggregationStore.OverviewPageExact` | internal/overview/aggregate.go:26-97 | adding a page's listed rows to exact overview tables gives the exact tables of the longer prefix |
| `AggregationStore.ActivityPageExact` | internal/activity/aggregate.go:50-125 | the same for daily activity, whenever the page is built |
| `UsageRows.BuildOverviewRows` | internal/overview/aggregate.go:26-97 | hourly and daily rows in key order, each key once with its events' totals, and the highest id; what each counter is, is in the rows of UsageRowsMeaning |
| `UsageRows.BuildActivityRows` | internal/activity/aggregate.go:50-125 | the activity rows of all four grains in row order, each with the end of its bucket, expired grains left out; what each counter is, is in the rows of UsageRowsMeaning |
| `UsageRowsMeaning.HourlyMeaning` | internal/overview/aggregate.go:111-125 | an hourly row exists if and only if an event of that whole hour has those nine dimensions, each from its own field; its counters are the numbers of those events, failed and not, and the sums of their token fields |
| `UsageRowsMeaning.DailyMeaning` | internal/overview/aggregate.go:127-141 | the same per local day, from its midnight to the next |
| `Text.TrimSpaceMeaning` | internal/overview/aggregate.go:99-109 | trimming cuts white space off both ends, all of it and nothing else |
| `UsageRowsMeaning.ActivityMeaning` | internal/activity/aggregate.go:50-125 | an activity row exists if and only if an event of its group lies in its bucket and is recent enough for its grain (3, 8 or 31 days, or for good); its counters are the numbers of those events, failed and not, and their token sums |
| `UsageRowsMeaning.OverviewOrderMeaning` | internal/overview/aggregate.go:143-169 | rows go by bucket, then by the first of the nine dimensions that differs |
| `UsageRowsMeaning.ActivityOrderMeaning` | internal/activity/aggregate.go:108-124 | rows go by the names of their grains, then by bucket, then by group |
| `UsageRows.TallyConcat` | internal/overview/aggregate.go:26-97 | the rows of two pages together are their rows joined |
| `UsageRows.DailyActivityAnyTime` | internal/activity/aggregate.go:50-125 | the permanent activity rows do not depend on the time of the build |
| `UsageRows.AddListed` | internal/overview/aggregate.go:84-97 | writing listed rows joins the table they list |
| `LatencySketch.P95Accurate` | internal/latency/sketch.go:99-115 | for any sequence of additions and merges, the 95th percentile reads the bin of the nearest-rank sample of all values and lies within 1% plus 0.5 ms of it |
| `LatencySketch.RankExact` | internal/latency/sketch.go:103-104 | the 64-bit rank is the nearest rank if and only if count*95+99 does not wrap |
| `LatencySketch.RankWraps` | internal/latency/sketch.go:103-112 | a concrete sketch of 2^61 values for which it wraps: the rank falls below a tenth of the count and the wrong bin is selected |
| `LatencySketch.RankHasValue` | internal/latency/sketch.go:99-115 | every rank has its sample, the one the sorted values hold there |
| `LatencySketch.SelectedBin` | internal/latency/sketch.go:105-112 | the first bin at which the running count reaches a rank is the bin of the sample at that rank |
| `LatencySketch.RepresentativeClose` | internal/latency/sketch.go:186-197 | a bin's value is within 1% plus rounding of everything in the bin, after clamping |
| `LatencySketch.BuiltFromValues` | internal/latency/sketch.go:36-75 | a sketch built in any way succeeds exactly when its values can be counted in 64 bits, and holds exactly their bins |
| `LatencySketch.BuildsAgree` | internal/latency/sketch.go:56-75 | order and grouping of additions and merges make no difference |
| `LatencySketch.KeyMonotone` | internal/latency/sketch.go:46-47 | larger keys mean larger values |
| `LatencySketch.KeyBounded` | internal/latency/sketch.go:46-47 | 64-bit milliseconds fall into at most 3201 bins |
| `LatencySketch.Key` | internal/latency/sketch.go:46-47 | the least power of gamma not below the value |
| `Sketches.Sketch.Add` | internal/latency/sketch.go:36-54 | one value in place; fails exactly for non-positive values and a full counter |
| `Sketches.Sketch.Merge` | internal/latency/sketch.go:57-75 | bin by bin in any order, also with itself; only the total can overflow |
| `Sketches.Sketch.P95` | internal/latency/sketch.go:99-115 | zero when empty, else the value of the bin the rank selects; the fallback is unreachable |
| `Sketches.Sketch.MarshalBinary` | internal/latency/sketch.go:118-134 | the encoding of the bins |
| `Sketches.UnmarshalSketch` | internal/latency/sketch.go:137-175 | accepts exactly what the decoding specification accepts, and yields its bins and their sum |
| `SketchCodec.SketchRoundTrip` | internal/latency/sketch.go:118-175 | decoding an encoded sketch returns it |
| `SketchCodec.AcceptedSketchValid` | internal/latency/sketch.go:137-175 | anything accepted satisfies the sketch invariant: 64-bit keys, positive counts, a 64-bit sum |
| `SketchCodec.SketchExactLength` | internal/latency/sketch.go:145-173 | every proper prefix and every non-empty extension of accepted bytes is rejected |
| `SketchCodec.SketchReencodeIff` | internal/latency/sketch.go:118-175 | encoding an accepted sketch again gives the same bytes if and only if none of its varints was padded |
| `SketchCodec.PaddedSketch` | internal/latency/sketch.go:207-220 | two byte strings of the empty sketch, one of them padded |
| `LatencySample.KeptAreBottom` | internal/latency/sample.go:34-79 | after any order and grouping of additions and merges over consistent events, exactly the 2500 least points offered are kept |
| `LatencySample.HistoriesAgree` | internal/latency/sample.go:53-68 | two histories over the same points leave the same set |
| `LatencySample.NoTies` | internal/latency/sample.go:190-203 | points of two events never tie on priority |
| `LatencySample.BottomUnique` | internal/latency/sample.go:179-188 | there is only one such set |
| `LatencySample.BottomOfUnion` | internal/latency/sample.go:53-68 | the bottom of two bottoms is the bottom of everything |
| `LatencySample.TrimKeepsBottom` | internal/latency/sample.go:179-188 | trimming keeps exactly the least points |
| `SplitMix.SplitMix64Injective` | internal/latency/sample.go:197-203 | SplitMix64 maps no two 64-bit ids to one priority |
| `SplitMix.MixedUndone` | internal/latency/sample.go:197-203 | every stage of the mixer is undone by an explicit inverse |
| `SampleSets.SampleSet.Add` | internal/latency/sample.go:34-50 | one point in place; fails exactly for non-positive fields or a conflicting kept event |
| `SampleSets.SampleSet.Merge` | internal/latency/sample.go:53-68 | all points, then one trim; fails exactly on a conflict, and then leaves what was added, untrimmed |
| `SampleSets.SampleSet.Trim` | internal/latency/sample.go:179-188 | deletes everything behind the first 2500 |
| `SampleSets.SampleSet.MarshalBinary` | internal/latency/sample.go:109-123 | the encoding of the points in priority order |
| `SampleSets.UnmarshalSampleSet` | internal/latency/sample.go:126-177 | accepts exactly what the decoding specification accepts; the duplicate test never decides |
| `SampleCodec.SampleRoundTrip` | internal/latency/sample.go:109-177 | decoding an encoded sample returns it |
| `SampleCodec.AcceptedSampleValid` | internal/latency/sample.go:126-177 | anything accepted is at most 2500 genuine points filed under their events |
| `SampleCodec.SampleExactLength` | internal/latency/sample.go:134-175 | every proper prefix and every non-empty extension of accepted bytes is rejected |
| `SampleCodec.SampleReencodeIff` | internal/latency/sample.go:109-177 | encoding an accepted sample again gives the same bytes if and only if none of its varints was padded |
| `SampleCodec.PaddedSample` | internal/latency/sketch.go:207-220 | two byte strings of the empty sample, one of them padded |
| `CodecMeaning.SketchBytes` | internal/latency/sketch.go:118-134 | the bytes of a sketch are version one, the number of bins, and for every bin by ascending key its zigzag key and its count, each a shortest varint |
| `CodecMeaning.SampleBytes` | internal/latency/sample.go:109-123 | the bytes of a sample are version one, the number of points, and for every point by ascending priority its event, priority, time to first token and latency |
| `CodecMeaning.EncodeMeaning` | internal/latency/sketch.go:118-134 | a number is written in base 128, low digits first, as short as can be |
| `CodecMeaning.DecodeMeaning` | internal/latency/sketch.go:207-217 | a number is read exactly where a varint of at most ten bytes stands whose base-128 value fits 64 bits |
| `SplitMix.FirstValue` | internal/latency/sample.go:197-203 | the first value of the published generator: with zero the mixer gives 0xE220A8397B1DCDAF |
| `SampleCodec.OrderImpliesNew` | internal/latency/sample.go:164-169 | a strictly later point is of a new event |
| `Varint.RoundTrip` | internal/latency/sketch.go:207-220 | any 64-bit number written as a varint is read back, stopping right behind it |
| `Varint.ReencodeIff` | internal/latency/sketch.go:207-220 | writing a read number again gives the same bytes if and only if its last byte is not a superfluous zero |
| `Varint.ReencodeFrameIff` | internal/latency/sketch.go:118-175 | a whole frame written again is the same bytes if and only if none of its varints was padded |
| `Varint.DecodeCut` | internal/latency/sketch.go:207-220 | a varint cut short reads as truncated |
| `Varint.ZigzagBijective` | internal/latency/sketch.go:199-205 | zigzag is a bijection between signed and unsigned 64-bit numbers |
| `Varint.Uvarint` | internal/latency/sketch.go:207-220 | the shift-and-add loop with its ten-byte and 64-bit limits |
| `Varint.FrameNotCut` | internal/latency/sketch.go:137-175 | no proper prefix of a frame is a frame |
| `Varint.FrameNotExtended` | internal/latency/sketch.go:171-173 | no extension of a frame is a frame |
| `LatencyRows.BuildRow` | internal/latency/aggregate.go:97-118 | a row is, byte for byte, the number, maxima, encoded sketches and encoded sample of its requests; consistent requests are never refused |
| `LatencyRows.RowBuilder.Add` | internal/latency/aggregate.go:136-155 | counts, maxima, sketches and sample stay in step, or the page fails |
| `LatencyRows.RowDecodes` | internal/latency/aggregate.go:97-118 | a stored row decodes to the sketches of all its delays and the sample of all its points |
| `LatencyStore.MergeLatencyRows` | internal/repository/latencystore/store.go:219-266 | a page's row is decoded, checked, merged into the stored one and encoded again, or refused exactly where it is unreadable, uncountable or in conflict |
| `LatencyStore.DecodeRow` | internal/repository/latencystore/store.go:192-217 | accepts exactly rows of the known format whose payloads decode and agree with the sample count |
| `LatencyStore.MergedRowExact` | internal/repository/latencystore/store.go:219-266 | merging the rows of two lists of consistent requests gives the row of both, byte for byte |
| `LatencyStore.OneRow` | internal/latency/aggregate.go:97-118 | the requests determine every byte of their row |
| `LatencyStore.StorePages` | internal/repository/latencystore/store.go:90-141 | storing page after page leaves the row that one pass over all requests builds, byte for byte |
| `LatencyTable.BuildLatencyRows` | internal/latency/aggregate.go:57-130 | the rows of a page per hour and day of every API group: of successful generate events with both delays, expired buckets left out; what a row says of them is in the rows of LatencyMeaning |
| `LatencyMeaning.RowMeaning` | internal/latency/aggregate.go:77-130 | the row of a key counts the successful generating events of its period and group with both delays positive; its maxima are the largest of their delays, each sketch decodes to the numbers of their own delays per bin, and each sample point carries the id, its hash, the time to first token and the latency of one of them |
| `LatencyMeaning.TableMeaning` | internal/latency/aggregate.go:38-55 | for an hour of the last three days, or one of the last 365 days, at every build the table has a row if and only if an event was measured there, and it summarizes all of them |
| `LatencyMeaning.SketchMeaning` | internal/latency/sketch.go:36-54 | a bin counts the events whose delay lies above the power k-1 of 101/99 and up to its power k |
| `LatencyMeaning.RepresentativeMeaning` | internal/latency/sketch.go:186-197 | a bin is read as 99/100 of its upper bound, rounded half up, within 1 and the largest 64-bit number |
| `LatencyMeaning.SampleMeaning` | internal/latency/sample.go:179-195 | the sample is of all those events, or of the 2500 with the least hashes |
| `LatencyTable.MergePage` | internal/repository/latencystore/store.go:90-141 | merging the rows of a page into the table leaves, key by key, the rows of all pages together; numbered events are never refused |
| `LatencyTable.RetainedThroughout` | internal/latency/aggregate.go:38-54 | of a bucket that every page still retained, the pages together contribute every sample |
| `LatencyTable.SamplesConsistent` | internal/latency/aggregate.go:66-94 | samples of numbered events never conflict and can be counted |
| `ActivityGrain.FixedBucketExactlyOne` | internal/activity/grain.go:206-221 | every timestamp, before or after the epoch, lies in exactly one fixed bucket |
| `ActivityGrain.FixedBucketIndex` | internal/activity/grain.go:191-204 | estimate and correction find it; the upward loop runs at most once, the downward loop never |
| `ActivityGrain.FixedWindowExact` | internal/activity/grain.go:216-221 | 364 consecutive fixed buckets span the window exactly, with widths at most a second apart |
| `ActivityGrain.ShortBucketForTimestamp` | internal/activity/grain.go:144-159 | the short bucket of an instant, on a local day of any length |
| `ActivityGrain.ShortBucketExactly` | internal/activity/grain.go:178-188 | an instant lies in exactly one short bucket of exactly one day |
| `ActivityGrain.SameStorageBucket` | internal/activity/grain.go:144-159 | every instant in a short bucket has that bucket as its own |
| `ActivityGrain.ShortWindowEndingAt` | internal/activity/grain.go:161-176 | 364 contiguous storage buckets up to the least boundary not before the reference, across days of any length |
| `ActivityGrain.LeastBoundary` | internal/activity/grain.go:162-167 | that end is the least boundary |
| `ActivityGrain.BucketForTimestamp` | internal/activity/grain.go:43-68 | per grain, the bucket that contains the instant, or an error for others |
| `ActivityGrain.BucketMeaning` | internal/activity/grain.go:43-68 | short buckets divide each local day in 364 at whole seconds, medium ones every seven days since the epoch, long ones every thirty, daily ones are the local days; each contains its instant |
| `ActivityGrain.WindowEndingAt` | internal/activity/grain.go:71-127 | per grain, 364 contiguous buckets covering the reference, each the storage bucket of every instant in it; the medium window spans seven days, the long one thirty |
| `ActivityGrain.FixedWindowEndingAt` | internal/activity/grain.go:107-127 | the fixed window, spanning exactly its seconds |
| `ActivityGrain.DailyWindowEndingAt` | internal/activity/grain.go:77-99 | the daily window over local days |
| `ActivityGrain.FloorDivFloors` | internal/activity/grain.go:223-232 | truncating division with the negative-remainder correction is the floor |
| `PricingSafety.WorstCaseHolds` | internal/pricing/snapshot.go:150-204 | if a model compiles, then for all dimensions and all 64-bit token counts the model cost and the final cost stay finite; so do the unscaled cost and every partial rule product, unless the model is free |
| `PricingSafety.BoundIsLargestFloat` | internal/pricing/snapshot.go:150-215 | the bound is the largest finite float: 53 fraction bits, all set, under the largest exponent |
| `PricingSafety.OneMatchPerField` | internal/pricing/snapshot.go:78-98 | at most one rule per field can match |
| `PricingSafety.PartialProductBounded` | internal/pricing/resolver.go:79-91 | every partial product of matching rules stays below the product of the largest rule per field |
| `PricingSafety.CompiledSound` | internal/pricing/snapshot.go:80-98 | compiled rules are non-negative and never test one value of one field twice |
| `PricingSafety.NormalInputRange` | internal/helper/usage_cost.go:37-41 | a 64-bit token count comes out even where the subtraction wraps |
| `PricingLaws.ActiveFieldsSuffice` | internal/pricing/resolver.go:41-64 | requests that agree on model, alias, tokens and all active fields get the same result |
| `PricingLaws.ActiveFieldsExact` | internal/pricing/snapshot.go:82-98 | a field is active if and only if some model has a rule on it, and every such rule changes prices |
| `PricingLaws.IdentityRulesDropped` | internal/pricing/snapshot.go:93-95 | leaving out rules with multiplier one changes nothing |
| `PricingLaws.RulesReordered` | internal/pricing/resolver.go:79-91 | rule order does not matter, zero rules included |
| `PricingLaws.NormalInputExact` | internal/helper/usage_cost.go:37-41 | uncached input is input less cache tokens, not below zero, if and only if that difference fits 64 bits |
| `PricingLaws.WrapWitness` | internal/helper/usage_cost.go:37-41 | a concrete request without input tokens for which the subtraction wraps to two |
| `PricingLaws.GroupPriceExact` | internal/helper/usage_cost.go:27-50 | pricing a group's summed tokens equals the sum of its events' prices if and only if input is free or all events lie on one side of cache = input; also with the exact condition where the 64-bit subtraction wraps |
| `PricingLaws.GroupPriceDiffers` | internal/helper/usage_cost.go:27-50 | two concrete events on both sides, whose prices do not add up for any model that charges for input |
| `PricingLaws.GroupPriceAdds` | internal/helper/usage_cost.go:27-50 | in particular when no event's cache tokens exceed its input |
| `PricingLaws.CompiledAnyOrder` | internal/pricing/snapshot.go:44-66 | the order of a price list changes neither models nor active fields, nor whether it compiles |
| `PricingLaws.Recompiled` | internal/pricing/snapshot.go:44-105 | compiling the configurations of a published list again, in any order, publishes the same list |
| `PricingCompiler.CompileSnapshot` | internal/pricing/snapshot.go:44-66 | the whole list compiles, its configurations normalized and kept in order of their names, or nothing |
| `PricingCompiler.CompileModelConfig` | internal/pricing/snapshot.go:68-105 | one model: names, numbers, rules, duplicates, the bound, its normalized configuration and its active fields; what it then charges is in the rows of PricingMeaning |
| `PricingMeaning.ChargedAsConfigured` | internal/pricing/resolver.go:41-64 | under an accepted list, a request that names a listed model (or names it as alias while its own is not listed) is charged, segment by segment, its own tokens by the million at the price configured for that segment, times the configured multiplier (one if absent) and the multipliers of all configured rules whose named dimension has their value; with style, name, kind of match and rule multiplier |
| `PricingMeaning.UnlistedCostsNothing` | internal/pricing/resolver.go:41-77 | a request that names no listed model costs nothing and is priced only if it has no tokens |
| `PricingMeaning.ListCompiles` | internal/pricing/snapshot.go:44-66 | a list is accepted if and only if every model is valid and no two have one trimmed name; the snapshot then has exactly these models |
| `PricingMeaning.ModelCompiles` | internal/pricing/snapshot.go:68-105 | a model is accepted if and only if its name is not blank, its numbers are finite and not negative, each rule names a known dimension, a value and such a multiplier, no two ask the same, and its worst case stays finite |
| `PricingMeaning.RulesCompile` | internal/pricing/snapshot.go:112-126 | rules are normalized one by one, in order, exactly if they are valid |
| `PricingMeaning.WorstCaseIs` | internal/pricing/snapshot.go:150-204 | the worst case: the largest multiplier of each of the nine dimensions, multiplied, with and without the model's own, and the largest counts at all four prices |
| `PricingMeaning.FieldsAre` | internal/pricing/snapshot.go:68-105 | a dimension is active if and only if some configured rule asks for it with a multiplier other than one |
| `PricingMeaning.ConfigsKept` | internal/pricing/snapshot.go:68-126 | an accepted list is kept whole and in order, names and values trimmed, keys in their fields' own names, identity rules included |
| `PricingMeaning.PublishedByName` | internal/pricing/snapshot.go:44-66 | what is published lists the same configurations by ascending name |
| `PricingMeaning.UncachedIs` | internal/helper/usage_cost.go:37-58 | uncached input: input less both cache counts, clamped, where a difference below the 64-bit range comes out 2^64 higher |
| `PricingCompiler.CollectRules` | internal/pricing/snapshot.go:78-98 | the rule loop with its set of seen tests |
| `PricingCompiler.ValidateWorstCaseCost` | internal/pricing/snapshot.go:150-204 | accepts exactly the models whose worst case is finite, although it stops at the first overflow |
| `PricingCompiler.MaxByField` | internal/pricing/snapshot.go:160-168 | the largest multiplier of every field in an array |
| `PricingCompiler.SafeMultiply` | internal/pricing/snapshot.go:206-215 | a product exactly when it stays in the finite range |
| `PricingCompiler.MatchingRuleMultiplier` | internal/pricing/resolver.go:79-91 | the rule loop, ended early by a matching zero, computes the product of all matching rules |
| `PricingCompiler.ParseRuleField` | internal/pricing/fields.go:38-46 | the field whose name the key is, trimmed and lowered; none exactly if it is no field's name |
| `Pricing.ParseFieldExactly` | internal/pricing/fields.go:24-46 | a key names a field if and only if, trimmed and lowered, it is that field's name; every name parses back to its field |
| `Pricing.MatchModel` | internal/pricing/resolver.go:66-77 | by model if it is listed, by alias only if it alone is, unmatched if and only if neither is |
| `HeaderCacheLaws.WindowBounded` | internal/quota/header_cache_worker.go:133-169 | the window never holds more than 1000 identities |
| `HeaderCacheLaws.ExcludedNotLater` | internal/quota/header_cache_worker.go:154-167 | an identity left out means a full window in which no kept identity shows anything earlier than any of its arrivals |
| `HeaderCacheLaws.ArrivalAccounted` | internal/quota/header_cache_worker.go:133-169 | a kept identity shows nothing older than any of its arrivals |
| `HeaderCacheNewest.PartsNewest` | internal/quota/header_cache_worker.go:179-240 | the main limit and each further limit come from the newest snapshot that carried them, the later one on a tie |
| `HeaderCacheNewest.PartsAnyOrder` | internal/quota/header_cache_worker.go:179-240 | with distinct times no part depends on the order of arrival |
| `HeaderCacheNewest.MergePart` | internal/quota/header_cache_worker.go:212-234 | one merge, part by part |
| `HeaderCacheNewest.KeptIsFold` | internal/quota/header_cache_worker.go:147-153 | for an identity kept throughout, the window holds the fold of all its arrivals |
| `HeaderCacheMeaning.CopiedFromNewest` | internal/quota/header_cache_worker.go:179-240 | everything without a merge rule of its own comes from the newest arrival, the later one on a tie; without any rule all of it does |
| `HeaderCacheMeaning.HeldAreFolds` | internal/quota/header_cache_worker.go:133-169 | while no more than a thousand identities arrive, exactly those are held, each as the fold of its arrivals in order |
| `HeaderCacheMeaning.HeldArrived` | internal/quota/header_cache_worker.go:133-169 | never more than a thousand are held, each filed under its own index, or under provider and kind of login |
| `HeaderCacheMeaning.FullWindow` | internal/quota/header_cache_worker.go:154-167 | a full window takes in a new identity in place of the earliest one, the lesser key on a tie, unless it is earlier than all |
| `HeaderCachePlan.PlanAnyOrderExactly` | internal/quota/header_cache_worker.go:202-210 | with distinct times the plan type is the same for every order of arrival if and only if the newest snapshot names one, or all that name one agree, or none does and all but the newest are spelled alike |
| `HeaderCachePlan.MergePlan` | internal/quota/header_cache_worker.go:202-210 | one merge takes the newer snapshot's plan unless it is blank |
| `HeaderCachePlan.PlanTypeDependsOnOrder` | internal/quota/header_cache_worker.go:205-210 | otherwise it depends on the order: three snapshots in two orders |
| `HeaderWindow.Window.TryAppend` | internal/quota/header_cache_worker.go:32-70 | refused exactly while closing with something to append; otherwise every snapshot is received in order, and whatever waits leaves a wake signal |
| `HeaderWindow.Window.MergePending` | internal/quota/header_cache_worker.go:133-169 | the arrival loop, nil entries passed over |
| `HeaderWindow.Window.MergeOne` | internal/quota/header_cache_worker.go:143-167 | one arrival: merged, let in, or let in for the oldest |
| `HeaderWindow.Window.OldestPending` | internal/quota/header_cache_worker.go:302-316 | the scan finds the oldest entry, the lesser key on a tie, in any map order |
| `HeaderWindow.Window.Take` | internal/quota/header_cache_worker.go:114-121 | hands out the window and starts an empty one |
| `HeaderWindow.MergeSnapshots` | internal/quota/header_cache_worker.go:179-240 | the merge of two snapshots as written |
| `HeaderWindow.MergeAdditionalLimits` | internal/quota/header_cache_worker.go:262-299 | the merge of the further limits, in place by name |
| `RespLaws.CommandRoundTrip` | internal/cpa/redis_queue_client.go:172-182 | reading what the writer wrote, followed by anything, returns the parts and leaves exactly what followed, if and only if the parts are within the reader's limits |
| `RespLaws.StringsBack` | internal/cpa/redis_queue_client.go:192-209 | the strings of that value are the parts |
| `RespLaws.AcceptedWithinLimits` | internal/cpa/redis_queue_client.go:215-303 | every accepted response is nested at most four deep, with short arrays and lines, small bulks, and at most 16 MiB of bulk bytes |
| `RespLaws.TakeWithin` | internal/cpa/redis_queue_client.go:223-303 | the budget goes down by exactly the bulk bytes accepted |
| `RespLaws.TakeLocal` | internal/cpa/redis_queue_client.go:223-303 | a response does not depend on the bytes behind it |
| `RespLaws.TakeCut` | internal/cpa/redis_queue_client.go:223-303 | a response cut anywhere before its end is refused |
| `RespLaws.BulkBack` | internal/cpa/redis_queue_client.go:247-277 | one bulk string, accepted exactly within the size limit and the budget |
| `Resp.AtoiItoa` | internal/cpa/redis_queue_client.go:252-255 | a written size reads back as itself within 64 bits |
| `Resp.LineBack` | internal/cpa/redis_queue_client.go:305-325 | a line is read back exactly when it fits 4096 bytes with its ending |
| `RespReader.Reader.ReadResponse` | internal/cpa/redis_queue_client.go:211-221 | a whole reply with a fresh budget |
| `RespReader.Reader.ReadValue` | internal/cpa/redis_queue_client.go:223-245 | one value by its prefix, terminating on every input; which value that is, is in the rows of RespReplies |
| `RespReplies.ReplyRoundTrip` | internal/cpa/redis_queue_client.go:215-245 | any reply, printed as the protocol says (+text, -text, $n, *n with its items, $-1) and followed by anything, reads back as itself and leaves what followed, if and only if it is within depth, array, line, size and budget limits; else it is refused |
| `RespReplies.PrintedBack` | internal/cpa/redis_queue_client.go:223-303 | the same at every depth, with any array limit and budget, which goes down by the bulk bytes |
| `RespReplies.ReadIsSpelled` | internal/cpa/redis_queue_client.go:223-303 | the reverse: whatever is read, the bytes consumed are a reply of that very value, but for the spelling of sizes |
| `RespReplies.NilArrayBack` | internal/cpa/redis_queue_client.go:279-288 | an array of size minus one reads as nothing |
| `RespReplies.CommandIsArray` | internal/cpa/redis_queue_client.go:172-182 | what the writer writes is an array of bulk strings |
| `RespReplies.StringsOf` | internal/cpa/redis_queue_client.go:192-209 | what is handed on: the bulk itself, or an array's own bulks, and nothing of anything else |
| `RespReplies.StringsInOrder` | internal/cpa/redis_queue_client.go:192-209 | in the order they came |
| `RespReader.Reader.ReadBulk` | internal/cpa/redis_queue_client.go:247-277 | a bulk string and the budget it consumes |
| `RespReader.Reader.ReadArray` | internal/cpa/redis_queue_client.go:279-303 | an array within its limit, one level deeper |
| `RespReader.Reader.ReadItems` | internal/cpa/redis_queue_client.go:294-302 | the item loop |
| `RespReader.Reader.ReadLine` | internal/cpa/redis_queue_client.go:305-325 | slices joined across a full buffer up to the line limit |
| `RespReader.WriteCommand` | internal/cpa/redis_queue_client.go:172-182 | the bytes of a command |
| `MetadataSync.NoLostRefresh` | internal/app/metadata_sync.go:157-177 | a refresh requested after activation and not followed by a synchronization leaves a token, a timer, a sender about to post, or the goroutine on its way |
| `MetadataSync.EarlyRequestsCovered` | internal/app/metadata_sync.go:168-171 | a request before activation is older than the synchronization that activation brings |
| `MetadataSync.DebounceWaits` | internal/app/metadata_sync.go:127-141 | a debounced synchronization is decided only when every recorded request is a full window old |
| `MetadataSync.DebounceExactly` | internal/app/metadata_sync.go:308-326 | the timer is due one second after the last request, and a synchronization is decided exactly from then on |
| `MetadataSync.ModeExactly` | internal/app/metadata_sync.go:246-285 | the runner polls unless a request or a sign of support came last, and is active exactly from the first connection on |
| `MetadataSync.BeginsUnlessQuiet` | internal/app/metadata_sync.go:90-146 | in every reachable state another synchronization can begin without a request, connection or change of mode from outside if and only if something is left to act on: a token, timer, sender, connection, polling, or a step under way |
| `MetadataSync.QuietRuns` | internal/app/metadata_sync.go:90-146 | once quiet, no unprompted sequence of steps begins a synchronization |
| `MetadataSync.RetriedExactly` | internal/app/metadata_sync.go:231-237 | a failed attempt is followed by another of its own accord if and only if a token, timer, sender, connection or polling was left |
| `MetadataSync.FailureIsNotRetried` | internal/app/metadata_sync.go:231-237 | a concrete run in notification mode whose failed attempt nothing repeats |
| `MetadataSync.Safety` | internal/app/metadata_sync.go:90-146 | the invariant behind these over every interleaving |
| `MetadataSync.MetadataSyncRunner.RecordRefreshRequest` | internal/app/metadata_sync.go:273-286 | mode, activation and time under one lock |
| `MetadataSync.MetadataSyncRunner.PostRefresh` | internal/app/metadata_sync.go:172-176 | a send that never blocks |
| `MetadataSync.MetadataSyncRunner.TakeConnection` | internal/app/metadata_sync.go:95-104 | a connection activates and starts a synchronization |
| `MetadataSync.MetadataSyncRunner.NotifyIngestConnected` | internal/app/metadata_sync.go:219-229 | a connection signal is posted without blocking |
| `MetadataSync.MetadataSyncRunner.TakeRefreshRequest` | internal/app/metadata_sync.go:118-126 | a token sets the timer, or sets it anew |
| `MetadataSync.MetadataSyncRunner.FireDebounce` | internal/app/metadata_sync.go:127-141 | an expired timer drains, then waits on or synchronizes |
| `MetadataSync.MetadataSyncRunner.DrainRefreshRequests` | internal/app/metadata_sync.go:295-306 | discards merged signals |
| `MetadataSync.MetadataSyncRunner.RefreshDebounceDelay` | internal/app/metadata_sync.go:308-326 | the rest of the window, not below zero |
| `MetadataSync.MetadataSyncRunner.SetNotificationMode` | internal/app/metadata_sync.go:260-271 | switches the mode and says whether it changed |

## Left out

- Repository, SQL, HTTP, TCP and TLS, logging, configuration, file backups and the web frontend: input and output; their contracts are stated above.
- Deletion of events and identities, retention clean-up, and the hourly overview's and latency table's own expiry: rows only grow in the model.
- `LatencyTable.BuildLatencyRows`: groups the samples of a page first and encodes one row per group, where the source feeds all rows at once; rows are kept as a map, so the order they are written in and the batches of 200 they are loaded in are left out. A zero `now` counts among the failing builds.
- What one identity visit adds to that identity's own totals: the scan is modelled, the per-identity SQL delta is not.
- Goroutine scheduling, channel internals, timers and back-off delays of the aggregation runner: taken as arbitrary interleavings at lock boundaries; whether and when a step happens is not modelled.
- Wrap-around of the identity generation and of row counters at 64 bits, and overflow of seconds times 364 for instants billions of years away.
- The bounded first-in-first-out queue of Headers in front of the quota history batch, its shutdown flags, and the source summary of log lines.
- `Text.ToLower`, used for rule field names, lowers ASCII letters only.
- IEEE rounding in logarithms, powers and costs: `LatencySketch.Key` and `PricingSafety.WorstCaseHolds` are over exact reals.
- The atomic catalog that price snapshots are published in.
- `Pricing` keeps the active fields as the set that the bitmap denotes.
- `HeaderWindow.Window.TryAppend`: the history fan-out and log lines beside the window are left out, and so is the worker that takes the wake signal and merges what it finds into the refresh cache.
- `RespReader.Reader.ReadResponse`: error texts are not told apart, a failed read only fails; dialing, authentication and the second reader in the subscribe source are left out.
- `MetadataSync`: shutdown is one step from anywhere; the periodic timer is a step that may happen at any time.
- `QuotaHistoryChronology.Chronology`: is stated for observations of a single instant, which is what both Header and trusted sources build (internal/quota/codex_quota_history.go:92-103); `QuotaHistoryChronology.ClearChronology` and `QuotaHistoryOverlaps.OrderExactly` cover all others.
- Provider payload parsing, normalization, login limiting, sessions, inspection counters and control messages.
