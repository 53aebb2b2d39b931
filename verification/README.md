# Pufu Lens: a verified model of its core

Pufu Lens collects documents, parses and indexes them, keeps a document graph, and writes scheduled reports. Its hard
parts are small protocols over PostgreSQL tables, scans that must resume where they stopped, and a few computations whose
results decide whether a migration may go ahead. This project models those parts in Dafny and proves what they promise.

`dafny verify dfyconfig.toml` checks everything.

## What is modelled

- `RankMetrics`: graded nDCG, recall and MRR of a ranked list. Numbers are reals, grades are naturals, and the logarithmic
  discount is any strictly decreasing positive function. The main result is a truncated rearrangement inequality with its
  equality case, for every ranking and every grading.
- `IngestionQueue`, `IngestionStore`: the ingestion queue and the raw documents it feeds. The first module is the machine
  of atomic statements that any number of workers interleave; the second holds the repositories that perform them on
  mutable tables.
- `ReportSchedule`, `ReportScheduleStore`, `ReportScheduleDispatch`: one report schedule with overlapping materializers and
  leased period runs, its repository, and the dispatch loop with its counters.
- `ReportCalendar`: the weekly, monthly and annual slots of such a schedule, their periods and their enumeration.
- `SourceSync`, `SourceSyncTable`: the daily schedule of one data source, in a zone with a fixed offset, and the table from
  which the earliest due schedules are claimed.
- `SortedStrings`, `KeyedRows`, `GraphAudit`, `GraphCounts`, `GraphAuditLoops`: the comparison of two graph inventories.
  `GraphAudit` says what the gate means, `GraphCounts` what every count says about the two graphs, and `GraphAuditLoops`
  holds the loops that count.
- `KeywordBackfill`, `GraphRebuild`, `GraphTargets`: the three resumable scans, by keyset with a two-part cursor, by keyset
  over digests, and by offset.
- `MigrationText`, `MigrationFile`: lines, trimming, and the statement splitter with its printer.
- `MigrationRunner`, `MigrationDatabase`: concurrent migrators that may stop anywhere, and one migrator as a program.
- `HandlerCache`: the single-flight handler resolver.
- `ChunkVersions`: document versions, chunk replacement and the chunk history.
- `Options`, `Collections`, `WhiteSpace`: what the others share.

The conventions are the same throughout. A SQL statement or transaction is one atomic step. A machine is a function from a
state and an event to a state, events that are not enabled change nothing, and theorems speak of every finite run. Code
that changes things in place is a class or a loop whose contract equates its effect with such a step or with a
specification function, and states the effect on its fields as well. Clocks only move forward. Random tokens, clocks,
files, texts and outcomes of calls are parameters. Strings are ordered character by character; no result depends on where
characters outside the basic plane sort.

## What the proofs found

- Ingestion: that the two tables stay consistent, and that reprocessed documents are parsed again, needs one thing from graph
  workers: a document must still have its parsed URI when it is marked indexed. `GraphMarkIsSafeWhenParsed` shows that this
  is exact. A reprocess reset between such a worker's read and its mark breaks it, from any state with a stale row
  (`MarkAfterResetBreaksTables`, `LateMark`) and in a run of six statements from empty tables (`LateGraphMark`). Marking a
  document failed is always safe, and what is proved of tickets needs no such condition.
- Collecting a document again sets its row's `attempts` to 0 and so forgets which attempts were handed out. It is a statement
  of the runs like the others: consistency and the reparsing of reprocessed documents survive it, but tickets are unique and
  stale tickets stay dead only between two collections of a document. In every run a ticket is active exactly while its row
  is parsing and has been handed out as often since the latest collection as the ticket says
  (`TicketsCountFromTheLatestCollection`). So for a row that can be dequeued after it, collecting again is harmless if and
  only if no statement ever handed the row out (`RecollectionIsSafeWhenNeverHandedOut`): otherwise every earlier ticket,
  whatever its attempt, can complete the row of a later worker (`EarlierTicketsCanReturn`). No column tells the two apart,
  `attempts` included (`TablesDoNotTell`), and the check that collectors make before, that the document has failed, selects
  the bad case unless a graph worker failed it (`CollectingAFailedDocumentIsUnsafe`).
- Rebuild batches are one scan for every limit exactly when no two documents share a digest
  (`OneScanNeedsDistinctDigests`); the unique constraint on `documents.raw_document_id` provides that.
- The comment above the handler resolver says that only successful handlers are cached. That holds, but a `reset` makes the
  resolver forget all older attempts if and only if none of them is running at that moment (`ResetForgetsWhenIdle`): a
  running one may fill the cache again afterwards (`StaleAttemptFillsTheCache`).
- A part of a migration can be committed twice, after crashes, if and only if it is a statement of a non-transactional
  migration, wherever that stands in the directory (`OnlyStatementsCanRepeat`).
- The dispatch loop rejects exactly when some claim that it makes throws, or recording the failure of some run that it claimed
  (`Dispatch`).
- Rows that lack related edges are cut to the free room before those already selected are removed, so a scan of graph targets
  can end with room left and yet without such a row (`RowLeftBehind`). It does exactly if the row's page overlooks it, that
  is if more rows lack an edge than there is room and one of the first of them is already selected or repeated, and no later
  page makes up for it (`LackingRowsLeftBehind`, `ScanLeavesBehind`).
- A document returns to an older version only once its own version has stopped being processable
  (`OnlyUnprocessableVersionsAreLeft`), which a reprocess reset brings about (`ResetLetsADocumentGoBack`).

## Model

| member | source | states |
|---|---|---|
| `RankMetrics.NdcgIsNormalized` | scripts/lib/keyword-eval.ts:59-82 | for every document list and grading with a relevant document nDCG is in [0, 1], and is 1 exactly when the ranked grades padded with zeros are the top k grades sorted downwards; it is undefined only for k = 0 |
| `RankMetrics.NdcgWeighsByPowersOfTwo` | scripts/lib/keyword-eval.ts:69-81 | nDCG times the discounted sum of 2^grade - 1 over the ideal order is that sum over the ranked documents, for whatever function gives the powers of two: 1 at 0, 2 at 1, sums to products |
| `RankMetrics.GainsDouble` | scripts/lib/keyword-eval.ts:70 | the gain is 0 at grade 0, and one more than the gain doubles from grade to grade |
| `RankMetrics.TwoInTheWrongOrder` | scripts/lib/keyword-eval.ts:69-81 | two documents of grades 1 and 2 in the wrong order: nDCG is (d0 + 3 d1) / (3 d0 + d1) |
| `RankMetrics.IdealIsBest` | scripts/lib/keyword-eval.ts:69-80 | no list of at most k distinct documents gains more than the ideal order, with the equality case |
| `RankMetrics.DominatedGainsLess` | scripts/lib/keyword-eval.ts:69-70 | a grade list dominated prefix by prefix has the smaller discounted gain, strictly unless equal |
| `RankMetrics.TopValuesHaveTheGreatestSum` | scripts/lib/keyword-eval.ts:77-79 | the first m of the sorted grades have the greatest gain of any m of them |
| `RankMetrics.PositiveGradesAreJudged` | scripts/lib/keyword-eval.ts:65-75 | distinct ranked documents use each positive grade at most as often as it was judged |
| `RankMetrics.RecallIsComplete` | scripts/lib/keyword-eval.ts:66-72 | recall times the number of relevant judgments is the number of relevant documents in the top k; it is in [0, 1], and 1 exactly when every relevant document is there |
| `RankMetrics.MrrIsReciprocalRank` | scripts/lib/keyword-eval.ts:68-73 | MRR is the reciprocal of the rank of the first relevant document in the top k, and 0 when there is none |
| `RankMetrics.ScoredWhenJudgedRelevant` | scripts/lib/keyword-eval.ts:66-67 | metrics are null exactly when no judgment is relevant |
| `RankMetrics.FirstOccurrencesInOrder` | scripts/lib/keyword-eval.ts:65 | removing duplicates keeps the order of first occurrence |
| `IngestionQueue.StepKeepsInv` | scripts/parse-raw-documents.ts:100-282 | each admissible statement keeps: a parsing row has a fetched or failed document, fetched has no parsed URI, parsed and indexed have one |
| `IngestionQueue.ReachableStatesAreConsistent` | scripts/parse-raw-documents.ts:100-289 | that holds in every state of every interleaving of workers |
| `IngestionQueue.GraphMarkIsSafeWhenParsed` | scripts/lib/postgres-graph-indexing-adapter.ts:551-569 | marking indexed keeps the tables consistent if and only if the parsed URI is still there |
| `IngestionQueue.MarkAfterResetBreaksTables` | scripts/lib/postgres-graph-indexing-adapter.ts:551-569 | in any consistent state, a reprocess reset of a stale row followed by a graph mark of its document leaves the document indexed without a parsed URI |
| `IngestionQueue.LateMark` | scripts/lib/ingest-workflow-reprocess.ts:133-212 | any run that leaves a document stale goes on, with a reset and a late graph mark, to an inconsistent state |
| `IngestionQueue.LateGraphMark` | scripts/lib/postgres-graph-indexing-adapter.ts:551-569 | such a run from empty tables: collect, queue, dequeue, parse, reset, mark |
| `IngestionQueue.StaleTicketsAlwaysFail` | scripts/parse-raw-documents.ts:188-289 | until its document is collected again, a superseded or completed ticket never completes anything and changes nothing |
| `IngestionQueue.TicketsAreIssuedOnce` | scripts/parse-raw-documents.ts:100-157 | over any run each pair of row and attempt is handed out at most once between two collections of the document |
| `IngestionQueue.TicketsCompleteOnce` | scripts/parse-raw-documents.ts:188-282 | over any run each pair of row and attempt completes at most once between two collections of the document |
| `IngestionQueue.OnlyTheLatestTicketCompletes` | scripts/parse-raw-documents.ts:196-204 | the attempt that can complete a parsing row is that of its latest dequeue, in runs with re-collections too |
| `IngestionQueue.AttemptsNeverFall` | scripts/ingest-workflow.ts:1020-1031 | no statement but a collection of its document, resets included, lowers a row's attempts or moves it to another document |
| `IngestionQueue.ReprocessedDocumentsAreReparsed` | scripts/lib/ingest-workflow-reprocess.ts:122-179 | after a reprocess reset every later parsed or indexed state carries a URI written under a ticket that was handed out after the reset, whatever failures, expiries, graph failures, retries and re-collections come between |
| `IngestionQueue.TicketsCountFromTheLatestCollection` | scripts/collect-source.ts:333-371 | over every run a ticket is active if and only if its row is parsing and was handed out since the latest collection of its document exactly as often as the ticket's attempt says |
| `IngestionQueue.EarlierTicketsCanReturn` | scripts/collect-source.ts:360-368 | if the row can be dequeued after another collection of its document, every ticket of the row, whatever its attempt, becomes active in some continuation of the run |
| `IngestionQueue.RecollectionIsSafeWhenNeverHandedOut` | scripts/collect-source.ts:360-368 | after any run, for a row that can be dequeued after it, another collection keeps every ticket handed out in the run from ever completing the row if and only if no statement of the run handed the row out |
| `IngestionQueue.TablesDoNotTell` | scripts/collect-source.ts:360-368 | two runs from empty tables end in the same tables, and another collection is harmless after one and not after the other |
| `IngestionQueue.CollectingAFailedDocumentIsUnsafe` | packages/ingestion/src/web-url-source.ts:134-142 | in every admissible run another collection of a failed document that no graph worker failed lets earlier tickets return |
| `IngestionQueue.CollectsOnce` | scripts/collect-source.ts:257-305 | a version that is known keeps its row, a new one starts fetched without a parsed URI, and the queue stays as it is |
| `IngestionQueue.AbandonedRowsAreTakenOver` | scripts/parse-raw-documents.ts:100-157 | a row that its worker abandons can be dequeued again if and only if its lease has run out |
| `IngestionQueue.IndexesTheNewest` | scripts/chunk-and-embed.ts:291-350 | activating chunks marks a document and its queue row indexed exactly while it is a parsed version of its source that no newer parsed one replaces; otherwise nothing changes |
| `IngestionStore.RetryUndoesAGraphFailure` | scripts/ingest-workflow.ts:1001-1031 | after a graph failure a retry reset gives the document back as it was parsed, and its row waits with the attempts it had |
| `IngestionStore.FirstMatchingQualify` | scripts/lib/ingest-workflow-reprocess.ts:214-256 | a limited selection holds only qualifying rows, each once, and all of them unless the limit was reached |
| `IngestionStore.FirstMatchingIsFirst` | scripts/lib/ingest-workflow-reprocess.ts:214-256 | a limited selection is the first rows of the order that are wanted, in that order, and all of them unless the limit was reached |
| `IngestionStore.RetryResetResetsFailures` | scripts/ingest-workflow.ts:975-1038 | in both tables: which rows a retry reset reaches, what becomes of them and of their documents, and that nothing else changes |
| `IngestionStore.Store.QueueCandidate` | scripts/collect-source.ts:333-371 | is the queueing step: the row of a document that has one is pending with 0 attempts and its old lease, another document gets a pending row without a lease, an unknown one changes nothing |
| `IngestionStore.Store.DequeueTargets` | scripts/parse-raw-documents.ts:100-157 | leases the first rows of the order that are pending, failed or abandoned and whose document is fetched or failed: they are parsing with one attempt more and a new lease, all others stay, and the tickets name row, document and attempt |
| `IngestionStore.Store.MarkParsed` | scripts/parse-raw-documents.ts:188-220 | if the row is parsing under the attempt of the ticket, the row is parsed without a lease and the document parsed with its URI and parser; otherwise nothing changes; the invariant is kept |
| `IngestionStore.Store.MarkFailed` | scripts/parse-raw-documents.ts:222-252 | the same for a failure, which keeps the old parsed URI |
| `IngestionStore.Store.MarkHeld` | scripts/parse-raw-documents.ts:254-282 | the same for a held document |
| `IngestionStore.Store.ResetFailedQueue` | scripts/ingest-workflow.ts:975-1038 | every failed or abandoned row among the wanted ones waits again with its attempts and without a lease; its document is parsed if its parsed URI is left and fetched otherwise, with URI and parser as they were; every other row and document stays; the number of such rows is returned for both tables |
| `IngestionStore.Store.ResetStaleParserRawDocuments` | scripts/lib/ingest-workflow-reprocess.ts:133-212 | the first rows in order that nobody else has locked, parsed by another version than the active one and not replaced by a newer document, wait again and their documents lose URI and parser; nothing else changes; it returns how many documents that were and how many such rows remain in the whole scope, locked ones included |
| `IngestionStore.Store.MarkGraphIndexed` | scripts/lib/postgres-graph-indexing-adapter.ts:551-569 | the document and its queue row are indexed, everything else of both tables stays |
| `IngestionStore.Store.MarkGraphFailed` | scripts/lib/postgres-graph-indexing-adapter.ts:571-590 | the document and its queue row are failed, everything else of both tables stays |
| `ReportSchedule.ReachableStatesAreConsistent` | scripts/report-schedule-dispatcher.ts:85-380 | the run and materializer invariants hold in every state of every interleaving |
| `ReportSchedule.RunsAreFinishedHeadUntouched` | scripts/report-schedule-dispatcher.ts:134-211 | in period order there are finished runs, at most one active head, then untouched runs; attempts stay within 4, and are 4 exactly when the head is exhausted; a token is set exactly while running |
| `ReportSchedule.FinishedRunsAreFinal` | scripts/report-schedule-dispatcher.ts:230-275 | a succeeded or skipped run never changes again |
| `ReportSchedule.RunsCompleteOnce` | scripts/report-schedule-dispatcher.ts:230-275 | a period run is completed at most once |
| `ReportSchedule.HolderIsLatestClaimer` | scripts/report-schedule-dispatcher.ts:188-194 | a running run carries the token and start time of its latest claim |
| `ReportSchedule.OnlyTheLatestClaimerCompletes` | scripts/report-schedule-dispatcher.ts:213-275 | only the latest claimer completes a run, and within 60 minutes of its claim |
| `ReportSchedule.FailuresBackOff` | scripts/report-schedule-dispatcher.ts:276-298 | the claim after a failure waits at least 15, 60 and 360 minutes, and after the fourth failure there is none |
| `ReportSchedule.HeartbeatsOnlyExtend` | scripts/report-schedule-dispatcher.ts:213-229 | a heartbeat never shortens a lease nor carries it past started_at plus 60 minutes |
| `ReportSchedule.MaterializedPeriodsAreAPrefix` | scripts/report-schedule-dispatcher.ts:85-133 | overlapping materializers leave a gap-free prefix of the periods, and next_run_at neither moves back nor passes it |
| `ReportSchedule.CallsReportAtMostTheirLimit` | scripts/report-schedule-dispatcher.ts:85-133 | however materializers overlap and the clock moves, a call has at every moment reported at most its limit |
| `ReportSchedule.StatusIsTheMark` | scripts/report-schedule-dispatcher.ts:230-275 | over every run from a state without finished runs a period run is succeeded if and only if an earlier statement marked it succeeded under a live lease, and skipped if and only if one marked it skipped |
| `ReportSchedule.UndisturbedClaimMaterializes` | scripts/report-schedule-dispatcher.ts:85-133 | a call with room on a due and free schedule that nobody disturbs inserts the next due periods, ten or what its limit leaves, reports them, and gives the schedule back behind them |
| `ReportSchedule.CallsBeginAndEnd` | scripts/report-schedule-dispatcher.ts:85-133 | a call begins with nothing reported, and its return leaves everything else as it was |
| `ReportSchedule.AbandonedRunsAreTakenOver` | scripts/report-schedule-dispatcher.ts:134-211 | a run that its worker abandons can be claimed again if and only if 15 minutes have passed |
| `ReportSchedule.AbandonedSchedulesAreTakenOver` | scripts/report-schedule-dispatcher.ts:319-355 | when a call crashes after its claim, another one takes the schedule over from the same period if and only if 15 minutes have passed |
| `ReportCalendar.PeriodsAbut` | apps/web/src/report-schedule-periods.ts:53-74 | the period of a weekly, monthly or annual slot ends on the day before the slot, the next period starts on the slot's day, and no period is empty |
| `ReportCalendar.SlotsIncrease` | apps/web/src/report-schedule-periods.ts:156-166 | later slots of a schedule are strictly later instants |
| `ReportCalendar.OrdinalsOrderPeriods` | scripts/report-schedule-dispatcher.ts:167-183 | the ordinals of periods order them as their start dates do, and as their end dates do |
| `ReportCalendar.EveryDayIsCovered` | apps/web/src/report-schedule-periods.ts:53-74 | from the first period on every day before the last slot lies in one of the periods |
| `ReportCalendar.YearLength` | apps/web/src/report-schedule-periods.ts:69-72 | a year has 366 days if it is a leap year and 365 otherwise |
| `ReportCalendar.MonthLength` | apps/web/src/report-schedule-periods.ts:64-68 | April, June, September and November have 30 days, February 29 in leap years and 28 otherwise, all other months 31 |
| `ReportCalendar.FourCenturiesRepeat` | apps/web/src/report-schedule-periods.ts:64-72 | the calendar repeats every 400 years, after 146097 days, which are whole weeks |
| `ReportCalendar.KnownDays` | apps/web/src/report-schedule-periods.ts:60-63 | 1 January 1970 is day 719528, and weekly slots are the Mondays counted from 5 January 1970 |
| `ReportCalendar.NineInTokyoIsMidnight` | apps/web/src/report-schedule-periods.ts:156-166 | nine o'clock in Tokyo is midnight of the same day in UTC, and minutes count from there |
| `ReportCalendar.EnumerateSlots` | apps/web/src/report-schedule-periods.ts:122-138 | the loop returns the periods of the consecutive due slots up to the limit, and the slot behind them |
| `ReportCalendar.EnumerateDuePeriods` | apps/web/src/report-schedule-periods.ts:113-138 | a limit outside 1 to 500 is refused; otherwise the periods of the due slots come back in order, up to the limit, with the slot to resume at, and there are more exactly when that slot is due |
| `ReportScheduleStore.EnumerationsChain` | apps/web/src/report-schedule-periods.ts:113-138 | enumerating in batches yields what one enumeration yields |
| `ReportScheduleStore.EnumerateDue` | apps/web/src/report-schedule-periods.ts:125-131 | counts the consecutive due slots up to the limit of one claim |
| `ReportScheduleStore.OnlyTheHeadIsClaimable` | scripts/report-schedule-dispatcher.ts:167-183 | no run after the first unfinished one can be claimed |
| `ReportScheduleStore.Store.MaterializeDue` | scripts/report-schedule-dispatcher.ts:85-133 | one call materializes exactly the first due periods up to the limit, leaves next_run_at behind them, reports their number, and does nothing under a foreign lease; every period it passes is due, and it stops short of its limit only before one that is not |
| `ReportScheduleStore.Store.ClaimDueSchedule` | scripts/report-schedule-dispatcher.ts:319-355 | leases the schedule for 15 minutes under a new token exactly when it is due and free |
| `ReportScheduleStore.Store.ReleaseSchedule` | scripts/report-schedule-dispatcher.ts:357-380 | moves next_run_at and frees the lease exactly when the lease is still held |
| `ReportScheduleStore.Store.ClaimRunnable` | scripts/report-schedule-dispatcher.ts:134-212 | claims an unlocked run that waits or whose lease has ended, with all earlier ones succeeded or skipped: it is running under the token for 15 minutes from now; or there is no such run and nothing changes |
| `ReportScheduleStore.Store.Heartbeat` | scripts/report-schedule-dispatcher.ts:213-229 | exactly for the live lease of the token and within the hour after the claim, moves the lease to 15 minutes from now or to the end of the hour |
| `ReportScheduleStore.Store.MarkSucceeded` | scripts/report-schedule-dispatcher.ts:230-252 | exactly for the live lease of the token the run is succeeded without token and lease and the retry count 0; otherwise nothing changes |
| `ReportScheduleStore.Store.MarkSkipped` | scripts/report-schedule-dispatcher.ts:253-275 | exactly for the live lease of the token the run is skipped without token and lease and the retry count 0; otherwise nothing changes |
| `ReportScheduleStore.Store.MarkFailed` | scripts/report-schedule-dispatcher.ts:276-315 | exactly for the live lease of the token the run waits 15, 60 or 360 minutes after its first three failures and is exhausted after the fourth; otherwise nothing changes |
| `ReportScheduleDispatch.Settle` | scripts/lib/report-schedule-dispatcher.ts:129-197 | one claimed run makes exactly the updates that its execution calls for, the completion first, and ends in one way: succeeded, skipped or failed when that update was acknowledged, lease lost when a heartbeat had lost it or an update was refused, rejected when recording the failure threw |
| `ReportScheduleDispatch.EndsOneWay` | scripts/lib/report-schedule-dispatcher.ts:129-197 | what an iteration meets decides one way in which it ends |
| `ReportScheduleDispatch.Dispatch` | scripts/lib/report-schedule-dispatcher.ts:92-200 | for every claimed run exactly one success or skip, by its execution, is tried if it returned in time with its lease, exactly one failure if something was caught with the lease not lost, and nothing else; each counter is the number of runs that ended so, they add up to claimed, and each but leaseLost is the number of acknowledged updates; the loop rejects if and only if in some iteration that it comes to the claim throws, or a run is claimed whose failure cannot be recorded |
| `SourceSync.NextDailyIsNext` | scripts/source-sync-dispatcher.ts:93-98 | the computed time is a daily instant, strictly later than now, and the first such |
| `SourceSync.ReachableStatesAreConsistent` | scripts/source-sync-dispatcher.ts:33-140 | the invariant of the schedule row holds in every state of every run of workers |
| `SourceSync.OneSuccessADay` | scripts/source-sync-dispatcher.ts:88-111 | two successes never fall between the same two consecutive daily instants |
| `SourceSync.CompletionsEndTheLatestClaim` | scripts/source-sync-dispatcher.ts:71-140 | each completion ends the claim right before it, with its token, once, and less than an hour after it |
| `SourceSync.FourthFailureWaitsForTheDay` | scripts/source-sync-dispatcher.ts:112-140 | the retry count is the number of failures since the last success modulo 4; three failures wait a quarter of an hour, an hour and six hours, every fourth waits for the daily time |
| `SourceSync.HeartbeatsOnlyExtend` | scripts/source-sync-dispatcher.ts:71-87 | a heartbeat never shortens a lease nor carries it past an hour after the claim |
| `SourceSync.LeasesAreShort` | scripts/source-sync-dispatcher.ts:50-87 | in every reachable state a lease ends within 15 minutes from now and within an hour of its claim |
| `SourceSync.AbandonedClaimsAreTakenOver` | scripts/source-sync-dispatcher.ts:33-70 | a schedule that its worker abandons is due again if and only if 15 minutes have passed |
| `SourceSync.Schedule.ClaimDue` | scripts/source-sync-dispatcher.ts:33-70 | exactly when the schedule is due and free, it is held under the token for 15 minutes from now, and nothing else of it changes |
| `SourceSyncTable.Schedules.ClaimDue` | scripts/source-sync-dispatcher.ts:33-70 | claims the earliest enabled, due, free and unlocked schedules by next run and id, up to the limit, each for 15 minutes from now, and changes no other |
| `SourceSyncTable.EarliestIsUnique` | scripts/source-sync-dispatcher.ts:47-49 | order and limit leave only one list of schedules to claim |
| `SourceSyncTable.ClaimsAreSteps` | scripts/source-sync-dispatcher.ts:50-58 | what the statement does to one row is the claim step of its schedule |
| `SourceSync.Schedule.ExtendLease` | scripts/source-sync-dispatcher.ts:71-87 | exactly for a running lease of the token within its hour, the lease ends 15 minutes from now or with the hour |
| `SourceSync.Schedule.MarkSucceeded` | scripts/source-sync-dispatcher.ts:88-111 | exactly for the holder of the lease: the next run is the next daily time, the token is gone and the retry count 0 |
| `SourceSync.Schedule.MarkFailed` | scripts/source-sync-dispatcher.ts:112-140 | exactly for the holder of the lease: the next run comes after 15, 60 and 360 minutes or, for the fourth failure, at the next daily time, and the retry count goes on or back to 0 |
| `SortedStrings.SortedSetsCompare` | scripts/lib/graph-migration-audit.ts:56-59 | two normalized string lists are equal exactly when the originals hold the same strings |
| `SortedStrings.LessIsLexicographic` | scripts/lib/graph-migration-audit.ts:175-187 | one string is before another if and only if it ends first or has the smaller character where they first differ |
| `KeyedRows.SameRows` | scripts/lib/graph-migration-audit.ts:245-264 | two indexed row lists without repeated keys agree key by key exactly when they hold the same rows |
| `KeyedRows.FirstIsTheFirst` | scripts/lib/graph-migration-audit.ts:245-264 | of rows that share a key the index holds the first |
| `GraphAudit.KeyIsLink` | scripts/lib/graph-migration-audit.ts:266-273 | with digests of 64 characters the joined key is equal exactly for equal links, SAME_AS taken unordered |
| `GraphAudit.CanonicalEndsUnordered` | scripts/lib/graph-migration-audit.ts:175-187 | canonical SAME_AS endpoints are equal exactly for equal unordered pairs |
| `GraphAudit.WellFormedIsClean` | scripts/lib/graph-migration-audit.ts:211-289 | the duplicate, orphan and unknown counts of one side are zero exactly when it has unique nodes and links, known types and existing endpoints |
| `GraphAudit.GateMeansSameGraph` | scripts/lib/graph-migration-audit.ts:65-173 | the gate passes if and only if nothing is truncated, all five blocking counts of the source audit are zero, both inventories are well formed, and both list the same graph of label sets, property-key sets and links; it is inconclusive if and only if something is truncated |
| `GraphAudit.SwapSwapsOneSidedCounts` | scripts/lib/graph-migration-audit.ts:84-173 | swapping the inventories swaps the one-sided counts and nothing else |
| `GraphAudit.SharedNodesAgree` | scripts/lib/graph-migration-audit.ts:88-108 | distinct nodes minus side-only nodes agree on both sides, and rows are distinct nodes plus duplicates |
| `GraphAudit.RearrangingKeepsGate` | scripts/lib/graph-migration-audit.ts:65-287 | reordering rows and turning SAME_AS edges around never changes the gate nor the counts of duplicates, orphans, unknown types and one-sided nodes, and changes nothing at all when no row repeats |
| `GraphCounts.ComparisonCountsRows` | scripts/lib/graph-migration-audit.ts:84-108 | the node counts are sizes of the differences of the digest sets and rows beyond them; unknown types and orphans are counted row by row |
| `GraphCounts.ComparisonCountsLinks` | scripts/lib/graph-migration-audit.ts:110-134 | with digests as endpoints the one-sided edge counts are the links of known type that one side alone lists, and duplicates are the rows beyond the links |
| `GraphCounts.MismatchesAreChanges` | scripts/lib/graph-migration-audit.ts:88-134 | where every node and link is listed once, the mismatches are the nodes and edges that both sides list with different labels or property keys |
| `GraphCounts.GateFollowsTheCounts` | scripts/lib/graph-migration-audit.ts:136-157 | the gate is inconclusive when something was cut off, passes when every count and every blocking count of the audit is zero, and is blocked otherwise |
| `GraphAuditLoops.AnalyzeNodes` | scripts/lib/graph-migration-audit.ts:211-222 | counts the rows beyond the distinct digests |
| `GraphAuditLoops.AnalyzeEdges` | scripts/lib/graph-migration-audit.ts:224-243 | counts the rows beyond the distinct keys and the rows of unknown type |
| `GraphAuditLoops.IndexNodesByDigest` | scripts/lib/graph-migration-audit.ts:245-253 | maps every digest to its first row |
| `GraphAuditLoops.IndexEdgesByKey` | scripts/lib/graph-migration-audit.ts:255-264 | maps every key to its first row |
| `GraphAuditLoops.CountOrphanEdges` | scripts/lib/graph-migration-audit.ts:275-289 | counts the edges with an endpoint that is no node |
| `GraphAuditLoops.SameStringArrays` | scripts/lib/graph-migration-audit.ts:291-301 | is equality of lists |
| `GraphAuditLoops.CompareNodes` | scripts/lib/graph-migration-audit.ts:84-108 | the loop over the union of digests finds the sizes of both differences and of the set of mismatches |
| `GraphAuditLoops.CompareEdges` | scripts/lib/graph-migration-audit.ts:110-134 | the loop over the union of keys does the same for edges of known type |
| `GraphAuditLoops.CompareGraphInventories` | scripts/lib/graph-migration-audit.ts:65-173 | the summary is the comparison that the gate theorem speaks of, and every one of its counts is what the four rows above say |
| `KeywordBackfill.ChunkTable.BackfillKeywords` | scripts/lib/keyword-backfill.ts:92-159 | one batch: an execute call sets the keywords of the first chunks of the scope that lack one behind the cursor, changes nothing else and resumes at the last of them; dry runs and status calls change nothing; total and pending are the numbers of chunks of the scope and of those without a keyword after the update |
| `KeywordBackfill.BatchFillsTheFirst` | scripts/lib/keyword-backfill.ts:105-133 | a batch fills exactly the first rows waiting behind the cursor, up to the limit |
| `KeywordBackfill.WaitingAfterBatch` | scripts/lib/keyword-backfill.ts:105-133 | after a batch exactly the waiting rows that it did not select still wait behind the new cursor |
| `KeywordBackfill.ChainedBatches` | scripts/lib/keyword-backfill.ts:92-159 | k chained batches fill the first k times limit NULL chunks of the range in order, each once, and touch nothing else |
| `KeywordBackfill.NonEmptyBatches` | scripts/lib/keyword-backfill.ts:105-133 | the next batch selects something exactly while k times limit is below the number of waiting chunks, so ceil(n / limit) batches do |
| `KeywordBackfill.BackfillFinishes` | scripts/lib/keyword-backfill.ts:134-157 | without a starting cursor pending is 0 after k batches exactly when k times limit covers what was pending |
| `KeywordBackfill.PendingIsAheadOrInsertedBehind` | scripts/lib/keyword-backfill.ts:86-91 | among inserts and deletes of other writers pending always counts the rows still ahead of the cursor plus those inserted behind it |
| `KeywordBackfill.TokensResumeTheirScope` | scripts/lib/keyword-backfill.ts:59-82 | the token of a batch is accepted by its own scope and refused by any other |
| `KeywordBackfill.TokensOutsideTheRangeAreRefused` | scripts/lib/keyword-backfill.ts:59-82 | a token is accepted if and only if it names the scope and its document lies in the range |
| `GraphRebuild.BatchesAreSlices` | scripts/lib/postgres-graph-indexing-adapter.ts:681-711 | with distinct digests batch k is the k-th slice of the table |
| `GraphRebuild.RebuildIsOneScan` | scripts/lib/postgres-graph-migration.ts:224-254 | the batches are together one scan in digest order, one batch more than there are full pages |
| `GraphRebuild.OneScanNeedsDistinctDigests` | scripts/lib/postgres-graph-indexing-adapter.ts:702-708 | rebuilds are one scan for every limit if and only if no two documents share a digest |
| `GraphRebuild.ResumingEnds` | scripts/lib/postgres-graph-migration.ts:242-253 | each resumed batch has strictly fewer rows ahead, so following the cursors ends whatever the digests |
| `GraphRebuild.SameAsIsUnordered` | scripts/lib/postgres-graph-migration.ts:310-320 | both directions of a SAME_AS edge share a key |
| `GraphRebuild.EdgeKeysIdentifyEdges` | scripts/lib/postgres-graph-migration.ts:310-319 | without the separator in their parts two keys are equal if and only if type and endpoints are, SAME_AS endpoints in either order |
| `GraphRebuild.MutationsAreCarried` | scripts/lib/postgres-graph-migration.ts:68-139 | the mutations counted for a page are those of its documents, each up to the first refused one |
| `GraphRebuild.MutationsAreCounted` | scripts/lib/postgres-graph-migration.ts:68-139 | each of them is counted once |
| `GraphRebuild.FailuresAreFailedRows` | scripts/lib/postgres-graph-migration.ts:68-139 | the failures are the number of documents with a refused mutation or another reason to fail |
| `GraphRebuild.Collector.Upsert` | scripts/lib/postgres-graph-migration.ts:305-328 | refuses exactly the SAME_AS edges with blank or equal endpoints, and changes nothing then; the sets are the distinct nodes and edges carried out, and with the duplicate counter they add up to what was carried out |
| `GraphRebuild.StoreDocument` | packages/ingestion/src/graph-relations.ts:127-166 | carries out the mutations of one document up to the first refused one, and fails exactly when there is one |
| `GraphRebuild.RunGraphRebuild` | scripts/lib/postgres-graph-migration.ts:68-139 | a batch reports its page, the documents that failed, by a refused edge or otherwise, distinct nodes and edges, duplicates and resume cursor; a failing execute batch is refused, and a failing dry run has more to do but no cursor |
| `GraphTargets.SelectGraphIndexTargets` | scripts/lib/graph-target-selection.ts:28-47 | the loop takes the first rows that lack a node or are freshly parsed, and all of them unless the limit is reached |
| `GraphTargets.AddRelated` | scripts/lib/postgres-graph-indexing-adapter.ts:227-244 | the loop adds candidate rows of nodes not selected yet while there is room |
| `GraphTargets.LackersNameAMissingEdge` | scripts/lib/postgres-graph-indexing-adapter.ts:295-354 | a row lacks a related edge if and only if its node exists, its text names related documents, and the last such text of its node names another known document to which no edge leads |
| `GraphTargets.AddedRowsAreNew` | scripts/lib/postgres-graph-indexing-adapter.ts:227-244 | what is added stays within the limit, comes from the candidates, and brings each new node once |
| `GraphTargets.SelectFromPage` | scripts/lib/postgres-graph-indexing-adapter.ts:208-246 | one page adds its wanted rows in order, then qualifying related rows, none twice |
| `GraphTargets.LackingRowsLeftBehind` | scripts/lib/postgres-graph-indexing-adapter.ts:227-244 | a page leaves room and yet misses the node of a lacking row if and only if the node is new, the lacking rows in front fill the room, and one of these is already selected or repeated; then more rows lack an edge than there is room |
| `GraphTargets.ScanLeavesBehind` | scripts/lib/postgres-graph-indexing-adapter.ts:204-250 | a scan that ends with room left misses the node of a lacking row if and only if the row's page overlooks it and no later page selects its node |
| `GraphTargets.RowLeftBehind` | scripts/lib/postgres-graph-indexing-adapter.ts:227-244 | two rows that lack an edge, the first parsed anew, and room for two: the scan returns the first alone |
| `GraphTargets.ReadGraphTargets` | scripts/lib/postgres-graph-indexing-adapter.ts:190-250 | at most limit rows, none repeated, all qualifying; the wanted ones in table order without a gap, and all of them when fewer than limit come back; the scan ends, with the result that `ScanLeavesBehind` speaks of |
| `GraphTargets.PlainScan` | scripts/lib/postgres-graph-indexing-adapter.ts:190-250 | when only wanted rows come back, paging equals one plain scan cut off at the limit |
| `MigrationText.TrimKeepsLines` | scripts/db-migrate.ts:95-103 | trimming a text brings up no line that it did not have, up to white space |
| `MigrationText.TrimIsTheMiddle` | scripts/db-migrate.ts:70-74 | trimming leaves the middle of a text between white space, and nothing of it begins or ends with white space |
| `MigrationFile.ParseStatements` | scripts/db-migrate.ts:91-121 | the loop over line and statement buffers computes what the break lines of the body decide: the trimmed groups between them, a blank last one dropped, or the first error |
| `MigrationFile.ParseFile` | scripts/db-migrate.ts:68-85 | the file is non-transactional, or an error, if and only if some line with only blank lines before it trims to the directive, and then its statements are those that the text behind that line decides; in every other case it is transactional, its SQL is the whole content and it has no statements |
| `MigrationFile.SplitIsUnique` | scripts/db-migrate.ts:106-112 | lines split into groups at their break lines in one way only |
| `MigrationFile.StatementsMeaning` | scripts/db-migrate.ts:91-121 | the groups that a body splits into at its break lines decide its statements, or its error |
| `MigrationFile.AcceptedStatementsAreClean` | scripts/db-migrate.ts:91-121 | an accepted body yields at least one statement, and only non-empty, trimmed statements without a break line |
| `MigrationFile.GroupsAreTheBody` | scripts/db-migrate.ts:106-112 | the groups and the break lines between them are all lines of the body in order |
| `MigrationFile.PrintedStatementsParseBack` | scripts/db-migrate.ts:87-121 | printing any non-empty list of clean statements with break lines parses back to the list |
| `MigrationFile.PrintedFilesParseBack` | scripts/db-migrate.ts:64-85 | the same for a whole file under the no-transaction directive, after any blank lines |
| `MigrationRunner.ReachableStatesAreConsistent` | scripts/db-migrate.ts:294-322 | the invariant holds in every state of every run of concurrent migrators that may stop anywhere |
| `MigrationRunner.RecordedVersionsAreAPrefix` | scripts/db-migrate.ts:304-316 | the recorded versions are always a prefix of file-name order |
| `MigrationRunner.RecordedVersionsRan` | scripts/db-migrate.ts:133-148 | a recorded version had all its parts committed, its whole body or every statement, one after the other and in order |
| `MigrationRunner.TransactionsCommitOnce` | scripts/db-migrate.ts:144-148 | a transactional body is committed exactly once if its version is recorded, and never otherwise |
| `MigrationRunner.EffectsFollowTheDirectory` | scripts/db-migrate.ts:308-315 | nothing of a migration is committed before everything of the earlier ones |
| `MigrationRunner.OneMigratorAtATime` | scripts/db-migrate.ts:306-321 | at most one migrator is past the lock |
| `MigrationRunner.RecordedOnlyGrows` | scripts/db-migrate.ts:150-158 | no version is ever forgotten |
| `MigrationRunner.StatementsCanRepeat` | scripts/db-migrate.ts:124-142 | for every statement of every non-transactional migration there is a run from the empty database that commits it twice |
| `MigrationRunner.OnlyStatementsCanRepeat` | scripts/db-migrate.ts:124-148 | some run commits a part of a migration twice if and only if the part is a statement of a non-transactional migration |
| `MigrationDatabase.Database.ExecuteStatements` | scripts/db-migrate.ts:124-131 | commits the statements in order up to the first failing call |
| `MigrationDatabase.Database.ApplyLoadedMigration` | scripts/db-migrate.ts:134-148 | records the version exactly when every call succeeded, one for a transaction or one for each statement and the record, and commits nothing of a failed transaction |
| `MigrationDatabase.Database.MigrateDatabase` | scripts/db-migrate.ts:294-322 | takes only steps of the machine, succeeds exactly when the lock, the version table, every look-up and every SQL call of a missing migration do, then has applied precisely what was missing; otherwise it changed nothing or keeps all before the migration it stopped in; the lock is free in the end |
| `HandlerCache.Resolver.Resolve` | apps/web/src/activitypub-proxy.ts:232-254 | answers with the cached handler, else with the attempt under way, and starts one, filling the slot, only if there is neither |
| `HandlerCache.Resolver.Settle` | apps/web/src/activitypub-proxy.ts:237-243 | stores the handler exactly when it may be cached |
| `HandlerCache.Resolver.Clear` | apps/web/src/activitypub-proxy.ts:245-251 | frees the slot exactly when it is the attempt's own |
| `HandlerCache.SingleFlight` | apps/web/src/activitypub-proxy.ts:215-254 | without reset at most one initialization runs at a time |
| `HandlerCache.OnlyCacheableIsCached` | apps/web/src/activitypub-proxy.ts:238-241 | with or without resets a cached handler came from an attempt that allowed caching |
| `HandlerCache.OneCacheableAttempt` | apps/web/src/activitypub-proxy.ts:233-243 | without reset at most one attempt is ever cacheable, and its handler is the cached one |
| `HandlerCache.FailuresAreRetried` | apps/web/src/activitypub-proxy.ts:236-251 | once failed attempts are cleared the next caller starts a new one |
| `HandlerCache.ConcurrentCallersJoin` | apps/web/src/activitypub-proxy.ts:236-253 | callers during an attempt join it and start nothing |
| `HandlerCache.CachedForGood` | apps/web/src/activitypub-proxy.ts:233-235 | once cached, every later caller gets that handler and no attempt starts |
| `HandlerCache.AttemptsFreeTheirOwnSlot` | apps/web/src/activitypub-proxy.ts:247-251 | with resets too the slot never names a cleared attempt, and no event changes it but a caller finding it empty, the clearing of the attempt in it, and a reset |
| `HandlerCache.ResetsBoundConcurrency` | apps/web/src/activitypub-proxy.ts:232-258 | over any run at most one more initialization is running than there were resets |
| `HandlerCache.ResetForgetsWhenIdle` | apps/web/src/activitypub-proxy.ts:255-258 | whatever follows a reset, everything cached comes from an attempt started after it, if and only if no attempt is running at the reset |
| `HandlerCache.StaleAttemptFillsTheCache` | apps/web/src/activitypub-proxy.ts:237-258 | any attempt that is running at a reset fills the cache after it when it settles with a handler that may be cached |
| `ChunkVersions.Store.ReplaceDocumentChunks` | scripts/chunk-and-embed.ts:213-288 | exactly for a parsed version with no newer parsed version of its source: archives the document's chunks under the version it had, moves the document to version and title, installs the new chunks and marks the version indexed; otherwise changes nothing |
| `ChunkVersions.Store.ActivateDocumentVersion` | scripts/chunk-and-embed.ts:180-194 | moves the document to version and title and marks the version indexed, exactly when no newer parsed version of its source exists; otherwise changes nothing |
| `ChunkVersions.ChunksAreConserved` | scripts/chunk-and-embed.ts:213-288 | over any run every chunk ever written is in the current table or in the history, never in both, never twice |
| `ChunkVersions.WrittenChunksAreKept` | scripts/chunk-and-embed.ts:213-288 | over any run every chunk that some statement wrote is in the current table or in the history with the content it was written with |
| `ChunkVersions.HistoryIsFinal` | scripts/chunk-and-embed.ts:220-252 | over any run history rows never change and never go away |
| `ChunkVersions.HistoryRowsAreFaithful` | scripts/chunk-and-embed.ts:220-284 | each history row holds its chunk as an earlier statement wrote it, with the version that its document had at the later statement that replaced it |
| `ChunkVersions.ReplaceArchives` | scripts/chunk-and-embed.ts:220-252 | each replaced chunk gets one history row with the version that its document had; chunks of other documents stay |
| `ChunkVersions.ReplaceInstallsChunks` | scripts/chunk-and-embed.ts:253-284 | after a replacement the document's chunks are exactly the new ones |
| `ChunkVersions.TrueMeansLatest` | scripts/chunk-and-embed.ts:291-327 | a replace or activate that returns true leaves the document on the greatest processable version |
| `ChunkVersions.LaterVersionsSupersede` | scripts/chunk-and-embed.ts:291-327 | once a later parsed version of the source is collected, replacing or activating the older one changes nothing |
| `ChunkVersions.VersionsNeverGoBack` | scripts/chunk-and-embed.ts:291-350 | while processable versions stay processable no document ever returns to an older version |
| `ChunkVersions.OnlyUnprocessableVersionsAreLeft` | scripts/chunk-and-embed.ts:291-350 | whatever happens to the versions, a step moves a document to an older version only if its current one is not processable |
| `ChunkVersions.ResetLetsADocumentGoBack` | scripts/chunk-and-embed.ts:180-194 | after a reset of its version an activation takes a document back to the next older processable version |

## Left out

- RankMetrics.NdcgIsNormalized: grades are naturals and numbers are reals, so fractional or negative grades and floating-point rounding are not covered; the corpus and the report around the metrics are absent.
- IngestionQueue.ReachableStatesAreConsistent: the reset that the administration pages offer, which also sets `attempts` to 0 and leaves a parsed URI on fetched documents, is not a step.
- IngestionQueue.ReprocessedDocumentsAreReparsed: a worker is known by its ticket alone, so after a re-collection it may be an earlier worker that holds the same ticket.
- IngestionStore.Store.DequeueTargets: which unlocked rows come first is the parameter `order`; hold reasons, error texts, parser artifact fields and scheduling times are not columns of the model.
- ReportSchedule.ReachableStatesAreConsistent: one schedule with one frequency, whose slots are any sequence of instants, those of `ReportCalendar` among them; changing or deleting a schedule is not a step.
- ReportCalendar.EnumerateDuePeriods: dates are day numbers and slots are canonical by construction, so parsing instants, formatting dates and refusing slots off the calendar are absent; the first slot of a new schedule and the initial backfill are absent too.
- ReportScheduleStore.Store.ClaimRunnable: the claim limit only distinguishes zero from more, since one schedule has at most one claimable run.
- ReportScheduleDispatch.Dispatch: timers, abort signals and promise races are outcomes given in a script; the materializing call before the loop is `MaterializeDue`; a rejection of that call is not counted among those of the loop.
- SourceSync.OneSuccessADay: zones with daylight saving, edits of a schedule and disabled sources are absent.
- SourceSync.Schedule.ClaimDue: one schedule; the choice of the earliest among several due ones is that of `SourceSyncTable.Schedules.ClaimDue`, where the rows whose schedule and source are enabled are a parameter.
- GraphAudit.GateMeansSameGraph: stated for endpoint digests of 64 characters, the length of the digests that inventories carry; collecting the inventories and the SQL of the source audit are absent.
- KeywordBackfill.ChainedBatches: what the trigger derives from the content is the parameter `derive`; the scope digest of a token is taken to be injective.
- GraphRebuild.RebuildIsOneScan: speaks of batches without failures over a table that does not change; which mutations a document attempts and whether it fails for other reasons than a refused edge are parameters of `RunGraphRebuild`, and writing them to the database is absent.
- GraphTargets.ReadGraphTargets: claims no completeness for rows taken for missing related edges; what is left behind is said by `ScanLeavesBehind`; the text cache and the bounded read concurrency are absent.
- MigrationFile.ParseStatements: SQL is opaque text; a carriage return is white space, as in the program.
- MigrationRunner.ReachableStatesAreConsistent: a connection that breaks and reconnects within one process, and so goes on without the lock, is not a step; the directory does not change during a run.
- HandlerCache.SingleFlight: what an initialization does, and how requests are rebuilt and observed, is absent.
- ChunkVersions.VersionsNeverGoBack: requests are for the document's own source, with one version id for both of their id fields, as their only caller makes them; creating documents is not a step.
- ChunkVersions.Store.ReplaceDocumentChunks: embeddings and document fields other than the title are absent; the queue rows that marking a version also updates belong to `IngestionQueue`.
- Argument parsing, row parsers, HTTP routes, agents, user interface, authentication and deployment scripts have no model.
