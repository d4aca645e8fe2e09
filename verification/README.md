# Metric Sherlock: a verified model

Metric Sherlock scrapes Prometheus targets, compares what it finds with limits, saves a report
per target group, queues a violation fact for each violated check and relays the facts to Kafka.
This project models the parts of it that carry state across failures and replicas, and proves
what they keep:

- **From samples to facts** (`Violations`, `Processor`, `ReportLaws`, `CheckLaws`, `CheckLists`,
  `Whitelists`, `Reports`, `EndToEnd`). `Process` and the loops below it refine a summary of the observed samples
  that does not mention their order. Reports do not depend on the order or repetition of addresses and
  families, two reports merge exactly, disabling a check is local, and the facts in the outbox are
  characterised by the raw samples and by the history of whitelist requests.
- **The task queue** (`WorkerPool`, `TaskQueue`, `TaskQueueLaws`, `TaskRuns`, `TaskOutcomes`,
  `TaskBlocking`, `TaskFacts`, `TaskTable`, `TaskConsumer`, `Batching`). One step system over the
  task table, any number of consumers, their workers, result buffers and batches. Tasks are claimed
  at most once and are always in exactly one place; a row is pending, then running, then complete
  or error, as `Process` returned; the facts of a completed task enter the outbox once; the capacity bound of the pool is exact.
- **The outbox** (`Outbox`, `OutboxSystem`, `OutboxExclusive`). Any number of relays with crashes,
  lost marks and stale reclaim. What holds in every run is separated from what holds while rows
  are let go of in time, and that condition is shown to be exact. `Deliveries` joins the two
  halves: from a completed task to the Kafka writes of its facts.
- **The schedule** (`Schedule`, `ScheduleSystem`). The cron entry, the scheduler's copy and the
  stored key stay consistent across failures, and replicas converge on the stored key.

Conventions. SQL statements and transactions are atomic steps on maps and sequences. A storage
call that fails applies nothing, except where noted: a claim, a status update, a commit of reports,
a batch of inserts, an outbox mark and a write of a runtime setting may also be applied although the
caller sees an error. What a query returns, what the network answers and which calls fail are
parameters. Strings stand for byte strings, except in `Schedule`, where they are sequences of code
points. The five per-metric checks differ only in what identifies an entry, so their
`add*Violation`, `updateMax*` and `allWhitelisted*` functions are one operation over `Key`. The
cron grammar is a predicate that rejects the empty string.

Findings that the proofs bring out:

- A consumer submits a claimed batch from the same goroutine that drains results. With W workers
  the submits always finish exactly when unread and new tasks together number at most 2W; beyond
  that they never do. Ten tasks into five workers are safe only from an empty pool. Whatever W is,
  full claims that come faster than results are read block the consumer, with five workers the
  second one. It then stays blocked for good: `TaskConsumer.Stop` only signals the event loop, which
  is what is blocked, and cmd/main.go never cancels the context of the pool. Claims that fit never
  block (`CapacityBound`, `ClaimsBlock`, `BlockedForGood`, `FittingClaimsNeverBlock`).
- A relay that holds a row for more than a minute can turn a sent row back into a pending or failed
  one, or a failed one into a sent one (`LateRelayReverts`, `SettledReverts`); this cannot happen
  while rows are let go of in time (`SettledForever`, `StealableIffLate`).
- Two change requests on one replica can cross between the write of the key and its apply, and leave
  a replica running a schedule that is not the stored one until the next sync
  (`CrossedRequestsDiverge`, `SureToAgreeIff`).
- A stored schedule that does not parse cannot be replaced through `SetProduceTasksCronExpr`,
  which reads and validates the current value first (`SetCronExpr`).
- `sendBatch` logs the error of closing a batch and still returns success, so the caller of a
  successful call can be sure that the rows are stored exactly when every close succeeded
  (`SuccessStoresAllIff`, `SuccessWithoutRows`).
- A report whose commit is applied but reported as failed is saved again with its batch, and its
  facts enter the outbox once more each time, without bound; there is no other way to a duplicate
  (`FactsOncePerTask`, `DuplicateFacts`).
- A scrape whose whitelists cannot be loaded goes on without any, so samples that a rule excuses
  become facts (`FactIffUnexcusedSample`).
- The list queries read an empty group or env as "all", so the target rules of every env of a group
  apply to a scrape that has no env (`DisabledHistory`, `EmptyEnvReadsAll`, `EmptyEnvSilences`).
- With a negative limit and no samples a check is not violated although its current value exceeds
  the limit; validated limits exclude this (`AccumulatorsAgree`).

## Model

| member | source | states |
|---|---|---|
| `Violations.UpsertShape` | internal/scraper/report.go:105-118 | Adding a violation replaces the one entry with its key if the value is larger, or appends; nothing else moves. |
| `Violations.ObserveSummarises` | internal/scraper/report.go:105-125 | One add keeps the declarative summary: unique keys, a key exactly for each violated key, the largest value per key, a maximum that is an element of the list. |
| `Violations.TallySummarises` | internal/scraper/report.go:105-218 | After any run of adds the tally is the declarative summary of the samples seen. |
| `Violations.OrderIndependent` | internal/scraper/report.go:105-218 | Two runs over the same samples, in any order and with any repetition, give lists equal as sets, maxima of equal size and the same current value. |
| `Violations.ConcatIsMerge` | internal/scraper/report.go:105-218 | Observing A and then B equals merging the two separate tallies, entry by entry and in order. |
| `Violations.MaxIsFirst` | internal/scraper/report.go:120-125 | After any run of adds the maximum is the first of the largest violations; an equal one does not replace it. |
| `Violations.StatusOfTally` | internal/scraper/report.go:253-311 | Something is listed exactly when some sample violates; not all of it is whitelisted exactly when some sample without a custom limit exceeds the global limit. |
| `Violations.AccumulatorsAgree` | internal/scraper/processor.go:137-224 | Without custom limits, list and running maximum agree about violation if and only if the limit is not negative or something was sampled. |
| `Violations.CurrentBoundsEntries` | internal/scraper/processor.go:137-224 | The current value bounds every listed violation. |
| `Processor.MetricCheckLimit` | internal/scraper/processor.go:228-241 | The custom limit of the metric and check if there is one, otherwise the global one; violated means strictly above. |
| `Processor.WhitelistStatus` | internal/scraper/report.go:253-263 | Whether the list is non-empty, and whether it is non-empty and entirely whitelisted. |
| `Processor.Report.UpdateMax` | internal/scraper/report.go:120-125 | The maximum changes only to a strictly larger violation. |
| `Processor.Report.AddViolation` | internal/scraper/report.go:105-118 | The scan loop computes the deduplicating insertion and touches no other check. |
| `Processor.Report.Take` | internal/scraper/processor.go:137-149 | One enabled check takes one sample; a disabled one and all other checks stay as they are. |
| `Processor.Report.HandleLabel` | internal/scraper/processor.go:170-208 | A label gives one sample to each label check; an absent label gives none. |
| `Processor.Report.HandleOneSeries` | internal/scraper/processor.go:165-225 | A series gives its label samples and, for a histogram, its bucket count. |
| `Processor.Report.HandleMetricFamily` | internal/scraper/processor.go:124-226 | Each enabled check takes exactly the samples of the family, in order. |
| `Processor.Report.HandleAddress` | internal/scraper/processor.go:80-101 | A reachable address adds its samples and its weight; an unreachable one changes nothing. |
| `Processor.Report.BuildCheckResults` | internal/scraper/processor.go:243-312 | One result per enabled check, in the fixed order. |
| `Processor.BuildTable` | internal/scraper/processor.go:314-364 | The tables of limits and current values hold the value of each listed check and zero for the others; none without checks. |
| `Processor.Process` | internal/scraper/processor.go:38-122 | Fails exactly when no address was scraped; otherwise lists, maxima, weights, check results and the tables made from them are those of the specification for the loaded configuration, or the default one where the load failed, and report and target group carry the task's labels. |
| `ReportLaws.SamplesAreObserved` | internal/scraper/processor.go:124-226 | The samples a check folds are exactly the quantities present in the families of reachable addresses. |
| `ReportLaws.MetricFactIff` | internal/storage/postgres/reports.go:80-83 | A per-metric check yields an event exactly when it is enabled and some observed sample of a metric without a custom limit exceeds the global limit. |
| `ReportLaws.WeightFactIff` | internal/scraper/processor.go:92-100 | The response-weight event: enabled, and some successful response above the limit. |
| `ReportLaws.OneResultPerType` | internal/scraper/processor.go:243-312 | No check is reported twice. |
| `ReportLaws.TablesOfReport` | internal/scraper/processor.go:314-364 | In every report the two tables show the configured number and the current value of each enabled check, and zero for a disabled one. |
| `ReportLaws.ReportOrderIndependent` | internal/scraper/processor.go:80-101 | Permuting or repeating addresses and permuting families leaves the checks identical, the lists equal as sets and the maxima equal in size. |
| `ReportLaws.PermutationCovers` | internal/scraper/processor.go:80 | A permutation of the addresses is such a rearrangement. |
| `ReportLaws.RepetitionIsIdempotent` | internal/scraper/processor.go:80-101 | Processing the same answers again changes nothing. |
| `ReportLaws.ReportMerges` | internal/scraper/processor.go:80-101 | Processing A then B is merging the two reports: lists, maxima, response weight, check results and the weight shown in the details. |
| `ReportLaws.DisablingIsLocal` | internal/scraper/whitelist.go:30-36 | Disabling a check removes its result and violations and changes nothing else. |
| `ReportLaws.ViolatedIffAboveLimit` | internal/runtimeconfig/service.go:156-173 | With validated limits and no custom ones, violated means current above limit. |
| `ReportLaws.CurrentBoundsListed` | internal/scraper/processor.go:243-299 | In every report the current value bounds the listed violations. |
| `CheckLaws.ListedIff` | internal/scraper/processor.go:228-241 | A metric is listed exactly when the check is enabled and some sample of it exceeds its custom limit if it has one, the global limit otherwise; entries of metrics with a custom limit are the whitelisted ones, and each holds the largest sample of its key. |
| `CheckLaws.ViolatedIff` | internal/scraper/processor.go:243-299 | A reported check is violated exactly when some sample exceeds the limit in force for its metric, and whitelisted exactly when that never happens to a metric without a custom limit. |
| `CheckLaws.MetricNameFact` | internal/scraper/processor.go:137-149 | An event for metric names: enabled, and some scraped metric without a custom limit has a name longer than `maxMetricNameLen`. |
| `CheckLaws.CardinalityFact` | internal/scraper/processor.go:151-163 | An event for cardinality: some such metric has more series than `maxMetricCardinality`. |
| `CheckLaws.LabelNameFact` | internal/scraper/processor.go:178-191 | An event for label names: some label of such a metric has a name longer than `maxLabelNameLen`. |
| `CheckLaws.LabelValueFact` | internal/scraper/processor.go:193-207 | An event for label values: some label of such a metric has a value longer than `maxLabelValueLen`. |
| `CheckLaws.BucketsFact` | internal/scraper/processor.go:210-224 | An event for buckets: some histogram of such a metric has more buckets than `maxHistogramBuckets`. |
| `CheckLaws.ChecksAreListed` | internal/scraper/processor.go:243-312 | The results are the six checks in the fixed order, each with its configured number, without the disabled ones. |
| `Reports.BuildEvents` | internal/storage/postgres/reports.go:77-109 | The loop yields the facts of the report, exactly when no encoding fails. |
| `Reports.FactsMatchChecks` | internal/storage/postgres/reports.go:80-106 | Facts correspond one-to-one and in order with the violated checks that are not whitelisted. |
| `Reports.OutboxFactIff` | internal/storage/postgres/reports.go:77-109 | From samples to events: when saving a report enqueues a fact for a per-metric check. |
| `Reports.OutboxWeightFactIff` | internal/storage/postgres/reports.go:77-109 | The same for the response weight: enabled, and some response above the limit. |
| `Reports.FactContent` | internal/storage/postgres/reports.go:85-95 | Every fact carries the configured number of its check and a current value above it that is the largest one measured, for the response weight too. |
| `Reports.ReportStore.SaveReports` | internal/storage/postgres/reports.go:25-75 | Takes effect exactly when connecting, beginning, every encoding and every statement succeed and the commit is applied; then both tables hold the whole batch, otherwise neither changes. Reports success exactly when the commit is also acknowledged. |
| `Reports.BatchIsLast` | internal/storage/postgres/reports.go:15-23 | The upserts keep the last saved report per key. |
| `Reports.Replay` | internal/storage/postgres/reports.go:25-75 | Over any history of calls with failures, the outbox rows are the facts of the committed reports in order, and the reports table holds the last committed report per key. |
| `EndToEnd.ReadAgrees` | internal/scraper/whitelist.go:30-54 | The lookups on stored names and on checks agree. |
| `EndToEnd.FactIffUnexcusedSample` | internal/storage/postgres/reports.go:77-109 | After any history of whitelist requests, for a non-empty group and env, a fact is enqueued if and only if their surviving target rule does not name the check and some sample above the global limit belongs to a metric whose surviving rule has no limit for it; when the whitelists could not be loaded, no rule counts. |
| `EndToEnd.CustomLimitIs` | internal/scraper/whitelist.go:38-54 | The custom limit a scrape works with is the one in the last surviving upsert of the metric's rule, if the whitelists were loaded. |
| `EndToEnd.ListedByRule` | internal/scraper/processor.go:228-241 | A metric whose surviving rule gives the check the limit v is listed exactly when some sample exceeds v, whether v is above or below the global limit; without such a rule the global limit decides. |
| `EndToEnd.MetricNameFact` | internal/storage/postgres/reports.go:77-109 | The fact characterisation for metric names, with the stored check name and the configured number spelled out. |
| `EndToEnd.LabelNameFact` | internal/storage/postgres/reports.go:77-109 | The same for label names. |
| `EndToEnd.LabelValueFact` | internal/storage/postgres/reports.go:77-109 | The same for label values. |
| `EndToEnd.CardinalityFact` | internal/storage/postgres/reports.go:77-109 | The same for cardinality. |
| `EndToEnd.BucketsFact` | internal/storage/postgres/reports.go:77-109 | The same for histogram buckets. |
| `EndToEnd.FactIffHeavyResponse` | internal/storage/postgres/reports.go:77-109 | For every group and env, a response-weight fact is enqueued if and only if some response is above the limit and no surviving target rule that the scrape read, if the load succeeded, names the check. |
| `EndToEnd.EmptyEnvSilences` | internal/storage/postgres/whitelist.go:36-37 | For a scrape without an env whose whitelists were loaded, a rule made for any env of the group suppresses every fact of the checks it names. |
| `CheckLists.LessIs` | internal/storage/postgres/whitelist.go:357-359 | Names are ordered by their first difference, a prefix before what it is a prefix of. |
| `CheckLists.SortedUnique` | internal/storage/postgres/whitelist.go:357-361 | A set of names has only one strictly sorted list. |
| `CheckLists.NormalizeTargetChecks` | internal/storage/postgres/whitelist.go:338-362 | Accepts exactly lists of the six check names and returns the strictly sorted list with the same members. |
| `CheckLists.NormalOfMembers` | internal/storage/postgres/whitelist.go:338-362 | The normal form depends only on the members and is idempotent. |
| `CheckLists.TargetChecksRoundTrip` | internal/storage/postgres/whitelist.go:314-384 | Marshal accepts exactly valid non-empty lists; parsing returns the strictly sorted list with the same members. |
| `CheckLists.LegacyForm` | internal/storage/postgres/whitelist.go:324-333 | The object form reads as the array of its true keys, whatever the map order. |
| `Whitelists.WhitelistStore.UpsertMetricWhitelist` | internal/storage/postgres/whitelist.go:95-129 | Succeeds exactly for a complete key, at least one limit, all positive and for the five check names, and working storage; then sets the rule of the key and nothing else, otherwise changes nothing. |
| `Whitelists.WhitelistStore.DeleteMetricWhitelist` | internal/storage/postgres/whitelist.go:131-150 | Removes the rule of the key and no other, or fails without a change. |
| `Whitelists.WhitelistStore.UpsertTargetWhitelist` | internal/storage/postgres/whitelist.go:187-217 | Succeeds exactly for a complete key, at least one check, all of the six names, and working storage; then stores their sorted list without repetitions and touches no other rule. |
| `Whitelists.WhitelistStore.DeleteTargetWhitelist` | internal/storage/postgres/whitelist.go:219-235 | Removes the rule of the group and env and no other, or fails without a change. |
| `Whitelists.WhitelistStore.GetEffective` | internal/storage/postgres/whitelist.go:237-268 | For every group and env, with the tables possibly changing between the two queries: each metric has the limits of the last selected rule about it, and a check is disabled exactly when a selected target rule names it; for a non-empty group and env what the tables held decides, whatever order the rows come in. |
| `Whitelists.EffectiveIsDetermined` | internal/storage/postgres/whitelist.go:13-39 | For a non-empty group and env a scrape sees exactly the rules of that group and env. |
| `Whitelists.MetricHistory` | internal/storage/postgres/whitelist.go:21-32 | The stored metric rule is the last upsert not followed by a delete. |
| `Whitelists.TargetHistory` | internal/storage/postgres/whitelist.go:40-50 | The stored target rule is the last upsert not followed by a delete, in normal form. |
| `Whitelists.EffectiveLimitHistory` | internal/scraper/whitelist.go:38-54 | For a non-empty group and env the effective custom limit is the one in the last surviving upsert of the metric's rule. |
| `Whitelists.DisabledHistory` | internal/storage/postgres/whitelist.go:33-39 | For every group and env, a check is disabled exactly when a surviving target rule that the query selects names it; an empty argument selects all. |
| `Whitelists.EffectiveDisabledHistory` | internal/scraper/whitelist.go:30-36 | For a non-empty group and env that rule is their own. |
| `Whitelists.EmptyEnvReadsAll` | internal/storage/postgres/whitelist.go:36-37 | With an empty env a rule of any env of the group disables its checks, and the group has no rule of its own that could. |
| `WorkerPool.StepFacts` | internal/scraper/worker_pool.go:47-83 | Submit, finish and deliver keep the number of tasks and use up a bounded number of steps. |
| `WorkerPool.StuckIff` | internal/scraper/worker_pool.go:47-83 | Exactly when no step of the pool is enabled. |
| `WorkerPool.RunFacts` | internal/scraper/worker_pool.go:47-83 | Every run without draining is finite, with a bound on its length. |
| `WorkerPool.MaximalRunEnd` | internal/scraper/worker_pool.go:28-83 | Every schedule leaves the same number of tasks unsubmitted: those beyond two per worker. |
| `WorkerPool.CapacityBound` | internal/scraper/worker_pool.go:28-83 | The submits finish under every schedule if and only if unread and new tasks number at most twice the workers; otherwise every schedule blocks. |
| `WorkerPool.TenIntoFive` | cmd/main.go:218 | A full batch into the configured five workers is safe exactly from an empty pool. |
| `TaskTable.ScrapeTaskTable.SaveScrapeTasks` | internal/storage/postgres/scrape_task.go:20-74 | A failed cleanup changes nothing; after it every pending and every recent row is kept and the rest deleted, and each task of a committed batch becomes a pending row. |
| `TaskTable.ScrapeTaskTable.GetScrapeTasks` | internal/storage/postgres/scrape_task.go:76-138 | Every row returned was pending and is running, no other row is touched, and no later claim can return it. |
| `TaskTable.ScrapeTaskTable.UpdateTaskStatuses` | internal/storage/postgres/scrape_task.go:140-171 | A row named in the batch takes a status the batch gives it and keeps its creation time; the others stay. |
| `TaskQueueLaws.LocalKeeps` | internal/scraper/task_consumer.go:107-221 | Every step of the event loop and its pool keeps each task in as many places as it was claimed times, and one report per complete status. |
| `TaskQueueLaws.SoleOwner` | internal/storage/postgres/scrape_task.go:76-99 | Two consumers never share a claimed row. |
| `TaskQueueLaws.WriteRow` | internal/storage/postgres/scrape_task.go:140-148 | An applied status batch leaves a row's status or takes it from running to its terminal one. |
| `TaskQueueLaws.NextKeeps` | internal/storage/postgres/scrape_task.go:76-171 | Every step of the whole system keeps the ownership and conservation invariant; new rows are pending, and a status stays, goes from pending to running, or from running to complete or error. |
| `TaskRuns.ClaimedAtMostOnce` | internal/storage/postgres/scrape_task.go:76-99 | In every run a row is claimed at most once and no status batch names it twice. |
| `TaskRuns.ExactlyOnePlace` | internal/scraper/task_consumer.go:119-219 | Until cancellation every claimed row is in exactly one of: to submit, worker, results, status batch, recorded. |
| `TaskRuns.LeftAfterShutdown` | internal/scraper/task_consumer.go:87-117 | After shutdown the rows still running are exactly those dropped or left in the pool and those whose status was never written. |
| `TaskRuns.StatusMovesForward` | internal/storage/postgres/scrape_task.go:76-171 | Between any two states of a run a status only moves forward, and a deleted row never returns. |
| `TaskRuns.LifeOfRow` | internal/storage/postgres/scrape_task.go:76-171 | In every run a row is absent, then pending, then running, then has one terminal status: no stage left out, none entered twice. Which one is stated by `TaskOutcomes.RowIsOutcome`. |
| `TaskRuns.TerminalForever` | internal/scraper/task_consumer.go:159-165 | A terminal status never changes, however often failed batches are retried. |
| `TaskRuns.NeverLostUnclaimed` | internal/storage/postgres/scrape_task.go:20-23 | A row that was never claimed is never deleted and stays pending. |
| `TaskRuns.ReportOnce` | internal/scraper/task_consumer.go:136-157 | The report of a completed row was saved by exactly one acknowledged call or is still queued, and there is no other. |
| `TaskOutcomes.OneOutcome` | internal/scraper/worker_pool.go:55-60 | In every run `Process` returns at most once for a task, whichever consumer runs it. |
| `TaskOutcomes.StatusIsOutcome` | internal/scraper/task_consumer.go:125-140 | A delivered result and a queued or acknowledged status say exactly what `Process` returned: complete without an error, error with one. |
| `TaskOutcomes.RowIsOutcome` | internal/scraper/task_consumer.go:125-140 | The terminal status of a row is the outcome of its task, and a pending row has none. |
| `TaskOutcomes.ReportOnlyOfSuccess` | internal/scraper/task_consumer.go:136-144 | A report is queued or committed, and facts of a task enter the outbox, only if `Process` returned without an error. |
| `TaskOutcomes.DeliveryOrder` | internal/scraper/worker_pool.go:69-70 | Statuses are queued and acknowledged in the order their results were delivered. |
| `TaskBlocking.BlockedForGood` | internal/scraper/worker_pool.go:78-83 | A consumer blocked in a submit stays as it is, whatever the rest of the system does and whoever calls its Stop, unless the context its pool was made with is cancelled. |
| `TaskBlocking.FittingClaimsNeverBlock` | internal/scraper/task_consumer.go:200-219 | In every run a consumer whose claims, with what is unread, never exceed two tasks per worker never blocks. |
| `TaskBlocking.SecondBatchBlocks` | internal/scraper/task_consumer.go:200-219 | Ten new over ten undrained, five workers: under every schedule none of the second ten is submitted. |
| `TaskBlocking.PoolRunLifts` | internal/scraper/worker_pool.go:47-83 | Every run of a consumer's pool is a run of the whole system. |
| `TaskBlocking.ClaimsBlock` | internal/scraper/task_consumer.go:200-219 | For every number of workers a run from the start, without cancellation, ends with a live consumer blocked in a submit; with five workers the second claim blocks. |
| `TaskFacts.SavedCount` | internal/scraper/task_consumer.go:151-157 | Over any run the commits of a task's report are those its consumers saw acknowledged and those applied silently. |
| `TaskFacts.FactsOncePerTask` | internal/scraper/task_consumer.go:136-157 | In every run the outbox is the facts of the saved tasks' reports in order; a completed task whose report is not queued is among them exactly once, any other never, plus once per commit of it that was applied but reported as failed. |
| `TaskFacts.DuplicateFacts` | internal/scraper/task_consumer.go:151-157 | For every n a run in which a completed task's facts enter the outbox n + 1 times, after n silent commits. |
| `TaskConsumer.Batches.Flush` | internal/scraper/task_consumer.go:175-198 | Each batch is handed over whole or kept whole. |
| `TaskConsumer.Batches.OnResult` | internal/scraper/task_consumer.go:119-173 | A result adds its status and, unless failed, its report and target group; a batch is handed over exactly when it has reached 1000 entries and its write succeeds, and then whole. |
| `TaskConsumer.Batches.OnFlushTick` | internal/scraper/task_consumer.go:175-198 | Successful writes empty their batch, failed ones keep it. |
| `TaskConsumer.RunTurns` | internal/scraper/task_consumer.go:107-198 | Over any turns with any failures, handed over followed by queued is exactly what the results called for, in order. |
| `TaskConsumer.UpdatesCalledFor` | internal/scraper/task_consumer.go:125-140 | What results call for: one status each in order, complete for a success and error for a failure. |
| `TaskConsumer.ReportsCalledFor` | internal/scraper/task_consumer.go:142-144 | And a report for each success and for nothing else, in order. |
| `TaskConsumer.TurnIsRun` | internal/scraper/task_consumer.go:119-198 | What a turn does to the report and status batches is what at most three steps of the task queue do. |
| `Batching.TryBatch` | internal/storage/postgres/postgres.go:62-90 | Success exactly when every statement succeeded; a retry exactly when the first failure is a deadlock; a permanent error exactly when it is anything else. |
| `Batching.SendBatch` | internal/storage/postgres/postgres.go:61-94 | Every attempt before the last one used ended in a deadlock; success exactly when every statement of the last one succeeded, failure exactly when it ended in another error, trying on exactly when all ended in a deadlock. |
| `Batching.Table.SaveRows` | internal/storage/postgres/scrape_task.go:46-73 | The batches sent concatenate to the input in order and hold 1 to 1000 rows; on failure they form a proper prefix of full batches and the attempts at the next one are what failed; the table gains the committed ones. |
| `Batching.SuccessStoresAllIff` | internal/storage/postgres/postgres.go:67-72 | After a reported success every row is stored, whatever the server did that fits what the caller saw, if and only if every batch also closed without error. |
| `Batching.SuccessWithoutRows` | internal/storage/postgres/postgres.go:67-72 | For any input a call can report success and store nothing. |
| `Outbox.NewRelay` | internal/outbox/relay.go:32-56 | Settings are positive; each positive input is kept on its own, and without any the batch size is 100, the interval one second and the retry bound 5. |
| `Outbox.OutboxTable.Enqueue` | internal/storage/postgres/outbox.go:30-54 | Adds one pending row per event and leaves the others. |
| `Outbox.OutboxTable.FetchPending` | internal/storage/postgres/outbox.go:56-108 | Nothing for a non-positive limit; otherwise every row returned is processing as of now, keeps its retry count and can be fetched again exactly after more than sixty seconds; no other row is touched. |
| `Outbox.OutboxTable.MarkSent` | internal/storage/postgres/outbox.go:110-127 | Whatever its status, the row becomes sent with its retry count kept and is never fetchable; no other row is touched. |
| `Outbox.OutboxTable.MarkFailed` | internal/storage/postgres/outbox.go:129-159 | One more retry is counted, and the row is fetchable, at once, exactly when the count is below the bound; no other row is touched. |
| `Outbox.Flush` | internal/outbox/relay.go:72-113 | Each fetched message is written once, in order, and marked according to its write; a failed fetch does nothing. |
| `OutboxSystem.SafeNext` | internal/storage/postgres/outbox.go:56-159 | Every step of every relay keeps the safety invariant, including the account of each write. |
| `OutboxSystem.OutboxSafety` | internal/storage/postgres/outbox.go:110-159 | In every run: sent rows were written successfully, unfinished rows are below the retry bound, failed rows have reached it, the retry count is the number of recorded failed writes. |
| `OutboxSystem.ExhaustedNeverFetched` | internal/storage/postgres/outbox.go:56-72 | A row whose retry count has reached the bound is never fetched again. |
| `OutboxExclusive.ExclusiveNext` | internal/storage/postgres/outbox.go:56-159 | While rows are let go of in time, every step keeps one holder per row and leaves sent and failed rows alone. |
| `OutboxExclusive.ExclusiveOwnership` | internal/storage/postgres/outbox.go:56-72 | Then no row has two holders and retry counts stay within the bound. |
| `OutboxExclusive.SettledForever` | internal/storage/postgres/outbox.go:110-159 | Then sent and failed are final. |
| `OutboxExclusive.WritesBounded` | internal/outbox/relay.go:79-112 | Then a row is written successfully at most once, plus once per lost sent-mark and per crash before the mark. |
| `OutboxExclusive.StealableIffLate` | internal/storage/postgres/outbox.go:60-61 | A held row can be fetched by another relay if and only if its holder has had it for more than sixty seconds. |
| `OutboxExclusive.LateRelayReverts` | internal/storage/postgres/outbox.go:110-139 | From every safe state in which a relay's first row is fetchable and another relay is idle, the row can be settled and unsettled again: sent to pending or failed if the relay has not written it or in vain, failed to sent if it has. |
| `OutboxExclusive.LateIsReachable` | internal/storage/postgres/outbox.go:60-61 | For every retry bound and phase such a state, with an idle second relay, is reached by a run. |
| `OutboxExclusive.SettledReverts` | internal/storage/postgres/outbox.go:110-139 | For every retry bound there are whole runs in which a sent row stops being sent and in which a failed row becomes sent. |
| `OutboxExclusive.FlushIsRun` | internal/outbox/relay.go:72-113 | The table a flush computes is the one its steps compute in the system. |
| `Deliveries.OwnersOwn` | internal/storage/postgres/reports.go:64-72 | Every fact ever put into the outbox belongs to one saved task, position by position. |
| `Deliveries.DeliveriesPerTask` | internal/outbox/relay.go:79-112 | Over any run of the consumers and any timely run of the relays, a task's facts are written to Kafka at most once per copy, plus once per lost sent-mark and per crash before the mark, and at least once per copy when its rows are all sent. |
| `Schedule.TrimIdempotent` | internal/runtimeconfig/service.go:175-179 | Trimming yields trimmed strings and leaves trimmed strings alone. |
| `Schedule.TrimRemovesSpace` | internal/runtimeconfig/service.go:175-176 | Trimming takes away white space at the two ends and nothing else. |
| `Schedule.TrimIsCore` | internal/runtimeconfig/service.go:175-176 | Whatever white space surrounds a trimmed string, trimming gives that string. |
| `Schedule.VisibleStays` | internal/runtimeconfig/service.go:175-176 | A string that begins and ends with visible ASCII characters is left alone. |
| `Schedule.NormaliseLaw` | internal/runtimeconfig/service.go:175-186 | Normalisation succeeds exactly when the trimmed expression is normal; normal expressions are its fixed points. |
| `Schedule.NormaliseFinds` | internal/runtimeconfig/service.go:175-186 | Normalisation returns the normal expression under the white space and fails exactly when there is none. |
| `Schedule.AsciiPadding` | internal/runtimeconfig/service.go:175-186 | Blanks, tabs and line ends around a normal expression do not matter. |
| `Schedule.CronManager.AddTask` | pkg/cron/cron.go:34-61 | Succeeds exactly for a new name and an accepted schedule, with an id not in use; otherwise nothing changes. Names and live entries stay in bijection. |
| `Schedule.CronManager.RemoveTask` | pkg/cron/cron.go:64-79 | Removes exactly the named schedule and reports whether it was there. |
| `Schedule.Scheduler.UpdateSchedule` | internal/scrapetask/scheduler.go:50-80 | Succeeds exactly for the current or an accepted schedule; the rollback never fails; a failed update leaves every schedule as it was. |
| `Schedule.ConfigService.Bootstrap` | internal/runtimeconfig/service.go:52-76 | Six positive limits and a normal schedule are required first; then limits and schedule are written, in that order, each only over an absent key, with writes that may be stored although reported as failed; valid or absent keys stay so, and success leaves both present. |
| `Schedule.ConfigService.GetCronExpr` | internal/runtimeconfig/service.go:113-125 | Returns the normal expression that is stored, with or without white space around it, and fails exactly when there is none. |
| `Schedule.ConfigService.SetCronExpr` | internal/runtimeconfig/service.go:127-154 | For a normal expression, with or without white space around it, over another stored one: it is stored and run. Over an equal one nothing changes; anything else is rejected. What is stored and what runs after any outcome of its writes, and when it compensates; with one grammar it never compensates, and a failed call leaves store and scheduler as they were unless its write was stored silently. |
| `Schedule.Sync` | internal/scrapetask/scheduler.go:82-89 | A successful sync runs the stored schedule; a failed one changes nothing. |
| `ScheduleSystem.StoredAlwaysValid` | internal/runtimeconfig/service.go:113-154 | Over any interleaving the stored and the running schedules stay normal. |
| `ScheduleSystem.SyncConverges` | internal/scrapetask/scheduler.go:82-89 | Once writes and in-flight applies have stopped, a replica that has synced runs the stored schedule from then on, until it crashes. |
| `ScheduleSystem.AllConverge` | internal/scrapetask/scheduler.go:82-105 | When every replica has synced since its last crash, every scheduler equals the store. |
| `ScheduleSystem.CrossedRequestsDiverge` | internal/runtimeconfig/service.go:127-154 | For any three normal expressions a run of two change requests on one replica ends with nothing under way, one of them stored and the other running. |
| `ScheduleSystem.SureToAgreeIff` | internal/runtimeconfig/service.go:127-154 | Once nothing new begins, a replica is sure to end up with the stored value, in whatever order and whichever writes fail, if and only if something is stored, nothing under way would store another value or apply another on it, and it runs the stored value now or is about to apply it. |
| `ScheduleSystem.StoredIsSure` | internal/runtimeconfig/service.go:142-146 | After the acknowledged write of a lone request the replica does not agree yet but is sure to. |

## Left out

- Outbox.OutboxTable.FetchPending: which rows the query picks is a parameter constrained to distinct eligible rows; oldest-first order and SKIP LOCKED are not stated.
- TaskTable.ScrapeTaskTable.GetScrapeTasks: the same, for pending rows.
- Whitelists.WhitelistStore.GetEffective: the ORDER BY of the list queries is not modelled, so for an empty group or env the rule that decides a metric is the last listed one and not a particular one.
- Batching.SendBatch: the retry has no bound in the code; a finite script of attempts stands for it, and its end reads as still retrying.
- Outbox.OutboxTable.MarkSent: the `last_error` column is not part of this model.
- Outbox.OutboxTable.MarkFailed: the same.
- Leadership only suppresses claims, so the consumer's steps are modelled without it.
- `mapCheckType` renames check types.
- The `target_groups` upsert and its timestamps; only the chunking of its rows is modelled.
- HTTP, gRPC, authentication, leader election, configuration loading, the metrics client and the text parser.
- Real PostgreSQL, Kafka, etcd, JSON and protobuf behaviour beyond atomic statements, a fallible write, a key-value store and faithful codecs.
