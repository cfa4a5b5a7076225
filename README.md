# kaizenizer metrics core, in Dafny

kaizenizer reads the history of Jira issues from PostgreSQL (the
`jira_issues_events` table), turns it into a stream of stage changes, and runs
metric generators over that stream. Each generator writes its metrics to the
`metrics` table through a batching sink. This project models:

- **Store** (`store.dfy`): the event and metric records and Go's time arithmetic.
  That covers the UTC day of an instant, `Time.Sub` saturated to a 64-bit
  `Duration`, and the division of a duration by 24 hours truncated toward zero.
- **Sink** (`sink.dfy`): the `PGStore` metric sink. A fixed buffer of 10000
  metrics, a pending counter (the `WaitGroup`), and the log of committed
  batches. Every full buffer is committed. Closing commits the trailing buffer,
  even an empty one.
- **Mapping** (`mapping.dfy`): the classification of raw statuses, issue types
  and tribes. That covers `statusGroup`, `issueTypeGroup`, `segment` and
  `toUnderscore`, and the row filter of `StreamEvents`, which keeps only status
  changes between two different stages.
- **CountersMetric** (`counters.dfy`): the `Counters` generator. It keeps the
  cumulative-flow counters `cfd_backlog` and `cfd_wip` and the per-type
  counters `wip_<type>`, and after every event reports the whole counter table.
- **IssuesAgeMetric** (`issuesage.dfy`): the `IssuesAge` generator. It keeps a
  backlog list and a wip list and a day cursor. It reports, for every day from
  the first event to the last, how many issues of each stage and segment fall
  in each age bucket (`1d`, `1w`, `1m`, `more`).
- **CycleTimeMetric** (`cycletime.dfy`), **LeadTimeMetric** (`leadtime.dfy`)
  and **LeadAndCycleTimeMetric** (`leadandcycletime.dfy`): the generators of
  per-issue durations in days.

Each generator's loop is a method over a `seq<Event>` that stands for the
events channel. The method is proved against a function over the events:
- `Run`/`Step` for Counters, CycleTime and LeadTime;
- `Trace`/`Step` for IssuesAge;
- `Fold`/`Absorb` for LeadAndCycleTime.

The lemmas state what those functions guarantee. CycleTime, LeadTime and
LeadAndCycleTime write through the modelled `Sink.PGStore`. Counters and
IssuesAge append their metrics to an `emitted` sequence instead.

`log.Fatal` becomes a `Result` with a `Fatal` case. Map iteration, whose order
Go leaves unspecified, is modelled by an arbitrary choice. The results of such
loops are stated as multisets, or against the order the loop happened to take.

Where a description of the system and the code differ, the model follows the
code:

- **Sink batches.** The code always commits the trailing buffer. K metrics
  therefore give K / 10000 + 1 commits, not ceil(K / 10000). An exact multiple
  ends with an empty commit.
- **IssuesAge bucket names.** The buckets are named `1d`, `1w`, `1m` and
  `more`. The last bucket is bounded by the largest `Duration`. An issue whose
  saturated age reaches that bound falls in no bucket.
- **Counters table.** The counter table is flat (`cfd_backlog`, `cfd_wip`,
  `wip_<type>`) and is not split per segment. Every metric carries the
  generator's segment prefix. The `backlog_<type>` counters named in the
  doc comment of `Generate` are never created by the code.
- **LeadAndCycleTime cycle start.** The cycle period of an issue starts empty
  on first sight. A cycle time is reported only for issues that went through
  `wip` and `done`; the start does not default to the first event.
- **CycleTime after done.** Entering `wip` for the first time after reaching
  `done` resets `doneSeen`, so that issue is reported again at its next `done`
  (`DoneBeforeWipReportsTwice`).

## Model

| member | source | states |
|---|---|---|
| Store.DayOf | metrics/issuesage.go:57 | the day of an instant is a UTC midnight at or before it, less than a day earlier |
| Store.Sub | metrics/issuesage.go:123 | a difference of instants stays within the 64-bit Duration range; it is exact inside that range, saturates at the largest Duration above it and at the smallest below it |
| Store.IssueKeysSnoc | metrics/cycletime.go:29-38 | the issues having an event in a stream are those of all but its last event plus the last event's issue |
| Store.WholeDays | metrics/cycletime.go:57 | dividing a Duration by 24 hours truncates toward zero: for a non-negative span, n whole days fit and n + 1 do not; mirrored for negative spans |
| Sink.Batches | store/pgstore.go:83-98 | the batches committed for metrics accepted in order: for K metrics, K / 10000 + 1 batches that concatenate back to the metrics, all full but the last, the last holding K mod 10000 |
| Sink.BatchesOfFullPrefix | store/pgstore.go:96-97 | full committed batches followed by the trailing buffer are exactly the batches of everything accepted |
| Sink.PGStore.constructor | store/pgstore.go:31-40 | a new sink has an empty buffer, nothing pending, nothing committed, and is open |
| Sink.PGStore.WriteMetric | store/pgstore.go:70-73 | the metric is accepted; a batch is committed exactly when it fills the buffer; the pending count keeps matching the buffered metrics |
| Sink.PGStore.Receive | store/pgstore.go:86-95 | one loop turn stores the metric; when the buffer becomes full it is committed, the buffer restarts and the pending count drops by a batch |
| Sink.PGStore.WriteBatch | store/pgstore.go:100-135 | committing the first n buffered metrics appends them as one batch and marks n metrics done |
| Sink.PGStore.DoneAndWait | store/pgstore.go:78-97 | after closing, the committed batches are exactly `Batches` of all accepted metrics and nothing is pending |
| Sink.Drain | store/pgstore.go:70-97 | writing a sequence of metrics and then closing commits exactly `Batches` of that sequence |
| Mapping.StatusGroup | store/pgstore.go:265-337 | a missing status maps to ""; a listed status maps to the group listing it; an unlisted one is fatal, and only an unlisted one |
| Mapping.StatusGroupsDisjoint | store/pgstore.go:269-334 | no status is listed under two groups, so the map's visiting order cannot change the answer |
| Mapping.TypeGroupsDisjoint | store/pgstore.go:341-365 | no issue type is listed under two groups |
| Mapping.IssueTypeGroup | store/pgstore.go:339-368 | the underscored issue type maps to the group listing it; it is fatal exactly when no group lists it |
| Mapping.Segment | store/pgstore.go:370-378 | the segment is `tribe_` followed by the underscored tribe, or `tribe_none` when the tribe is missing |
| Mapping.SegmentNoneCollision | store/pgstore.go:370-378 | a tribe literally named "None" gets the same segment as a missing tribe |
| Mapping.Lower | store/pgstore.go:381 | lower-casing maps an ASCII capital to its small letter and leaves every other character alone |
| Mapping.ToUnderscore | store/pgstore.go:380-383 | the result has the same length; each whitespace, `-` or `/` becomes `_`, every other character is lower-cased; no separator or capital remains |
| Mapping.ToUnderscoreIdempotent | store/pgstore.go:380-383 | applying the conversion twice gives the same as once |
| Mapping.RowEvent | store/pgstore.go:187-203 | a row that is not a status change gives no event; a status change gives an event exactly when its two stages differ, carrying the classified type and segment; it is fatal exactly when a classification it needs fails |
| Mapping.EventsOf | store/pgstore.go:167-208 | a stream that is not fatal has no more events than rows |
| Mapping.EventsOfSpec | store/pgstore.go:167-208 | every event kept is the event of some row and moves between two different stages; the stream is fatal exactly when some row is |
| Mapping.RowKept | store/pgstore.go:187-203 | a row keeps at most one event: its `RowEvent`, when that gives an event, and nothing otherwise |
| Mapping.KeptEventsSnoc | store/pgstore.go:167-208 | the events kept from rows with one more row at the end are those kept before, then that row's |
| Mapping.EventsOfKeepsAll | store/pgstore.go:167-208 | when the stream is not fatal it is exactly the rows' kept events, in row order: every row with an event contributes it |
| Mapping.EventsOfAscending | store/pgstore.go:160-203 | rows in ascending time give events in ascending time |
| Mapping.EventsOfFatalPrefix | store/pgstore.go:167-204 | once a prefix of the rows is fatal, the later rows change nothing |
| Mapping.StreamEvents | store/pgstore.go:167-208 | the loop over the rows returns exactly `EventsOf` the rows |
| CountersMetric.StatusWas | metrics/counters.go:41 | the recorded status of an issue, or Go's zero value, the empty status, for an issue never seen |
| CountersMetric.Step | metrics/counters.go:41-51 | one event records its issue's status as the event's `valueTo` and creates only the counters of the stage left and the stage entered |
| CountersMetric.Run | metrics/counters.go:38-59 | after a stream, the recorded statuses are those of the issues recorded before plus every issue with an event |
| CountersMetric.Moved | metrics/counters.go:66-81 | moving a stage by delta creates the counters of that stage and changes each counter by delta times its weight for that stage and type |
| CountersMetric.MovedBacklog | metrics/counters.go:67-69 | leaving or entering backlog moves only `cfd_backlog` |
| CountersMetric.MovedWip | metrics/counters.go:70-72 | leaving or entering wip moves `cfd_wip` and the counter of the issue's type |
| CountersMetric.MovedElsewhere | metrics/counters.go:67-81 | any other stage, including "" for an issue never seen, leaves the table unchanged |
| CountersMetric.WipCountersMoved | metrics/counters.go:70-80 | the per-type counters together move by exactly what `cfd_wip` moves |
| CountersMetric.StepKeepsStageCount | metrics/counters.go:41-51 | if a stage counter equals the number of issues recorded at that stage, it still does after the event |
| CountersMetric.StepKeepsWipSum | metrics/counters.go:70-80 | if the per-type counters sum to `cfd_wip`, they still do after the event |
| CountersMetric.StepKeepsCounterNames | metrics/counters.go:66-81 | only `cfd_backlog`, `cfd_wip` and `wip_<type>` counters ever exist |
| CountersMetric.StepPreservesInvariant | metrics/counters.go:38-59 | every event keeps the meaning of the counters: stage counts, type sums and names |
| CountersMetric.RunPreservesInvariant | metrics/counters.go:38-59 | after any events the invariant holds, so `cfd_backlog` and `cfd_wip` are never negative |
| CountersMetric.InitialInvariant | metrics/counters.go:20-25 | the empty tables satisfy the invariant |
| CountersMetric.RunKeepsCounters | metrics/counters.go:66-91 | counters are never removed: a counter that exists is still reported after any later events |
| CountersMetric.WipTypeCounterCanGoNegative | metrics/counters.go:70-72 | as written: an issue whose type changes while in wip is decremented under its new type, driving that counter to -1 |
| CountersMetric.CounterMetrics | metrics/counters.go:89-100 | the loop over the table writes one metric per counter, zero-valued ones included: the multiset of metrics is the snapshot of the table |
| CountersMetric.Counters.constructor | metrics/counters.go:20-25 | empty tables, which satisfy the invariant |
| CountersMetric.Counters.Generate | metrics/counters.go:35-64 | the tables end as `Run` of the events; what is written is the union of the table snapshots after each event, and the count returned is their total size |
| CountersMetric.Counters.ProcessEvent | metrics/counters.go:38-59 | one event moves the state by `Step`, with the recorded status rather than the event's `valueFrom`, and writes the snapshot of the new table |
| CountersMetric.Counters.UpdateCounters | metrics/counters.go:66-81 | the stage left is moved down by one and the stage entered up by one |
| CountersMetric.Counters.Shift | metrics/counters.go:67-81 | one switch of `updateCounters` moves the counters of one stage by delta |
| CountersMetric.Counters.PushMetrics | metrics/counters.go:89-100 | the metrics appended are, as a multiset, the snapshot of the table; the count is the number of counters |
| IssuesAgeMetric.AgeBucketsAscending | metrics/issuesage.go:18-24 | the age buckets are ordered by strictly ascending maximum age |
| IssuesAgeMetric.AgeBucketNames | metrics/issuesage.go:19-24 | the bucket names are exactly `1d`, `1w`, `1m` and `more` |
| IssuesAgeMetric.BucketOfFirstMatch | metrics/issuesage.go:124-131 | an age falls in the first bucket whose maximum exceeds it, and in none only when it reaches every maximum |
| IssuesAgeMetric.BucketFor | metrics/issuesage.go:124-131 | the loop with `break` finds that first matching bucket |
| IssuesAgeMetric.SegmentCountsAt | metrics/issuesage.go:122-132 | a segment has a count for a bucket exactly when some issue of that segment is in that bucket, and the count is the number of such issues |
| IssuesAgeMetric.SegmentCountsAdd | metrics/issuesage.go:126 | one more issue raises only its own bucket's count for its own segment, by one |
| IssuesAgeMetric.CountAllTallies | metrics/issuesage.go:122-143 | counting distinct issues in any order gives the per-bucket, per-segment tallies of exactly those issues and leaves the other stage's counters alone |
| IssuesAgeMetric.CountIssue | metrics/issuesage.go:123-131 | one issue is added to the counter of its stage and bucket, under its segment |
| IssuesAgeMetric.CountStage | metrics/issuesage.go:122-143 | the loop over a stage's list leaves the tallies of that whole list and does not touch the other stage |
| IssuesAgeMetric.EmitCounter | metrics/issuesage.go:145-154 | one metric per segment of a counter, as a multiset |
| IssuesAgeMetric.EmitCounters | metrics/issuesage.go:144-155 | one metric per counter and segment of the table, as a multiset |
| IssuesAgeMetric.NewCounters | metrics/issuesage.go:116-120 | the table starts with an empty counter per stage and bucket, and nothing else |
| IssuesAgeMetric.TableIsSnapshot | metrics/issuesage.go:116-155 | the metrics of a table tallying both lists are exactly the snapshot of the day |
| IssuesAgeMetric.MetricsForDay | metrics/issuesage.go:114-157 | the metrics computed for a day are, as a multiset, the snapshot of the two lists on that day |
| IssuesAgeMetric.StageSnapshotExact | metrics/issuesage.go:122-155 | a (bucket, segment) pair is reported exactly when it has issues, with their number as value |
| IssuesAgeMetric.StageSnapshotShape | metrics/issuesage.go:144-155 | every reported metric is dated on the day, has a value of at least 1, and reports a non-empty bucket and segment |
| IssuesAgeMetric.BucketTotal | metrics/issuesage.go:122-132 | the counts of a bucket over all segments add up to the number of issues in that bucket |
| IssuesAgeMetric.BucketedSplit | metrics/issuesage.go:124-131 | the issues that fall in some bucket are the union of the four buckets' issues |
| IssuesAgeMetric.StageTotal | metrics/issuesage.go:116-155 | the four buckets' counts add up to the number of issues that fall in a bucket |
| IssuesAgeMetric.EmptySnapshot | metrics/issuesage.go:114-157 | with both lists empty, a day reports no metric |
| IssuesAgeMetric.ListAfterKeys | metrics/issuesage.go:90-111 | entering a stage records the issue there, with its start; leaving removes it; other issues are untouched |
| IssuesAgeMetric.BacklogAfter | metrics/issuesage.go:90-103 | an issue entering backlog is recorded with its creation time as start; one leaving it is removed; other issues are untouched |
| IssuesAgeMetric.WipAfter | metrics/issuesage.go:90-110 | an issue entering wip is recorded with the event's time as start; one leaving it is removed; other issues are untouched |
| IssuesAgeMetric.AgeMetricInjective | metrics/issuesage.go:147-152 | two different counters, or two different segments of one counter, never give the same metric on a day |
| IssuesAgeMetric.DaysFromSpec | metrics/issuesage.go:71 | the day loop visits `from`, `from` + 1 day, and so on, each before `to`, and reaches `to` |
| IssuesAgeMetric.StepSnapshots | metrics/issuesage.go:56-76 | an accepted event moves the cursor to its day and updates the lists; a first or same-day event takes no snapshot; a later day takes one snapshot per day from the cursor to the event's day, of the lists as they were |
| IssuesAgeMetric.Step | metrics/issuesage.go:56-80 | a refused event fails with the ordering message; the snapshots an accepted event takes are of the lists before it, on days from the cursor up to, excluding, the event's day |
| IssuesAgeMetric.Trace | metrics/issuesage.go:54-81 | a stream can only fail with the ordering message |
| IssuesAgeMetric.StepOk | metrics/issuesage.go:59-80 | an event is accepted exactly when the cursor is unset or its day is not before the cursor; otherwise the ordering error |
| IssuesAgeMetric.TraceOk | metrics/issuesage.go:54-81 | a stream is accepted exactly when its days ascend; the cursor ends on the last event's day |
| IssuesAgeMetric.TraceFatalSticks | metrics/issuesage.go:77-79 | once a prefix is rejected, the whole stream is |
| IssuesAgeMetric.TraceDays | metrics/issuesage.go:54-81 | for ascending days, the snapshots taken during the stream are one per day from the first event's day up to, excluding, the last event's day |
| IssuesAgeMetric.SnapshotCount | metrics/issuesage.go:71-83 | with the final snapshot, the number of days reported is the number of days from the first event's day to the last one's, inclusive |
| IssuesAgeMetric.IssuesAge.constructor | metrics/issuesage.go:41-46 | empty lists, cursor at Go's zero time |
| IssuesAgeMetric.IssuesAge.UpdateIssuesLists | metrics/issuesage.go:90-111 | the lists become `BacklogAfter` and `WipAfter` of the event |
| IssuesAgeMetric.IssuesAge.CalculateAndPushMetricsForDay | metrics/issuesage.go:114-157 | the metrics written are, as a multiset, the snapshot of the current lists on that day |
| IssuesAgeMetric.IssuesAge.PushDays | metrics/issuesage.go:71-73 | one snapshot of the unchanged lists is written for each day of the loop |
| IssuesAgeMetric.IssuesAge.ProcessEvent | metrics/issuesage.go:55-80 | an event is accepted exactly when `Step` accepts it; it then moves to `Step`'s state and writes its snapshots; a rejected event writes nothing |
| IssuesAgeMetric.IssuesAge.ProcessEvents | metrics/issuesage.go:54-81 | the loop fails exactly when `Trace` fails; otherwise it ends in `Trace`'s state having written every snapshot `Trace` takes; when it fails, it stops at the first event `Step` refuses, in `Trace`'s state before that event, having written exactly the snapshots taken before it |
| IssuesAgeMetric.IssuesAge.Generate | metrics/issuesage.go:51-88 | fatal with the ordering message exactly when the stream is out of order; otherwise the snapshots of every day and then of the final day are written, and their number is returned; on the fatal path only the snapshots of the days before the first refused event are written, with no final snapshot |
| CycleTimeMetric.CycleMetric | metrics/cycletime.go:56-66 | the metric is named `cycle_time`, dated at the end, under `<prefix>/<issue key>`; its value is the whole days of the saturated span, non-negative when the end is not before the start |
| CycleTimeMetric.Step | metrics/cycletime.go:27-69 | an event tracks its issue from then on, and only a move to done writes a metric, a `cycle_time` dated at the event |
| CycleTimeMetric.Run | metrics/cycletime.go:27-69 | the loop writes only `cycle_time` metrics, at most one per event |
| CycleTimeMetric.Generate | metrics/cycletime.go:16-74 | the metrics accepted by the sink are exactly those `Run` writes, in order; the counts are of events, distinct issues and metrics |
| CycleTimeMetric.FirstSightRecordsStart | metrics/cycletime.go:29-38 | the first event of an issue records its time as start, with no flag set, and writes nothing |
| CycleTimeMetric.StepEmitsIff | metrics/cycletime.go:48-67 | an event writes a metric exactly when its issue is known, has not reached done, and moves to done; the metric measures from the recorded start |
| CycleTimeMetric.WipRestartsCycle | metrics/cycletime.go:39-47 | a first entry into wip restarts the cycle at the event and clears done |
| CycleTimeMetric.StartFrozenAfterWip | metrics/cycletime.go:39-47 | once wip was seen, the start never changes again |
| CycleTimeMetric.BothSeenIgnores | metrics/cycletime.go:39-48 | an issue that has seen both wip and done ignores every later event |
| CycleTimeMetric.StepTouchesOwnIssue | metrics/cycletime.go:27-69 | an event changes the bounds of its own issue only |
| CycleTimeMetric.RunTracksEventIssues | metrics/cycletime.go:29-38 | the issues tracked are exactly those with an event |
| CycleTimeMetric.RunStartFrozen | metrics/cycletime.go:39-55 | over the whole stream, the start of an issue that saw wip stays put |
| CycleTimeMetric.RunMetricsComeFromDone | metrics/cycletime.go:48-67 | every metric written reports some event that moved its issue to done, dated at that event |
| CycleTimeMetric.RunValuesNonNegative | metrics/cycletime.go:57 | for events in ascending time, every start precedes the events and every reported cycle time is non-negative |
| CycleTimeMetric.DoneBeforeWipReportsTwice | metrics/cycletime.go:43-47 | as written: an issue done before wip and done again after it is reported twice, 1 and 3 days |
| LeadTimeMetric.LeadMetric | metrics/leadtime.go:40-51 | the metric is named `lead_time`, dated at the end, under `<prefix>/<issue key>`; its value is the whole days of the saturated span, non-negative when the end is not before the start |
| LeadTimeMetric.Step | metrics/leadtime.go:22-55 | an event tracks its issue from then on; it can only add its own, already known, issue to the reopened ones; only a move to done writes a metric, a `lead_time` dated at the event |
| LeadTimeMetric.Run | metrics/leadtime.go:22-55 | the loop writes only `lead_time` metrics, at most one per event, and every reopened issue is a tracked one |
| LeadTimeMetric.RunSnoc | metrics/leadtime.go:22-55 | the loop's state after one more event is `Step` of the state before it |
| LeadTimeMetric.LeadTime | metrics/leadtime.go:12-62 | the metrics accepted by the sink are exactly those `Run` writes, in order; the counts and the reopened issues are those of `Run` |
| LeadTimeMetric.FirstSightRecordsStart | metrics/leadtime.go:24-27 | the first event of an issue records its start and writes nothing |
| LeadTimeMetric.StepEmitsIff | metrics/leadtime.go:32-52 | an event writes a metric exactly when its issue is known, not complete, and moves to done |
| LeadTimeMetric.NonDoneIgnored | metrics/leadtime.go:33 | an event of an open issue that does not move it to done changes nothing |
| LeadTimeMetric.CompleteOnlyReopens | metrics/leadtime.go:29-31 | any event of a complete issue only marks it reopened |
| LeadTimeMetric.StepKeepsOnePerIssue | metrics/leadtime.go:22-55 | each event keeps exactly one metric per complete issue, and reopened issues complete |
| LeadTimeMetric.RunOnePerIssue | metrics/leadtime.go:20-55 | over the whole stream, one metric per complete issue and no more metrics than issues |
| LeadTimeMetric.StepKeepsStart | metrics/leadtime.go:24-52 | an event never changes a recorded start |
| LeadTimeMetric.RunStartNeverChanges | metrics/leadtime.go:24-52 | the start recorded at first sight lasts for the whole stream |
| LeadTimeMetric.RunValuesNonNegative | metrics/leadtime.go:41 | for events in ascending time, every reported lead time is non-negative |
| LeadAndCycleTimeMetric.PeriodDurationInDays | metrics/leadandcycletime.go:110-115 | a duration exists exactly when both ends are set; it is the saturated difference divided by one day, else 0 |
| LeadAndCycleTimeMetric.KeyMetrics | metrics/leadandcycletime.go:77-99 | an issue gets a lead time exactly when its lead period is complete and a cycle time exactly when its cycle period is, each dated at its end, valued at `PeriodDurationInDays` of its period, commented with the key |
| LeadAndCycleTimeMetric.FirstSight | metrics/leadandcycletime.go:38-43 | a known issue changes nothing; a new one gets an empty cycle period and a lead period started at the event, open at its end |
| LeadAndCycleTimeMetric.ApplyStage | metrics/leadandcycletime.go:45-73 | the switch on the stage changes the periods of the event's issue only, and never drops an issue |
| LeadAndCycleTimeMetric.Absorb | metrics/leadandcycletime.go:36-73 | one event adds its issue to the cycle map and changes no other issue's periods |
| LeadAndCycleTimeMetric.Fold | metrics/leadandcycletime.go:35-74 | after a stream the cycle map holds the issues it held plus every issue with an event |
| LeadAndCycleTimeMetric.AbsorbStages | metrics/leadandcycletime.go:45-73 | for a known issue: wip starts the cycle unless started, done and resolved set (or overwrite) the ends, other stages change nothing, other issues are untouched |
| LeadAndCycleTimeMetric.AbsorbFirstSight | metrics/leadandcycletime.go:38-45 | a new issue gets an empty cycle period and a lead period starting at the event, then its stage applies |
| LeadAndCycleTimeMetric.AbsorbFlags | metrics/leadandcycletime.go:36-73 | one event keeps both maps over the same issues and sets exactly the flag of the stage it moves to |
| LeadAndCycleTimeMetric.FoldFlags | metrics/leadandcycletime.go:35-74 | after a stream, each flag is set exactly when some event moved the issue to that stage |
| LeadAndCycleTimeMetric.EmissionsReport | metrics/leadandcycletime.go:76-100 | the end-of-stream metrics report an issue's lead (cycle) time exactly when it is listed and that period is complete |
| LeadAndCycleTimeMetric.EndOfStreamReports | metrics/leadandcycletime.go:35-100 | from empty maps, a lead time is reported exactly when some event resolved the issue, a cycle time exactly when events moved it to wip and to done |
| LeadAndCycleTimeMetric.LeadAndCycleTime.constructor | metrics/leadandcycletime.go:24-29 | both maps empty |
| LeadAndCycleTimeMetric.LeadAndCycleTime.Generate | metrics/leadandcycletime.go:32-106 | the periods become `Fold` of the events; the sink accepts one group of metrics per issue, in the order the map was visited, each issue once |
| LeadAndCycleTimeMetric.LeadAndCycleTime.AbsorbEvents | metrics/leadandcycletime.go:35-74 | the event loop leaves the periods at `Fold` of the events and counts the new issues |
| LeadAndCycleTimeMetric.LeadAndCycleTime.SeeIssue | metrics/leadandcycletime.go:38-43 | an issue seen for the first time is added to both maps and counted |
| LeadAndCycleTimeMetric.LeadAndCycleTime.ApplyStageOf | metrics/leadandcycletime.go:45-73 | the switch on the stage updates the periods as `ApplyStage` does |
| LeadAndCycleTimeMetric.LeadAndCycleTime.PushPeriods | metrics/leadandcycletime.go:76-100 | the final loop visits every issue once and writes its metrics |
| LeadAndCycleTimeMetric.LeadAndCycleTime.PushIssue | metrics/leadandcycletime.go:77-99 | the metrics written for one issue are its `KeyMetrics` |

## Left out

- `main.go` (argument parsing, opening the database, running the generators concurrently) and the `Generator` interface of `metrics/metrics.go`: wiring only.
- Database I/O. The transaction and `COPY` of `writeMetricsBatch` are modelled as appending the batch to the `written` log. The SQL query of `StreamEvents` is not modelled: its rows, already filtered on the segment column and ordered by time, are given as a sequence. `CreateTables`, `DropTables` and the other statements are not modelled.
- Goroutines and channels. `WriteMetric` runs the corresponding turn of the batching loop at once. `DoneAndWait` commits the trailing buffer directly. The events channel is a sequence.
- `LeadAndCycleTimeMetric.PeriodDurationInDays`: the duration is an exact real quotient, without float64 rounding. All metric values are `real`.
- `LeadTimeMetric.LeadTime`: the float32 reopened percentage of the closing log line is not computed. The reopened issues and the counts are returned instead.
- `log.Printf` output is not modelled: the counter dump at the end of `updateCounters` and the counts in closing lines are returned or dropped. The `**MISMATCH**` branch of the Counters generator is dead code (its flag is always false) and is left out.
- Map iteration order is an arbitrary choice (`:|`). Results of such loops are stated as multisets, or against the order the loop took.
- `Mapping.Lower`: the model lower-cases ASCII capitals only, while Go's `strings.ToLower` also maps non-ASCII capitals (É to é, Σ to σ) and can change the length of a string (İ). `Mapping.Segment`, `Mapping.IssueTypeGroup` and `Mapping.ToUnderscore` therefore differ from Go on labels with non-ASCII capitals.
- Instants are nanoseconds since the Unix epoch in UTC. `time.Date` with `time.UTC` is the UTC day. Go's zero time marks the unset day cursor, and `Time.Sub` saturates, both as in the code. `IssuesAgeMetric.TraceOk` and the lemmas after it assume events after the zero time's day, where an event cannot be mistaken for the unset cursor.
- `CountersMetric.Counters` and `IssuesAgeMetric.IssuesAge` append their metrics to an `emitted` sequence that stands for their `WriteMetric` calls; how the sink batches them is modelled separately by `Sink`.
- `CountersMetric.Counters.ProcessEvent`, `CountersMetric.Counters.Shift`, `IssuesAgeMetric.IssuesAge.PushDays`, `IssuesAgeMetric.IssuesAge.ProcessEvent`, `IssuesAgeMetric.IssuesAge.ProcessEvents`, `LeadAndCycleTimeMetric.LeadAndCycleTime.AbsorbEvents`, `LeadAndCycleTimeMetric.LeadAndCycleTime.SeeIssue`, `LeadAndCycleTimeMetric.LeadAndCycleTime.ApplyStageOf`, `LeadAndCycleTimeMetric.LeadAndCycleTime.PushPeriods` and `LeadAndCycleTimeMetric.LeadAndCycleTime.PushIssue` split a Go loop or switch into its own method, with no Go function of that name.
