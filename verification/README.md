# A verified model of the spend tracker

This project models the parts of the enterprise LLM usage tracker that carry its
guarantees, and proves those guarantees with Dafny 4.11. `dafny verify --resource-limit 2000000
--verification-time-limit 0 dfyconfig.toml` checks everything.

What is modelled, module by module:

- **Load tester.** `Buckets` and `Histogram` are the log-linear latency histogram: its
  shifts and masks, the counts in an array, merging, and the percentile scan, proved
  against the exact nearest-rank value of the recorded samples. `LoadTest` adds the
  workers' counters, the merge of the report and the open-loop pacer.
- **Claims and alerts.** `Claims` is SETNX with an expiry as one atomic step.
  `Thresholds` is the budget service, `ThresholdProtocol` any number of its workers
  racing while budgets are edited and the clock moves. `Signals` claims and writes detected
  signals. `BurstWindow` is the trimmed and expiring sorted set, with the text of its
  members. `Detection` puts window, severities, claims and rows together.
- **Counters.** `Counters` is the script that increments and expires the counters,
  the reading of them, and the reseeding from Postgres.
- **Events.** `Consumer` is the consumer loop with the idempotent insert, under failing
  steps, crashes and redelivery.
- **GitHub.** `Reverts` is the revert detector with its two heuristics, `PullRequests` the
  table with its sticky revert state and the snapshots, `Collector` the scheduler,
  `Leaderboard` the in-place sort and the cut.
- **Nightly jobs.** `Baseline` fills the window of daily costs and computes their mean and
  variance, the percentile and the hour distribution; `Rollup` is the cohort pass.
- **Migrations.** `Migrations` is one call of `Apply`; `MigrationProtocol` is any number of
  replicas with lost locks, crashes and dangling transactions.
- `Text` renders and parses keys and numbers; `Clock`, `Sorting` and `Wrappers` are shared.

Code that changes state is a class whose methods are proved against functions on values.
Protocols are functions from a state and an event to a state; a run is any sequence of
events, and an event that cannot happen yet changes nothing. What the code gets from
outside (the clock, registry, budgets, counters read, answers of Redis, Postgres, Kafka and
Slack) comes in as parameters. Amounts are whole micro-dollars and times whole nanoseconds;
ratios and the pacer's accumulator are exact reals; `$/PR` values in a cohort are whole
units of a common scale.

## Where the code differs from its own words

The model follows the code. In these places the code does not do what a comment says, and
the lemmas named here state what it does:

- The histogram's error is at most 1/128, not about 1/64 (`Buckets.RelativeError`). A
  minimum of 0 doubles as "unset" (`Histogram.RunningMinIff`, `LoadTest.ReportedMinIff`). Samples are told apart up to
  603.98 s, not 600 s (`Buckets.TrackedRange`).
- Counters written in the last second of a UTC day may live on, and in that second the counters
  of the day or month have expired already (`Counters.CalendarIff`, `Counters.FinalSecondCarriesOver`,
  `Counters.FinalSecondReadsZero`). Today's counter can exceed the month's (`Counters.TodayAtMostMonthIff`,
  `Counters.TodayAboveMonth`).
- Rebuilding is said to be safe over live counters. It counts log events as well, loses what was received
  today but occurred before, and in the last second of a day makes counters that never expire
  (`Counters.RebuildIff`, `Counters.LateReceiptLost`, `Counters.FinalSecondRebuild`).
- The consumer says that a failed message "will be redelivered". It takes a crash
  for that, and the next commit of a later one ends it (`Consumer.NeverAgainWithoutCrash`,
  `Consumer.ComesBackIff`, `Consumer.FailedEventSkipped`).
- Triggers do get lost: the debounced ones are dropped (`Collector.DroppedIff`,
  `Collector.TriggersCanGetLost`).
- The overlap heuristic accepts suspects with up to 1.5 times the prior's files, not
  "substantially fewer" (`Reverts.OverlapFoundIff`, `Reverts.BroaderSuspectFound`).
- A high percentile rank reads as doing well, not a low one (`Rollup.HundredIff`).
- Z-scores past the midpoint between the two bounds are said to be upgraded; both branches give the same severity
  (`Detection.ZScoreIff`). An hour that was never active is never a break of rhythm (`Detection.RhythmIff`).
- A day dated tomorrow shares slot 0 with today, and loses it (`Baseline.SpendKept`).
- The burst window forgets spends it should still count when its key expires too soon, which takes
  events early and late by more than a window together (`BurstWindow.BurstExactIff`,
  `BurstWindow.SkewBoundSharp`). A burst whose claim or write errs is lost for its day
  (`Signals.LostForGood`).

## Model

| member | source | states |
|---|---|---|
| `Buckets.IndexForIff` | cmd/loadtest/main.go:463-470 | every value lies in exactly one bucket, the one it is indexed to |
| `Buckets.Tiling` | cmd/loadtest/main.go:463-482 | buckets tile the values from 0 on without gap or overlap, none wider than 1/64 of its start |
| `Buckets.IndexMonotone` | cmd/loadtest/main.go:463-470 | the index never decreases with the value |
| `Buckets.RoundTrip` | cmd/loadtest/main.go:463-482 | indexing the representative of any bucket gives that bucket back |
| `Buckets.RelativeError` | cmd/loadtest/main.go:386-394 | the representative is off by at most 1/128 of the value, half of what the comment estimates |
| `Buckets.RelativeErrorAttained` | cmd/loadtest/main.go:472-482 | 1/128 is attained at the start of every octave from 128 up, so the bound is sharp |
| `Buckets.ValuesStayInWord` | cmd/loadtest/main.go:463-482 | exactly the 64-bit values use the reachable indices, and no representative overflows 64 bits |
| `Buckets.TrackedRange` | cmd/loadtest/main.go:389-406 | the array has 1544 buckets, and clamping begins exactly at 603,979,776 micros |
| `Histogram.Hist.Record` | cmd/loadtest/main.go:408-422 | recording extends the sample list by one; counts, wrapped sum, n and max are functions of that list, and the running minimum is updated as coded |
| `Histogram.Hist.Merge` | cmd/loadtest/main.go:424-436 | merging concatenates the sample lists of both histograms |
| `Histogram.Hist.Percentile` | cmd/loadtest/main.go:438-454 | the scan returns the representative of the bucket of the one sample that at least p percent do not exceed, while less than p percent are below it |
| `Histogram.NearestRankIff` | cmd/loadtest/main.go:442-445 | the nearest-rank sample is the only value with at least p percent of the samples at or below it and less than that below |
| `Histogram.PercentileEnds` | cmd/loadtest/main.go:438-454 | 0 without samples; from the least sample for p = 0, and the maximum past 100 |
| `Histogram.MinIff` | cmd/loadtest/main.go:416-418 | the true minimum is a sample that none is below |
| `Histogram.MaxIff` | cmd/loadtest/main.go:419-421 | the maximum is a sample that none is above |
| `Histogram.Hist.Mean` | cmd/loadtest/main.go:456-461 | the mean is the wrapped sum over n, and 0 without samples |
| `Histogram.ScanStops` | cmd/loadtest/main.go:446-452 | the first bucket whose cumulative count reaches the target holds the sample of that rank |
| `Histogram.PercentileAccuracy` | cmd/loadtest/main.go:438-454 | a percentile is within 1/128 of the exact nearest-rank sample if and only if that sample is at most 604,508,192 micros |
| `Histogram.PercentileMonotone` | cmd/loadtest/main.go:438-454 | percentiles never decrease with p |
| `Histogram.PercentileAboveMax` | cmd/loadtest/main.go:438-454 | a percentile exceeds the maximum by at most 1/128 of it |
| `Histogram.PercentileAboveMaxAttained` | cmd/loadtest/main.go:472-482 | that excess is attained by a single sample at the start of an octave |
| `Histogram.Sharding` | cmd/loadtest/main.go:504-515 | however samples are dealt to workers and in whatever order these are merged, counts, sum, n, max, true minimum and percentiles are those of one histogram |
| `Histogram.CountsSumToN` | cmd/loadtest/main.go:408-415 | bucket counts always add up to n |
| `Histogram.RunningMinIff` | cmd/loadtest/main.go:416-418 | the running minimum is the true one if and only if no zero sample is followed by a later one |
| `Histogram.RunningMinIs` | cmd/loadtest/main.go:416-418 | it is the least of the samples after the last 0, and 0 if none follow |
| `Histogram.MergedMinIff` | cmd/loadtest/main.go:424-436 | the minimum that merging leaves is the true one if and only if no sample is 0 or the very last one is |
| `LoadTest.WorkerStat.Record` | cmd/loadtest/main.go:372-384 | count, errors, status counts and histogram stay the functions of the outcomes recorded so far |
| `LoadTest.MergeStats` | cmd/loadtest/main.go:504-515 | the report holds the totals of all outcomes of all workers, per status code too, their histogram, and the merged minimum |
| `LoadTest.ReportedMinIff` | cmd/loadtest/main.go:504-515 | the reported minimum is the true one if and only if no latency is 0 or the last in merge order is |
| `LoadTest.ReportsAgree` | cmd/loadtest/main.go:504-515 | equal multisets of outcomes give equal totals, counts, sums, maxima and percentiles, whichever worker had which and in whatever order they are merged |
| `LoadTest.RequestsConserved` | cmd/loadtest/main.go:372-384 | latency samples and transport failures add up to the requests, and failures are errors |
| `LoadTest.CountsAre` | cmd/loadtest/main.go:372-384 | errors are the requests that failed or whose status lies outside 200 to 299, and each status count is the number of requests with that status |
| `LoadTest.LatencyAt` | cmd/loadtest/main.go:372-384 | each request that did not fail has its own latency as a sample, in order |
| `LoadTest.Pacer.Tick` | cmd/loadtest/main.go:317-328 | one tick sends floor((k+1)r/1000) - floor(kr/1000) jobs as far as the queue has room, and counts the rest as overruns; the accumulator stays in [0, 1) and the queue within its capacity |
| `LoadTest.Pacer.Take` | cmd/loadtest/main.go:135-147 | workers receive the intended send times in the order in which they were sent |
| `LoadTest.Pacer.PacedExactly` | cmd/loadtest/main.go:305-330 | after k ticks, jobs sent and overruns together are floor(k rate / 1000) |
| `Text.RenderInjective` | internal/store/store.go:223-239 | two different counters, claims, windows, baselines or last-seen marks never share a Redis key, whatever the e-mail addresses contain |
| `Text.InRedisFollows` | internal/store/store.go:118-147 | so a store whose keys are given by their parts reads and sets exactly as one whose keys are their texts |
| `Text.KeyTexts` | internal/store/store.go:223-239 | the text of each kind of key |
| `Text.PullKeyInjective` | internal/github/revert.go:42 | the deduplication key of a pull request names it uniquely; DetectReverts relies on it |
| `Text.ParsePrintedMicros` | internal/store/signals.go:353-367 | parsing a cost printed with six decimals gives it back |
| `Text.MemberInjective` | internal/store/signals.go:322 | different (time, cost) pairs print different members, so that adding one overwrites no other; the sorted set of BurstStore relies on it |
| `Claims.AttemptIff` | internal/store/store.go:135-147 | a claim is granted if and only if its deadline is ahead and every earlier grant of the key has expired |
| `Claims.AttemptInv` | internal/store/store.go:135-147 | every attempt keeps live keys backed by grants and grants of one key disjoint in time |
| `Claims.GrantedOnce` | internal/store/store.go:135-147 | of two grants of one key, the later one comes at or after the deadline of the earlier one |
| `Thresholds.ThresholdService.HandleEvent` | internal/service/threshold.go:44-55 | an event checks the day and then the month, with ends a second before the next day and month taken from one clock reading, adds at most one row for each, and claims and writes only tiers that the spend of that period has reached |
| `Thresholds.ThresholdService.CheckPeriod` | internal/service/threshold.go:57-104 | the first crossed tier whose claim succeeds fires, and no other; errors move on to the next tier; every claim and every row added is of a tier with counter * 100 >= tier * budget; a check that fires nothing in the period leaves every such tier claimed whose own claim did not err outright |
| `Thresholds.SilentMeansClaimed` | internal/service/threshold.go:81-104 | the same of the tier loop, from any tier on |
| `Thresholds.ThresholdService.FireThreshold` | internal/service/threshold.go:106-167 | the audit row: the timestamp of a message that went through, and the manager flag, cleared only by a message that was attempted and failed |
| `Thresholds.SweepFires` | internal/service/threshold.go:84-103 | a fault-free check within the period fires the first tier not yet claimed in it, if all up to there are crossed |
| `Thresholds.CheckProgress` | internal/service/threshold.go:81-103 | one check by itself, in a sound store, claims one of the crossed tiers still unclaimed |
| `ThresholdProtocol.SafetyRun` | internal/service/threshold.go:57-104 | in every interleaving, each grant lasts to the end of the period it was made in |
| `ThresholdProtocol.AlertsReached` | internal/service/threshold.go:74-103 | in every interleaving, whatever errs, each claim, and so each alert, is of a configured tier that the spend and budget read by some check of that engineer and period have reached |
| `ThresholdProtocol.AtMostOncePerPeriod` | internal/store/store.go:131-147 | two alerts for one (engineer, period, percent) always lie in different days or months, although the key carries no date |
| `ThresholdProtocol.LowerTiersFirst` | internal/service/threshold.go:81-103 | with ascending tiers and no errors, every reachable state has each claimed tier preceded by the lower ones |
| `ThresholdProtocol.LowerTierClaimedBefore` | internal/service/threshold.go:81-103 | a claimed tier has a claim of every lower tier for the same period before it |
| `ThresholdProtocol.TiersFireInTurn` | internal/service/threshold.go:81-103 | in every fault-free interleaving of workers, budget edits and clock advances, k crossed unclaimed tiers have all been claimed, and so alerted, after k more checks that cross them have finished within the period, whatever else goes on |
| `ThresholdProtocol.FinishClaims` | internal/service/threshold.go:84-103 | a check that finishes within the period has claimed one more of the tiers it crosses, or none of them is left |
| `ThresholdProtocol.SweepIsARun` | internal/service/threshold.go:84-103 | the tier loop CheckPeriod is proved against is a run of one worker in the protocol |
| `ThresholdProtocol.ReachableIsSound` | internal/service/threshold.go:57-104 | every reachable store meets the premise of CheckProgress |
| `Counters.CounterStore.WriteEventRedis` | internal/store/store.go:53-92 | one call of the script, which may fail before or after it takes effect: it bumps the two cost counters and the token counter of its engineer, and notes when the engineer was last seen |
| `Counters.CounterStore.Incr` | internal/store/record_event.lua:15-26 | increment, keeping an old expiry, and set the expiry only if it lies ahead |
| `Counters.CounterStore.RebuildCounters` | internal/store/store.go:167-221 | the reseeding loop as a whole, with failing queries skipping an engineer or the month, and failing SETs skipping a counter |
| `Counters.CounterLaw` | internal/store/record_event.lua:10-26 | for every history, a counter is the sum of the records since it last expired, and only records before the final second make it expire |
| `Counters.CalendarIff` | internal/store/record_event.lua:10-26 | at every instant, a counter is the sum of its calendar period if and only if no record made in an earlier final second is still waiting for one that expires it, and the period's own expiry, in its final second, has not taken a record; in the first case it is too high, in the second too low |
| `Counters.FinalSecondCarriesOver` | internal/store/record_event.lua:17 | a cent spent at 23:59:59.5 is still in the next day's counter at noon |
| `Counters.FinalSecondReadsZero` | internal/store/record_event.lua:17 | a cent spent at 0:00 is in no counter at 23:59:59.5 of that day |
| `Counters.TodayAtMostMonth` | internal/store/store.go:118-129 | without records in final seconds, today's counter never exceeds the month's, at any instant |
| `Counters.TodayAtMostMonthIff` | internal/store/store.go:118-129 | for every history and instant, it does not exceed the month's if and only if each record that has made the month's counter expire is followed by, or is itself, one that has made today's expire |
| `Counters.TodayAboveMonth` | internal/store/record_event.lua:17-20 | a cent spent in the final second of any day but the month's last is still today's when the month is over, and the month's counter is empty |
| `Counters.ReplayProjects` | internal/store/store.go:80-88 | over any sequence of events each counter follows its own history, undisturbed by the others |
| `Counters.KeysFollow` | internal/store/store.go:53-58 | the day's counters follow their histories by days, and the month's by months |
| `Counters.KeysRead` | internal/store/store.go:53-92 | after events received in order, none in a final second: the day's counters hold the positive costs and tokens received on the day of reading, the month's the positive costs received in its month, and nothing in the final second |
| `Counters.RebuiltAllProjects` | internal/store/store.go:172-219 | rebuilding sets the counters of the listed engineers only, those whose queries and SETs succeed, each from its own rows |
| `Counters.RebuiltKeys` | internal/store/store.go:172-219 | a rebuild writes the day's sums of cost and tokens under the day's keys and the month's cost under the month's, each to last to a second before its period ends; a failed query of the day stops all three |
| `Counters.PostgresSum` | internal/store/store.go:175-214 | for any events at all, the row sum is what the counter received in the period, plus what only rows hold, less what only the counter holds |
| `Counters.RebuildSets` | internal/store/store.go:167-221 | a positive row sum replaces what the counter holds (before the final second, what it received in the period and what is left over), and any other row sum changes nothing |
| `Counters.RebuildIff` | internal/store/store.go:167-221 | for events received in order, whenever rebuilt, a counter reads the same ever after exactly if it is not rebuilt, if the rows add up to nothing, or if rows and counter balance: before the final second, the period received something and what only rows hold equals late receipts and leftovers; it then is the same entry, so that this holds whatever is recorded later |
| `Counters.PromptRebuildIff` | internal/store/store.go:167-221 | if all events are stored, occur on the day of receipt outside its final second and have no negative amount, that is exactly if no event the script did not run for reports an amount in the period; in the period's final second, exactly if no event at all does |
| `Counters.FinalSecondRebuild` | internal/store/store.go:192-196 | an amount of the day whose counter is rebuilt in the day's final second, when it has just expired, stays in it for good, since the SET has no time left for an expiry |
| `Counters.LateReceiptLost` | internal/store/store.go:182-184 | a cost received today that occurred yesterday is lost by a rebuild: the counter drops from 3 to 1 |
| `BurstWindow.SumZMembers` | internal/store/signals.go:353-367 | the sum of the costs after the last colon of each member, skipping what does not parse |
| `BurstWindow.CostInMember` | internal/store/signals.go:322 | a printed member parses back to its cost |
| `BurstWindow.SumOfListed` | internal/store/signals.go:353-367 | however the members are listed, their parsed costs add up to the total of the set |
| `BurstWindow.BurstStore.BumpBurstWindow` | internal/store/signals.go:316-335 | a bump adds the spend, drops what is not younger than the window, renews the expiry and returns the total that is left |
| `BurstWindow.BurstStore.SumBurstWindow` | internal/store/signals.go:338-351 | without a positive cost, the total from the cutoff on is returned and nothing is added |
| `BurstWindow.WindowLaw` | internal/store/signals.go:316-335 | for every history and any clocks, a spend is kept if and only if some bump has added it since the key last expired, and neither this nor a later bump trimmed it |
| `BurstWindow.KeepsWindow` | internal/store/signals.go:325-326 | nothing is invented, and nothing younger than the window is lost to trimming or expiry, if wall time does not run backwards, no event is early by more than a bound, the latest is not late by more than another, and both add up to at most a window |
| `BurstWindow.IdleForgetsNothing` | internal/store/signals.go:326 | under these bounds, when the key expires everything in it was older than the window |
| `BurstWindow.KeptAreRecent` | internal/store/signals.go:324-325 | for any clocks and any order, a bump leaves only spends that were made, and none from before its window |
| `BurstWindow.BurstExactIff` | internal/store/signals.go:316-335 | a bump with the latest time so far leaves exactly the distinct spends of its window, in whatever order and however late or often the earlier ones came, if and only if none of these expired with the key without being added again |
| `BurstWindow.BurstExact` | internal/store/signals.go:316-335 | none does if wall time does not run backwards, no event so far is early by more than a bound, the last is not late by more than another, and both add up to at most a window; how late earlier ones were is no matter |
| `BurstWindow.SkewBoundSharp` | internal/store/signals.go:326 | with these two bounds, that holds for all histories if and only if they add up to at most a window |
| `Signals.SignalDetector.Fire` | internal/service/signal_detector.go:168-206 | a claim, and a row only if it was granted and reported |
| `Signals.OneRowPerDay` | internal/store/signals.go:232-242 | over the whole run, no two rows share engineer, signal, severity and UTC day, however late or often events come |
| `Signals.ClaimedIff` | internal/store/signals.go:234-250 | a finding is claimed if and only if its day ended less than an hour less a second ago and nothing with its engineer, signal, severity and day was ever claimed before |
| `Signals.LostForGood` | internal/service/signal_detector.go:178-206 | a finding that was claimed, but whose claim reported an error or whose row was not written, never gets a row, whatever follows |
| `Detection.MoreSpendIsNotMilder` | internal/service/signal_detector.go:98-107 | spending more never lowers a burst or Z-score severity |
| `Detection.CriticalIff` | internal/service/signal_detector.go:98-107 | a burst is raised exactly from multiplier times p95 on, and is critical exactly if it would still be raised with a third less spend |
| `Detection.ZScoreIff` | internal/service/signal_detector.go:119-140 | the Z-score warns exactly from so many deviations above the mean on, critically from the larger of both bounds on; the midpoint branch changes nothing |
| `Detection.RhythmIff` | internal/service/signal_detector.go:147-165 | an hour is flagged exactly if it holds some events but fewer than the share of all, with its severity bands; an hour without any is never flagged |
| `Detection.RaisedIff` | internal/service/signal_detector.go:52-165 | a finding is raised exactly if its own check finds it: a burst by the window's total, a break of rhythm by the share of the event's hour, a Z-score by today's spend, the last two with a baseline of enough days only |
| `Detection.HourOfDayIff` | internal/service/signal_detector.go:150-152 | the hour of an event is that of its UTC day |
| `Detection.EventDetector.HandleEvent` | internal/service/signal_detector.go:52-79 | the whole handler: bump and burst check, then the rhythm and Z-score checks if there is enough history; errors, also of a bump that took effect, only skip checks |
| `Detection.RowsAreRaised` | internal/service/signal_detector.go:52-79 | every row was raised by some event of the run |
| `Detection.RaisedIsClaimed` | internal/service/signal_detector.go:168-206 | whatever an event raises is claimed once it is handled, unless its own claim errs outright or its day ended over an hour ago |
| `Detection.BurstRowsAreTrue` | internal/service/signal_detector.go:84-115 | no false alarm: behind every burst row stands an event for which what survives in the window has just that severity, and since whose window began at least as much was spent; if its time was the latest so far and nothing of its window had expired (as in `BurstExactIff`), the spend in its window has just that severity, however late or often other events came |
| `Detection.SurvivingIsClaimed` | internal/service/signal_detector.go:84-115 | whatever the clocks and the order: once handled, the severity for what survives in the window is claimed, unless the claim fails or the event's day ended over an hour ago |
| `Detection.BurstIsClaimed` | internal/service/signal_detector.go:84-115 | no missed alarm: an event with the latest time so far, of whose window nothing had expired, that brings the spend in the window to a threshold leaves that severity claimed, unless its claim fails or its day ended over an hour ago; how late earlier events were is no matter |
| `Detection.BurstIsReported` | internal/service/signal_detector.go:168-206 | and it leaves a row of that severity and day, if none of that day's claims errs after taking effect and their rows are written |
| `Consumer.Reader.Run` | internal/kafka/consumer.go:44-85 | the fetch, handle, commit loop with failing steps and crashes at any point |
| `Consumer.Reader.HandleEvent` | internal/store/store.go:97-116 | the idempotent insert, which may report an error although it took effect |
| `Consumer.CommittedIsAccounted` | internal/kafka/consumer.go:44-85 | in every run, each offset between the initial and the committed mark is undecodable, had a handler error, or has its event stored |
| `Consumer.StoredAtMostOnce` | internal/store/store.go:94-116 | a non-empty event id is stored at most once however often it is delivered, and only what the log holds is stored |
| `Consumer.OnlyHandledCommits` | internal/kafka/consumer.go:44-85 | a handler error leaves its message uncommitted: in every run, the mark stays where it was, or comes to stand right behind a message that cannot be decoded or whose handler succeeded |
| `Consumer.FailuresComeBack` | internal/kafka/consumer.go:70-77 | as long as every handler has failed and every message can be decoded, the mark does not move, and each message passed can come back |
| `Consumer.CleanCommits` | internal/kafka/consumer.go:44-85 | deliveries without errors commit everything they pass, and leave it stored |
| `Consumer.NeverBelowCommitted` | internal/kafka/consumer.go:44-85 | nothing below the committed mark is ever handled again |
| `Consumer.NeverAgainWithoutCrash` | internal/kafka/consumer.go:41-78 | without a crash, offsets are handled in strictly ascending order, so a failed message is not redelivered at all |
| `Consumer.ComesBackIff` | internal/kafka/consumer.go:41-43 | a message that was passed over can be handled again if and only if the committed mark has not moved past it |
| `Consumer.FailedEventSkipped` | internal/kafka/consumer.go:70-83 | a failed event followed by a success is skipped for good, against the comment |
| `Consumer.CleanHandlersLoseNothing` | internal/kafka/consumer.go:44-85 | without handler errors, every decodable offset below the committed mark is stored |
| `PullRequests.PrStore.UpsertGitHubPR` | internal/store/github.go:25-48 | a sync replaces the row's columns and leaves its revert state alone |
| `PullRequests.PrStore.MarkPRReverted` | internal/store/github.go:50-57 | only a row that is not reverted yet is marked |
| `PullRequests.RevertedIsSticky` | internal/store/github.go:25-57 | over any syncs and marks, a reverted row stays reverted with its first time |
| `PullRequests.RowAfter` | internal/service/efficiency.go:202-229 | after any run, a row is the latest synced columns with the first mark since it appeared |
| `PullRequests.ComputeSnapshot` | internal/service/efficiency.go:248-289 | effective merged lies between 0 and merged, the revert rate in [0, 1], and $/PR times effective merged is the cost |
| `PullRequests.RevertedCountIs` | internal/service/efficiency.go:248-289 | the reverted ones counted are those whose row is marked |
| `Reverts.Jaccard` | internal/github/revert.go:167-182 | the score computed by counting is the ratio of intersection and union |
| `Reverts.JaccardLaws` | internal/github/revert.go:159-182 | the score is symmetric, in [0, 1], 1 exactly for equal non-empty sets, and passes exactly at 5 times the intersection at least 3 times the union |
| `Reverts.DetectFromTitle` | internal/github/revert.go:71-113 | the title loop picks the first of the latest-merged matches |
| `Reverts.TitleFindingIff` | internal/github/revert.go:71-113 | a title finding names the first pull request that has the latest merge time among the earlier-merged ones of the repository with another number, one of whose title and the stripped title contains the other; and there is one exactly if such a one exists, at a positive time and with a number other than 0 |
| `Reverts.ContainsIff` | internal/github/revert.go:97 | one title contains another if it is that one between some texts |
| `Reverts.RevertTitleIff` | internal/github/revert.go:11-13 | which titles count as reverts |
| `Reverts.StrippedQuoted` | internal/github/revert.go:78-80 | from GitHub's default title of a revert, the title of the original is what is looked for |
| `Reverts.StrippedPlain` | internal/github/revert.go:78-80 | and so from one after a colon |
| `Reverts.DetectFromFileOverlap` | internal/github/revert.go:118-157 | the overlap loop picks the first prior of maximal score among those that pass the filters |
| `Reverts.OverlapFindingIff` | internal/github/revert.go:118-157 | an overlap finding names the first prior with the largest ratio of shared to all files among those merged before, in the repository, within 14 days, with another number, at most 1.5 times fewer files and at least 3 in 5 files shared; and there is one exactly if such a one exists, with a number other than 0 |
| `Reverts.OverlapFoundIff` | internal/github/revert.go:118-157 | a suspect with the same files as one prior within the window reverts it exactly if it changes at most 1.5 times as many files, and so also when it changes more |
| `Reverts.BroaderSuspectFound` | internal/github/revert.go:134-138 | a suspect that changes 3 files is found to revert a prior that changes 2 |
| `Reverts.DetectReverts` | internal/github/revert.go:40-67 | the report holds exactly the expected findings, one an original |
| `Reverts.ReportedIff` | internal/github/revert.go:40-67 | an original is reported if and only if some candidate selects it by some heuristic |
| `Reverts.Precedence` | internal/github/revert.go:44-60 | title findings win over overlap findings, and within a heuristic the earliest candidate wins |
| `Reverts.FindingSound` | internal/github/revert.go:71-157 | a finding names two distinct merged pull requests of one repository, the original merged strictly first |
| `Reverts.ChainAscends` | internal/github/revert.go:91-132 | merge times increase strictly along any chain of reverts in a list that repeats no pull request, as the table does not |
| `Reverts.RevertsAcyclic` | internal/github/revert.go:40-67 | so in such a list no pull request reverts itself, directly or around a cycle |
| `Reverts.RepeatedCycles` | internal/github/revert.go:118-157 | a list that repeats a pull request has a cycle whenever the repeated one redoes what had redone it |
| `Collector.EfficiencyCollector.Trigger` | internal/service/efficiency.go:67-72 | a request puts the token into the channel unless one is there |
| `Collector.EfficiencyCollector.RunOnce` | internal/service/efficiency.go:118-152 | one run under the mutex, which records when it ended |
| `Collector.EfficiencyCollector.Run` | internal/service/efficiency.go:77-116 | the main loop through any turns does just what its turns say: runs follow one another, and triggered ones keep the debounce interval from the run before |
| `Collector.TickRuns` | internal/service/efficiency.go:92-101 | a tick always runs, from when it is picked until its work is done |
| `Collector.TriggerServes` | internal/service/efficiency.go:102-113 | on a trigger, a run starts at once and serves every request that has come in, unless the last run ended less than the interval ago |
| `Collector.TriggerDrops` | internal/service/efficiency.go:103-112 | in that case, every request that has come in is dropped |
| `Collector.RunsNeverOverlap` | internal/service/efficiency.go:118-123 | however many loops share a collector, no two runs overlap |
| `Collector.EveryRequestAccounted` | internal/service/efficiency.go:67-116 | every request waits for the token, is with a loop, was served by a run that began at or after it, or was dropped within the debounce interval or during a run |
| `Collector.TriggeredRunsSpaced` | internal/service/efficiency.go:103-113 | with one loop, a triggered run starts at least the debounce interval after every earlier run ended |
| `Collector.DroppedOnlyByDebounce` | internal/service/efficiency.go:103-113 | with one loop, requests are dropped only within the debounce interval after a run |
| `Collector.DroppedIff` | internal/service/efficiency.go:107-112 | the waiting requests are dropped if and only if the last run ended less than the debounce interval before the token is taken |
| `Collector.FatesAreFinal` | internal/service/efficiency.go:103-113 | a request once served or dropped is never taken up again |
| `Collector.TriggersCanGetLost` | internal/service/efficiency.go:29-30 | a trigger can get lost for good, against the comment |
| `Leaderboard.LessIsWeakOrder` | internal/store/github.go:199-207 | the order is a strict weak one on entries whose counts are not negative |
| `Leaderboard.NegativeCountsCycle` | internal/store/github.go:199-207 | with a negative count it has a cycle |
| `Leaderboard.SortLeaderboard` | internal/store/github.go:189-197 | the in-place insertion sort leaves the array as the sort function of its old contents |
| `Leaderboard.SortInOrder` | internal/store/github.go:189-197 | the result is in order |
| `Leaderboard.SortPermutes` | internal/store/github.go:189-197 | the result is a permutation of the input |
| `Leaderboard.SortStable` | internal/store/github.go:189-197 | tied entries keep their order |
| `Leaderboard.TopEntries` | internal/store/github.go:148-187 | the sorted entries, as many as the limit says, 100 if none is given |
| `Leaderboard.CutKeepsLeast` | internal/store/github.go:180-207 | the entries with merges come by ascending dollars per merged pull request, then those without, by the same; wherever the cut falls, what is shown is least and nothing is lost |
| `Migrations.ListingLaws` | internal/migrate/migrate.go:50-61 | the files are the directory's .sql files, strictly ascending |
| `Migrations.BeforeIff` | internal/migrate/migrate.go:61 | names ascend as texts do: a proper prefix, or the smaller byte where they first differ |
| `Migrations.SqlFileIff` | internal/migrate/migrate.go:55-59 | an SQL file is an entry, not a directory, whose name ends in .sql |
| `Migrations.MissingAscends` | internal/migrate/migrate.go:63-79 | the files a call has to run are those not recorded, in name order |
| `Migrations.Database.Apply` | internal/migrate/migrate.go:27-99 | one call commits the missing files in name order up to the first failure and records just these; it returns no error exactly if all went through, and then everything is recorded |
| `Migrations.Database.RunTx` | internal/migrate/migrate.go:80-96 | SQL and version are committed together, or neither is |
| `MigrationProtocol.AppliedAtMostOnce` | internal/migrate/migrate.go:63-98 | with lost locks, crashes and commits of unknown outcome, each file commits at most once and is recorded exactly if it was to begin with or has committed |
| `MigrationProtocol.ErrorFreeApplyRecordsAll` | internal/migrate/migrate.go:63-98 | in every interleaving, a call without error leaves all its files recorded, and reports committed files in name order |
| `MigrationProtocol.RecordedStays` | internal/migrate/migrate.go:63-98 | what is recorded or committed stays so |
| `MigrationProtocol.CommitsInNameOrder` | internal/migrate/migrate.go:61-98 | with one directory, files commit in name order over the whole run, and all before a committed one are recorded |
| `MigrationProtocol.LockPreventsConflicts` | internal/migrate/migrate.go:21-45 | while no lock is lost, nobody dies and every commit is answered, one replica works at a time and no insertion waits or fails on the primary key |
| `Baseline.Fill` | internal/service/baseline.go:96-106 | the loop that fills the window by days ago |
| `Baseline.AgoIff` | internal/service/baseline.go:102 | which days fall into a slot: its own, and tomorrow into slot 0 unless it is midnight |
| `Baseline.SlotIs` | internal/service/baseline.go:99-106 | each slot holds the spend of its day |
| `Baseline.SpendKept` | internal/service/baseline.go:99-106 | the window keeps all spend of its days, except that today's row overwrites one dated tomorrow |
| `Baseline.MeanStddev` | internal/service/baseline.go:129-144 | mean and standard deviation in two passes, over an exact square root |
| `Baseline.StddevZeroIff` | internal/service/signal_detector.go:119-122 | the deviation is 0, and the Z-score check off, if and only if all days were spent alike |
| `Baseline.MeanAndVarianceIff` | internal/service/baseline.go:129-144 | n times the mean is the total, and n times the variance the sum of squares less n times the squared mean |
| `Baseline.Percentile` | internal/service/baseline.go:149-168 | the percentile, leaving the samples sorted in place |
| `Baseline.PercentileIff` | internal/service/baseline.go:147-168 | it is the one value with at least the share p of the samples at or below it and less than that below |
| `Baseline.PercentileEnds` | internal/service/baseline.go:150-158 | the least sample from 0 down, the greatest from 1 up, and 0 without samples |
| `Baseline.HourOfDayDistribution` | internal/store/signals.go:414-451 | each hour's share of the events counted |
| `Baseline.HourCountIs` | internal/store/signals.go:426-443 | each hour counts the events of its own row |
| `Baseline.ShareTimesTotal` | internal/store/signals.go:444-450 | each hour's share of the total is its own count |
| `Baseline.SharesAreADistribution` | internal/store/signals.go:444-450 | the shares lie in [0, 1] and add up to 1, or all are 0 if nothing was counted |
| `Rollup.MedianHalves` | internal/service/rollup.go:189-200 | at least half of the cohort is at or below the median, and at least half at or above |
| `Rollup.MedianIff` | internal/service/rollup.go:189-200 | the median is the mean of the lower and the upper middle, each given by the shares at, below and above it |
| `Rollup.PercentileRank` | internal/service/rollup.go:204-215 | the rank counted in a loop |
| `Rollup.RankOfIff` | internal/service/rollup.go:204-215 | the rank is the whole part of the percentage of the cohort whose value is at least one's own |
| `Rollup.HundredIff` | internal/service/rollup.go:202-215 | the rank lies in 0..100, and is 100 if and only if nobody is cheaper; the comment has it the other way round |
| `Rollup.CheaperRanksNoLower` | internal/service/rollup.go:204-215 | a cheaper engineer never ranks lower |
| `Rollup.SignalTable.RunWindow` | internal/service/rollup.go:56-110 | the two passes over one window |
| `Rollup.RowAfterWindow` | internal/service/rollup.go:56-110 | a written row carries the rank within this very cohort, or none if its value is undefined, fewer than three are defined, or its write or back-fill failed, and never an older one |
| `Rollup.RankedIff` | internal/service/rollup.go:56-110 | a written row has a rank exactly if its value is defined, at least three written rows of the window have one, and its back-fill took effect; the rank and median are those of just these values |
| `Rollup.OtherRowsStay` | internal/service/rollup.go:56-110 | the rows of all other engineers stay as they were |

## Left out

- Histogram counts and n, and the counts of requests and errors, do not wrap around at 2^64; the histogram's sum does.
- Float rounding: sums, ratios and the pacer's accumulator are exact, and the square root is any exact one.
- Redis and Postgres are single atomic steps on maps, sets and lists; data loss, and a Redis clock that differs from the application's, are not modelled.
- Counters.TodayAtMostMonth: asks for no record in the last second of any day; `Counters.TodayAtMostMonthIff` has the exact condition.
- Counters.RebuildIff: asks for events in order of receipt, as one clock gives them.
- Months are any function to the next period that no day straddles; the calendar itself is not modelled.
- Redis keys are given by their parts; by `Text.InRedisFollows` each read and write is that of their texts. The day in a signal key is its number, not its date.
- BurstWindow.SumZMembers: parses costs printed with six decimals only, which is how the code prints them.
- Text.ParsePrintedMicros: costs are whole micro-dollars, so rounding by the print itself is not modelled.
- ThresholdProtocol.TiersFireInTurn: asks for runs without Redis errors, since a claim that errs is skipped for that event.
- Counters.Written: an event brings the sum of its four token counts, already added up.
- Thresholds.ThresholdService.FireThreshold: the texts of the messages are not modelled, and the row's time is that of the claim.
- Detection.EventDetector.HandleEvent: the counter, both readings of the baseline and the deviation are given; the notification after a critical burst is not modelled.
- Detection.BurstRowsAreTrue: for an event that comes late itself, spends after it count as well; the lemma follows one engineer's events under one configuration; the claims of others sit under other keys.
- Reverts.DetectReverts: titles are sequences of characters, white space is that of Unicode, and the findings come in any order.
- PullRequests.ComputeSnapshot: one engineer and window with the rows found for it; the loops over engineers and windows are not modelled.
- Collector.EfficiencyCollector.Run: shutdown is the end of the turns; the work of a run is only the time it takes and the requests that come meanwhile.
- Migrations.Database.Apply: the SQL of a file takes effect only through its transaction, and an unlock that fails while the session lives on is not modelled.
- Leaderboard.TopEntries: the query for the latest snapshot of each engineer is given by its result.
- Rollup.SignalTable.RunWindow: the other columns of a row are left out.
- `DrainDirtyEngineers`, whose result is only logged; `HourlySpendSeries` and the other queries, given by their results.
- HTTP handlers, OTLP decoding, the Kafka producer, the Slack and GitHub clients, configuration, the registry, engineer records, charts and the admin interface: input and output over libraries, or easy members.
