# Verified model of Quokka

Quokka runs the tests of Buck2 targets: it lists them, groups them into actions, asks Buck2 to
execute the actions, retries and isolates failures, reports every result and computes the exit
code. This project models that logic in Dafny and proves what it promises. Buck2, the file system
and the interleaving of tasks are arbitrary: every theorem is about all of their behaviours.

- **One action** (`ActionModel`, `ActionRunner`, `ActionTheorems`, `ActionAnswers`). Buck2 is an oracle: the i-th
  `Execute2` of an action gets the response `oracle(i)`, whatever it is. The runner's loops are
  methods, and their log of group runs is proved to be one that the retry rules allow
  (`IsAction`). The theorems are about every such log: what a name's final result is in terms of
  its attempts, which selection is sent, how many requests there are, and that a pass always has
  evidence. The rules leave no choice, so the log is a function of Buck2's answers. `ActionAnswers`
  says in one step what an answer means for a test, and which answers settle it.
- **Batching** (`Batching`, `Selections`): capped longest-first packing, duration buckets, shard
  filter and batch order.
- **A run** (`Reporter`, `Delivery`, `Session`, `SessionTheorems`): listing, override checks,
  fan-out of actions over batches and repeats, the channel to the reporter under every schedule of
  the concurrent tasks, the reporter, and the exit code, with tasks that may die. The theorems are
  that exit 0 is never false, and that it is reached whenever the first answer to each action clears
  the members of that action.
- **Permits** (`Permits`, `PermitBudgets`): per-target and global semaphores as a state machine over the steps of
  many actors: bounds, bounded overtaking, absence of deadlock, and a bound on the length of every
  run.
- **Duration database** (`Samples`, `Flakes`, `Tables`, `ByteCodec`, `DbFormat`, `FileLayout`, `Snapshots`,
  `DurationDb`): the folds and their algebra, over one record and over whole tables, the byte
  formats, compaction, and a store whose tables in memory always agree with its directory.
- **CI report** (`ReportWriter`, `CiReporting`): publishing a file when any file operation may fail,
  alone and as the reporter does it.
- **Text** (`ShellQuoting`, `Listing`, `WireNames`, `Variants`, `Decimals`): quoting of arguments
  against the POSIX shell's own token recognition, the list format, wire names.
- `Results` and `Sequences` hold the shared types and facts.

Source paths below are relative to the repository; all lines are of one commit.

## Findings

Places where the obvious stronger statement is false; the code is kept as it is and the exact
condition is proved.

- A whole-unit target (doc tests, custom binary) whose runs print per-test lines stores its results
  under the printed names and then looks for the unit's own name (src/scheduler.rs:2238-2247,
  2448-2453). It happens exactly when Buck2 is asked and each answer that decides one of the allowed
  attempts is completed, ended by no marker, and shows lines of other names only:
  `ActionTheorems.WholeUnitIsLostIff`. The one result of the action is then "missing", a failure
  even in quarantine: `SessionTheorems.LostUnitIsReported`. Exit 0 with one passing line is enough:
  `ActionTheorems.PassingDoctestIsLost`.
- A flush that fails between the rename of a compacted snapshot and the truncation of its log
  leaves records that the next load replays on top of themselves (src/duration_db.rs:696-699).
  This is harmless for names (`Tables.NamesReplayAgain`), harmless for flake counts exactly when
  the log is empty (`Tables.FlakeReplayAgainIff`, `Snapshots.UntruncatedFlakeIff`), and for samples
  exactly when every sample still in the log is at the lower end of a full record
  (`Tables.PerfReplayAgainIff`, `Snapshots.UntruncatedPerfIff`). One run that then counts twice and
  one sample that is then held twice: `Snapshots.UntruncatedRunCountsTwice`,
  `Snapshots.UntruncatedSampleIsDoubled`.
- An append that fails may still have written bytes, and the records that it wrote are kept to be
  appended again (src/duration_db.rs:606-660, 783-790). The table in memory then is no longer the
  directory with the unsaved records on top, unless nothing was written (flakes), or whole records
  were written and second copies of all of them would be at the lower end of full ones (samples);
  for names it always is, but the log can be appended to only if it broke off between two names:
  `DurationDb.Store.SaveFlake`, `DurationDb.Store.SavePerf`, `DurationDb.Store.SaveNames`. One run
  that is appended again counts twice: `Snapshots.RetriedRunCountsTwice`.
- A failure time equal to the largest 64-bit number is the snapshot's mark for "no failure"
  (src/duration_db.rs:286, 721). A compacted flake snapshot keeps the table exactly when no record
  has that time and the counters fit 64 bits: `Snapshots.FlakeRowRoundTripIff`,
  `Snapshots.CompactFlake`. With that time a failure loses its time and keeps its class:
  `Snapshots.SentinelTimeIsLost`.
- A named variant called like a built-in one, or any string of more than 10,000 bytes, does not
  survive the names log (src/duration_db.rs:136-161): `DbFormat.IdentityRoundTripIff`,
  `DbFormat.NamesLogRoundTripIff`, `Variants.TextRoundTripIff`; "asan" is one:
  `Variants.NamedAsanIsLost`.
- Two failures of one test at the same millisecond make the remembered failure class depend on the
  order of the log (src/duration_db.rs:109-112, `Flakes.TiesDependOnOrder`). Every order of a log
  yields the same record exactly when all its latest failures, if they are not older than the one
  on record, have one class: `Flakes.OrderIsHiddenIff`, and for tables and directories
  `Tables.FlakeOrderIsHiddenIff` and `Snapshots.DiskFlakeOrderIsHiddenIff`. Counts and times never
  depend on the order.
- The default flake record is neutral on the left only for records without a class lacking a time:
  `Flakes.CombineWithDefault`. The records of logs are such (`Flakes.FoldedWithDefault`); one that
  comes back from the snapshot with the sentinel time is not (`Flakes.StrayClassIsLost`).
- The printed test list parses back exactly when names are non-empty and free of newlines:
  `Listing.ListingRoundTripIff`. Of a name with two lines the second is listed:
  `Listing.NewlineNameIsCut`.

## Model

| member | source | states |
|---|---|---|
| ActionModel.AbsentNameVerdict | src/scheduler.rs:1699-1743 | a name without a terminal result is excused only by exit 0 of a whole unit, is a timeout exactly when the process timed out, and is blamed itself (Fail) only when it ran alone |
| ActionModel.FirstStop | src/scheduler.rs:1988-2120 | the markers of an action are obeyed in order, up to the first one that ends the group |
| ActionModel.AllowedAttempts | src/scheduler.rs:2386-2411 | a name may be attempted as often as its target allows, and a known flake as often as the larger of that and the configured number |
| ActionRunner.HasUnseen | src/scheduler.rs:1842-1856 | the cache is bypassed exactly when busting is on and some selected test has no history |
| ActionRunner.JudgeCompleted | src/scheduler.rs:1979-2131 | walking the resource markers yields the group outcome that the marker rules give |
| ActionRunner.RunGroup | src/scheduler.rs:1827-2170 | one group run is at most three requests, all but the last answered "queue timeout", with the outcome read off the last response |
| ActionRunner.MergeBest | src/scheduler.rs:1802-1815 | an incomplete result replaces everything and sticks, and otherwise the first pass is kept |
| ActionRunner.RecordRun | src/scheduler.rs:2232-2365 | one group run adds to every name one attempt for each time the run lists it (or one for each printed name of a whole unit), to the best result, the samples and the history alike, and leaves all other names alone |
| ActionRunner.StillFailing | src/scheduler.rs:2368-2375 | the members that are still failing, in order |
| ActionRunner.RetryPending | src/scheduler.rs:2386-2420 | the failing members whose own attempt budget is not used up |
| ActionRunner.Decide | src/scheduler.rs:2368-2445 | what the loop does next is what the retry rules say for the log so far |
| ActionRunner.FinishAll | src/scheduler.rs:2447-2469 | each result is the outcome of exactly the attempts of its name, missing without any; samples and history go to the first result of a name |
| ActionRunner.IsolateOne | src/scheduler.rs:2510-2549 | a failing member is re-run alone, inheriting the batch's result for that member and, if no earlier re-run took them, its samples and history |
| ActionRunner.IsolateFailures | src/scheduler.rs:2483-2554 | settled members are reported from the batch and every failing one from its own re-run |
| ActionRunner.ExecuteTestAction | src/scheduler.rs:2184-2470 | whatever Buck2 answers and whatever the members, the log of the call is one the retry rules allow, and its i-th result is the summary of exactly the attempts behind it |
| ActionTheorems.StandingIsClosedForm | src/scheduler.rs:1802-1815 | over any mix of retries and isolation a name's final result is its last incomplete attempt, else its first passing one, else its last |
| ActionTheorems.PassesIff | src/scheduler.rs:1802-1815 | a name passes exactly when no attempt was incomplete and some attempt was complete and not failing |
| ActionTheorems.CompleteMeansNoneIncomplete | src/scheduler.rs:1802-1815 | a complete result has only complete attempts behind it |
| ActionTheorems.RerunsFailing | src/scheduler.rs:2368-2420 | a rerun names only members that are still failing and, unless an action timeout is repeated, only within their own budget |
| ActionTheorems.TimeoutsKeepEveryMember | src/scheduler.rs:2376-2384 | while only action timeouts have happened every member is still failing and pending |
| ActionTheorems.SelectionDenotesPending | src/scheduler.rs:2199-2219 | in any well-formed call the selection sent with every request denotes exactly the pending names |
| ActionTheorems.ActionSelectionsDenote | src/scheduler.rs:2199-2219 | in a whole action, isolation included, every call is well-formed and every request carries a selection that denotes exactly the names its group runs |
| ActionTheorems.PendingIsFailing | src/scheduler.rs:2368-2420 | every name that a group runs is a member that had not been settled before |
| ActionTheorems.SettledStaysSettled | src/scheduler.rs:2368-2420 | in a per-test target, or a whole unit that runs alone, a settled name is never run again and its result never changes |
| ActionTheorems.RunsAreCharged | src/scheduler.rs:2376-2421 | every rerun is charged to the failure budget or to the action-timeout budget |
| ActionTheorems.BudgetsHold | src/scheduler.rs:2376-2421 | neither budget is ever exceeded |
| ActionTheorems.GroupRunBound | src/scheduler.rs:2376-2421 | with at most A attempts allowed per name a call makes at most A+2 group runs |
| ActionTheorems.Execute2Bound | src/scheduler.rs:2132-2136 | a batch of k members, isolation included, makes at most 3(A+2)(1+k) requests |
| ActionTheorems.NameRunBound | src/scheduler.rs:2386-2420 | each name is run in at most two more groups than its own attempt budget |
| ActionTheorems.FailingIsExhausted | src/scheduler.rs:2376-2445 | an action gives up on a failing member only when a budget is used up, and then a batch isolates it |
| ActionTheorems.FailingUsesItsBudget | src/scheduler.rs:2386-2420 | without action timeouts a member of a per-test target, or a whole unit that runs alone, that never passes is run exactly as often as its target allows, or as configured for known flakes where that is more |
| ActionTheorems.OnlyFirstRequestIsCached | src/caching.rs:27-38 | a request of an action, isolation included, may be served from the cache exactly when it is the very first one of a cacheable target in its default variant, without stress, whose tests have all been seen if unseen ones bust the cache; and the attempts are numbered through |
| ActionTheorems.SingletonHasItsLimit | src/execution.rs:82-100 | a test that runs alone always gets a memory limit: its own override's, else the default |
| ActionTheorems.BatchHasDefaultLimit | src/execution.rs:82-100 | tests that run together have the default memory limit, and are refused exactly when one of them has an override |
| ActionTheorems.RequestsCarryLimit | src/scheduler.rs:1930-1946 | every request carries the memory limit of the names that its group runs, and a group without one sends none |
| ActionTheorems.HistoryCountsRuns | src/scheduler.rs:2311-2320 | in a per-test target the first result of a name has one history entry for each time a group of the batch or of its re-run lists it, and a repeated one only those of its re-run |
| ActionTheorems.HistoryIsBatchThenAlone | src/scheduler.rs:2505-2549 | a result is decided by the batch attempts of its name in order followed by those of its isolated re-run, and the history is the same, except that a repeated name leaves the batch's to its first result |
| ActionTheorems.SamplesAreSubsequence | src/scheduler.rs:2300-2310 | the database observations are exactly the attempts the harness reported in a physical run, in order |
| ActionTheorems.EveryMemberIsReported | src/scheduler.rs:2447-2469 | isolated or not, an action reports every member exactly as often as it is listed |
| ActionTheorems.MarkersNeverPass | src/scheduler.rs:1988-2100 | a resource marker can only turn an observation into a failure |
| ActionTheorems.PassHasEvidence | src/scheduler.rs:2251-2294 | a passing result of an action that inherits nothing has only complete attempts behind it, and some response to this action printed that very status for that very name, or was exit 0 of a whole unit |
| ActionTheorems.NoFalseRed | src/scheduler.rs:2251-2375 | if nothing is inherited, the memory limit resolves, and the first response clears every member, by a line without a failure or as a whole unit without lines by exit 0, then one request is all there is and every member is reported as shown |
| ActionTheorems.WholeUnitIsLostIff | src/scheduler.rs:2238-2247 | a whole unit is reported missing and without history exactly when Buck2 is asked and each answer that decides one of its allowed attempts prints lines for other names only, a condition on the answers alone |
| ActionTheorems.PassingDoctestIsLost | src/scheduler.rs:2238-2247 | doc tests that exit 0 with one passing line are reported missing |
| ActionTheorems.RunIsDetermined | src/scheduler.rs:2204-2445 | a plan has exactly one complete log per oracle |
| ActionTheorems.ActionIsDetermined | src/scheduler.rs:2184-2470 | the whole action, isolation included, is a function of Buck2's answers |
| ActionAnswers.MarkersDecide | src/scheduler.rs:1979-2131 | a completed action yields observations exactly when all its markers are its own OOM or those of its only logical test, and a complete action timeout exactly when its time limit follows nothing but OOMs |
| ActionAnswers.LastMarkerDecides | src/scheduler.rs:1989-2055 | a logical marker replaces what its test printed by a timeout or a failure, the last one deciding |
| ActionAnswers.AttemptReads | src/scheduler.rs:2221-2366 | the attempt recorded for a listed name is, in verdict, integrity, times and place, what the last answer to its group says about it in one step, or a refusal without answer |
| ActionAnswers.AttemptsReadInOrder | src/scheduler.rs:2300-2366 | in a per-test target the m-th attempt of a name is what the answer to the group says that lists the name for the m-th time |
| ActionAnswers.CompleteIffSettled | src/scheduler.rs:1802-1808 | a result of a per-test target is complete exactly when every group that lists its name, in the batch and in its isolated re-run, was not refused and got an answer that settles the name: the action timeout, a line or marker for it, or an OOM of the test alone |
| ActionAnswers.UnitCompleteIffSettled | src/scheduler.rs:2238-2294 | the result of a target run as a whole is complete exactly when some answer does not lose the unit, and each such answer settles it |
| Batching.PopLightest | src/batching.rs:118-119 | the heap yields a lightest entry and keeps the others |
| Batching.HeaviestFirstSorts | src/batching.rs:111-112 | ordering by weight is a permutation in descending order |
| Batching.HeaviestFirstIsStable | src/batching.rs:111-112 | items of equal weight keep their order |
| Batching.PackOne | src/batching.rs:118-125 | one item goes to the lightest chunk with room, keeping cap, balance and contents |
| Batching.ChunkFixed | src/batching.rs:101-127 | the chunks partition the items into exactly the ceiling of n/size non-empty chunks of at most size, and no chunk outweighs one with room by more than its own lightest member |
| Batching.BucketByDuration | src/batching.rs:131-156 | the buckets concatenate to the input, small tests share at most max_batch per bucket, and a large one is alone |
| Selections.ShardsCoverListing | src/scheduler.rs:1523-1539 | over all shard indices of one count the kept lists add up to the listing, test by test, for any hash |
| Selections.KeptIff | src/scheduler.rs:1523-1539 | a run keeps a listed test exactly when it is not sharded or the hash of target and name falls to its index |
| Selections.ShardsAreDisjoint | src/scheduler.rs:1523-1539 | no test is kept by two shards |
| Selections.KeptStaysDistinct | src/scheduler.rs:1523-1539 | the filter introduces no duplicate |
| Selections.Partition | src/batching.rs:76-97 | each kept test is in exactly one selection; the selections are single tests, or the whole target, or as few chunks of at most the given size as hold all tests, levelled by weight, or duration buckets in listing order with slow tests alone and quick neighbours sharing up to 64, as the mode says |
| Selections.LabelsDecide | src/scheduler.rs:1064-1073 | a target asks for single-test actions exactly when a label is "big" or has it after its first colon |
| Selections.RustBigRunsSingly | src/scheduler.rs:1064-1073 | a rust:big label gives the target the single-test batch mode |
| Selections.BuildBatches | src/scheduler.rs:1542-1646 | the ordered batches run each kept test exactly as often as it is listed, and no later batch holds a test heavier than all of an earlier one; they are single tests under a memory limit per test or a parser that cannot attribute names, else what the target asks for, else exactly what the configured mode makes of the tests, with the whole-target selection only in an unsharded run |
| Selections.ActionsAreDistinct | src/scheduler.rs:1439-1450 | no action of a target lists a test twice unless the listing does |
| Reporter.TallyAddsUp | src/scheduler.rs:433-503 | the four counts of the summary add up to its total, dropped targets included |
| Reporter.ReportDisposition | src/scheduler.rs:117-131 | a complete pass counts as passed, a complete skip or omission as skipped, and a failure is excused exactly when it is complete and quarantined |
| Reporter.SamplesInOrder | src/scheduler.rs:503-511 | the database gets each observation of each reported test, under its own target and name, test by test |
| Reporter.DiscoveredIff | src/scheduler.rs:428-432 | the database gets to know a name exactly when some target announced it |
| Reporter.ReportTests | src/scheduler.rs:446-510 | each test of a message is written, tallied and recorded once, and spoils the verdict exactly when it failed or was refused |
| Reporter.ReporterTask | src/scheduler.rs:402-548 | the reporter writes and records everything it received, in order, and passes exactly when nothing failed, nothing was dropped and every write was accepted |
| Session.ConcludeListing | src/scheduler.rs:1226-1376 | a listing succeeds exactly for a completed action without resource marker, with exit 0 and parseable output, and each way to fail has its own verdict, never a pass |
| Session.RunListing | src/scheduler.rs:1180-1219 | listing asks at most three times, again only after a queue timeout, and never turns a failure into an empty listing |
| Session.CollectOverrides | src/cli.rs:630-650 | the overrides are accepted only if all parse and no two name the same test |
| Session.ValidateOverrides | src/scheduler.rs:1075-1107 | a target passes exactly when each of its overrides names exactly one of its tests and it runs singletons |
| Session.ActionReportsMembers | src/scheduler.rs:2447-2469 | an action reports each member as often as it is listed, under the action's repeat index |
| Session.FanOut | src/scheduler.rs:1438-1486 | every kept test is reported for each repeat index as often as it is listed, the messages are green exactly when no task died and every outcome is acceptable, and a task that dies leaves an incomplete fatal failure of the target |
| Session.RunListedTarget | src/scheduler.rs:1173-1487 | the messages of a target are green exactly when it was listed, valid and all its records are green; its discovery is the first of them; its actions are those of its batches in the mode that granularity, parser, labels and configuration give, one for every repeat; and a target that cannot be run sends one failure with the verdict of its listing |
| Session.RunTarget | src/scheduler.rs:1109-1161 | a malformed, untranslatable or dying target is never green, and the latter two report an incomplete fatal failure of their own |
| Session.MissingOverrideTargets | src/scheduler.rs:330-343 | exactly the override targets that never arrived, each once |
| Session.ListingRunsNothing | src/scheduler.rs:1423-1426 | a run that only lists the tests spawns no action and has no result, and is green exactly when every target has a valid listing and no task dies |
| Session.ReorderedTests | src/scheduler.rs:1478-1486 | the order in which concurrent tasks send does not change what is reported |
| Delivery.ArrivalsKeepCause | src/scheduler.rs:1396-1468 | since a target's task sends its discovery before it spawns its actions and the channel is first in, first out, nothing that the target does later arrives before the discovery, in every schedule |
| Delivery.ArrivesDiscoveryFirst | src/scheduler.rs:22-26 | in every schedule of all tasks no result of a target is received before the target's discovery |
| Session.RunSession | src/scheduler.rs:231-319 | under every schedule: outside the help and usage shortcuts the exit code is 0 exactly when no task died, every override target arrived, every target is green and every report was accepted; whenever all targets are reached and neither a task nor the reporter dies, red or green, the reports are exactly the results of all the actions; in every run the discovery of a target is received before its results, and a reporter that lives writes everything received in order; a run that only lists the tests exits 0 exactly when no task died, every override target arrived and every target has a valid listing, whatever Buck2 would make of the tests |
| SessionTheorems.NoFalseGreen | src/scheduler.rs:117-131 | after exit 0 every due test and repeat was reported complete and not failing (or quarantined), Buck2 answered exactly that for that name, and in a per-test target no answer to a group that listed the name, before or after, left it open |
| SessionTheorems.CompleteIffSettled | src/scheduler.rs:1802-1808 | the reported result of a per-test target is complete exactly when the answers to all groups that list its name settle it |
| SessionTheorems.UnsettledIsRed | src/scheduler.rs:2286-2290 | one answer that leaves a listed name open makes its result a failure, even in quarantine and whatever an isolated re-run says |
| SessionTheorems.NeverRefused | src/execution.rs:82-100 | once a target's overrides are validated none of its groups, isolated ones included, is refused for its memory limit |
| SessionTheorems.ActionsStartCached | src/scheduler.rs:1446-1463 | every spawned action, in every repeat, numbers its requests from nought, and its very first may be served from the cache exactly where caching is allowed |
| SessionTheorems.CleanRunExitsGreen | src/scheduler.rs:231-319 | if all targets are listed and valid, no task dies, the first answer to each action clears the members of that action, and every override target and report is accepted, the run exits 0 |
| SessionTheorems.WireNamesDiffer | src/result.rs:285-296 | when a target lists no test twice, the results of all its actions, over batches, repeats, retries and isolation, are reported under pairwise different wire names |
| SessionTheorems.LostUnitIsReported | src/scheduler.rs:2447-2469 | the action of a whole unit reports exactly "missing, no attempts" when and only when Buck2's answers lose the unit, and that is a failure even in quarantine |
| Permits.StepKeepsInv | src/scheduler.rs:1838-1978 | every step of every actor keeps both bounds and the two kinds of queue |
| Permits.AlwaysInv | src/scheduler.rs:1817-1824 | the bounds hold in every state of every run |
| Permits.GlobalQueueIsShared | src/scheduler.rs:4-17 | at most the global limit is in flight, and at most the per-target limit of one target waits for or holds the global semaphore |
| Permits.BoundedOvertaking | src/scheduler.rs:4-17 | between joining the global queue and its own grant an action is overtaken by at most the per-target limit of any one target |
| Permits.NeverStuck | src/scheduler.rs:1970-1977 | with limits of at least one no reachable state is stuck, even while parents wait for their isolated members |
| Permits.StepCosts | src/scheduler.rs:2204-2445 | every step uses up some of a total cost made of retry budgets, queue-timeout retries and phases |
| Permits.EveryRunEnds | src/scheduler.rs:2520-2549 | no run is longer than the cost of its start, and a run that cannot go on has finished every actor |
| PermitBudgets.BudgetsSuffice | src/scheduler.rs:2376-2445 | the budgets of an actor cover whatever its action does |
| PermitBudgets.MovesAreAllowed | src/scheduler.rs:2376-2445 | the protocol lets every action make each rerun, isolation or end that the retry rules ask for |
| Samples.TopIgnoresOrder | src/duration_db.rs:78-82 | the unstable sort cannot show: what is kept depends only on the multiset of samples |
| Samples.TopOfTopPush | src/duration_db.rs:65-71 | truncating before a new sample arrives loses nothing that would be kept |
| Samples.RecordIsTop | src/duration_db.rs:64-82 | the record of a log is the 64 newest of all its samples |
| Samples.TopKeepsNewest | src/duration_db.rs:78-82 | as many samples are kept as there are, up to 64, and none that is left out is newer than a kept one, nor as new and longer |
| Samples.RecordKeepsNewest | src/duration_db.rs:64-82 | so the record of a log holds its 64 newest samples, newest first |
| Samples.NewestIsRecorded | src/duration_db.rs:65-71 | a sample newer than all in the record becomes its first |
| Samples.ReplayIgnoresOrder | src/duration_db.rs:64-82 | interleaved appends of parallel runs fold to the same record on top of any record |
| Samples.CombineIsConcat | src/duration_db.rs:73-76 | combining two records equals folding the two logs put together |
| Samples.CombineWithDefault | src/duration_db.rs:73-76 | the default record is neutral on both sides |
| Samples.ReplayAgainIff | src/duration_db.rs:696-699 | in one slot, replaying a log that the record contains leaves it alone exactly when it is full and every sample is at its lower end |
| Samples.PercentileRanks | src/duration_db.rs:793-801 | the percentile is a sample with at least p hundredths of the samples at or below it, and with fewer than that, or none, strictly below |
| Samples.PercentileGrows | src/duration_db.rs:793-801 | higher percentiles are never smaller |
| Samples.PercentileIgnoresOrder | src/duration_db.rs:793-801 | the percentile depends only on the multiset of samples |
| Flakes.CombineWithDefault | src/duration_db.rs:105-114 | the default record is neutral on the right, and on the left exactly for records without a stray class |
| Flakes.FoldedWithDefault | src/duration_db.rs:93-114 | the default record is neutral on both sides for the record of every log |
| Flakes.StrayClassIsLost | src/duration_db.rs:105-114 | a record with a class but no time loses the class when it is combined with the default |
| Flakes.CombineIsConcat | src/duration_db.rs:93-114 | combining two records equals folding the two logs put together |
| Flakes.RecordDescribesLog | src/duration_db.rs:93-103 | the record counts every run and failure, and its latest failure is one of the latest |
| Flakes.OrderKeepsCounts | src/duration_db.rs:93-103 | on top of any record the order of a log never changes counts or the latest failure time |
| Flakes.OrderIsHiddenIff | src/duration_db.rs:93-112 | every order of a log yields the same record exactly when its latest failures that replace the one on record share one class |
| Flakes.TiesDependOnOrder | src/duration_db.rs:97-101 | which of two equally late failures is remembered depends on the order |
| Flakes.ReplayAgainIff | src/duration_db.rs:93-103 | replaying a log twice changes the record unless the log is empty |
| ByteCodec.LeRoundTrip | src/duration_db.rs:163-167 | little-endian encoding keeps a number exactly modulo its width |
| ByteCodec.LogRoundTrip | src/duration_db.rs:244-254 | a log of fixed-size records followed by less than one record reads back exactly the records |
| ByteCodec.RecordsAppend | src/duration_db.rs:783-790 | appending to a log of whole records appends to what it holds |
| ByteCodec.TornLog | src/duration_db.rs:783-790 | a log cut off after any number of bytes holds exactly the records written in full |
| ByteCodec.ReadManyRoundTrip | src/duration_db.rs:213-233 | a counted list of encoded entries reads back, whatever follows it |
| DbFormat.PerfLogRoundTrip | src/duration_db.rs:606-615 | the 25-byte perf log reads back exactly, with any shorter tail |
| DbFormat.FlakeLogRoundTrip | src/duration_db.rs:626-636 | the 19-byte flake log reads back exactly, with any shorter tail |
| DbFormat.StringRoundTripIff | src/duration_db.rs:136-153 | a stored string reads back exactly up to 10,000 bytes and is refused beyond |
| DbFormat.IdentityRoundTripIff | src/duration_db.rs:155-175 | an identity reads back unchanged exactly when its strings are short enough and its variant is one that parsing can produce |
| DbFormat.NamesLogRoundTrip | src/duration_db.rs:346-357 | a log of storable names reads back exactly, and reading goes on after it |
| DbFormat.NamesLogRoundTripIff | src/duration_db.rs:346-357 | a names log reads back unchanged exactly when every identity in it is storable |
| DbFormat.ReadIsStorable | src/duration_db.rs:136-161 | every identity that can be read can be stored again |
| DbFormat.TornNamesLog | src/duration_db.rs:783-790 | a log of storable names cut off after any number of bytes holds exactly the names written in full |
| DbFormat.TornIsAppendableIff | src/duration_db.rs:783-790 | what is appended to such a log of storable names is read as appended exactly when it was cut off between two names |
| Tables.PerfSlotIsFold | src/duration_db.rs:251-253 | over any snapshot a slot of the loaded table is replayed from that slot's own samples |
| Tables.SlotKeepsNewest | src/duration_db.rs:198-255 | a slot of the loaded table holds the 64 newest of what snapshot and log have for it |
| Tables.FlakeSlotIsFold | src/duration_db.rs:311-316 | over any snapshot a slot of the loaded table is replayed from that slot's own runs |
| Tables.PerfIgnoresOrder | src/duration_db.rs:540-559 | over any snapshot, however parallel appends interleave they load to the same perf table |
| Tables.FlakeOrderKeepsCounts | src/duration_db.rs:540-559 | over any snapshot interleaved appends load to flake tables with the same slots, counts and times |
| Tables.FlakeOrderIsHiddenIff | src/duration_db.rs:540-559 | all interleavings load to one flake table exactly when no slot has latest failures of different classes |
| Tables.PerfReplayAgainIff | src/duration_db.rs:696-699 | a perf log replayed on a table that contains it leaves the table alone exactly when each of its samples is at the lower end of a full record |
| Tables.FlakeReplayAgainIff | src/duration_db.rs:729-732 | a replayed flake log changes the table unless it is empty |
| Tables.NamesReplayAgain | src/duration_db.rs:757-759 | a replayed names log is harmless |
| Tables.PerfReplayMoreIff | src/duration_db.rs:64-82 | replaying part of a log on a table that contains it leaves the table alone exactly when each sample of the part is at the lower end of a full record |
| Tables.RetriedPerfIff | src/duration_db.rs:606-624 | a log whose first samples were appended twice loads as if appended once exactly when those are at the lower end of full records |
| Tables.RetriedFlakeIff | src/duration_db.rs:626-645 | for runs it does exactly when none was appended twice |
| Tables.RetriedNames | src/duration_db.rs:647-660 | for names it always does |
| Tables.CombinedPerfIsReplay | src/duration_db.rs:540-545 | combining in the perf table of a log is replaying that log, onto any table |
| Tables.CombinedFlakeIsReplay | src/duration_db.rs:546-550 | the same for flakes |
| Tables.CombineIsConcat | src/duration_db.rs:540-550 | combining the tables of two logs gives the table of the logs put together |
| Snapshots.PerfRowRoundTripIff | src/duration_db.rs:676-694 | the one-byte sample count of a snapshot row is lossless exactly below 256 samples |
| Snapshots.FlakeRowRoundTripIff | src/duration_db.rs:711-735 | a flake row is lossless exactly when its counters fit and its time is not the sentinel |
| Snapshots.SentinelTimeIsLost | src/duration_db.rs:711-735 | a failure at the largest time comes back without its time and with its class |
| Snapshots.TwoRoundTrip | src/duration_db.rs:673-695 | a snapshot with one section per environment reads back both sections |
| Snapshots.ListingIsTable | src/duration_db.rs:680-681 | whatever order the map enumeration takes the snapshot loads to the same table |
| Snapshots.LoadedIsShort | src/duration_db.rs:213-235 | no record loaded from any bytes has more samples than a row can count |
| Snapshots.LoadedIsStorable | src/duration_db.rs:321-357 | every name loaded from any bytes can be stored again |
| Snapshots.AppendPerf | src/duration_db.rs:606-624 | appending encoded samples adds exactly these samples to what the directory means |
| Snapshots.AppendFlake | src/duration_db.rs:626-645 | appending encoded runs adds exactly these runs to what the directory means |
| Snapshots.AppendNames | src/duration_db.rs:647-660 | appending storable names adds exactly these names to what the directory means |
| Snapshots.TornPerf | src/duration_db.rs:606-624 | an append of samples that breaks off adds exactly those written in full |
| Snapshots.TornFlake | src/duration_db.rs:626-645 | an append of runs that breaks off adds exactly those written in full |
| Snapshots.TornNames | src/duration_db.rs:647-660 | an append of storable names that breaks off adds those written in full, and appending all of them again yields the right table if the log broke off between two names |
| Snapshots.RetriedPerfAppendIff | src/duration_db.rs:606-624 | for any directory, samples that got out before a failed append and are appended again are harmless exactly when at the lower end of full records |
| Snapshots.RetriedFlakeAppendIff | src/duration_db.rs:626-645 | for any directory, runs that got out before a failed append and are appended again are harmless exactly when there are none |
| Snapshots.RetriedRunCountsTwice | src/duration_db.rs:626-645 | one run that got out before a failed append and is appended again counts twice |
| Snapshots.DiskPerfIgnoresOrder | src/duration_db.rs:540-559 | over any directory, interleaved appends load to the same perf table |
| Snapshots.DiskFlakeOrderIsHiddenIff | src/duration_db.rs:540-559 | over any directory, interleaved appends agree in counts and times, and in everything exactly when no tie shows |
| Snapshots.CompactPerf | src/duration_db.rs:673-704 | replacing the perf snapshot and emptying the log changes nothing of what the directory means |
| Snapshots.CompactFlakeMeans | src/duration_db.rs:706-735 | a compacted flake snapshot means the table with every record as its row keeps it, for every row order |
| Snapshots.CompactFlake | src/duration_db.rs:706-735 | so it keeps the table exactly when every counter and time fits |
| Snapshots.CompactNames | src/duration_db.rs:737-761 | the same for the names snapshot |
| Snapshots.CompactThenAppendPerf | src/duration_db.rs:673-704 | compacting the perf table first and appending later loads like appending to the uncompacted log |
| Snapshots.CompactThenAppendFlake | src/duration_db.rs:706-735 | for flakes later appends go on top of what the rows keep, which is everything when everything fits |
| Snapshots.CompactThenAppendNames | src/duration_db.rs:737-761 | the same as for samples holds for storable names |
| Snapshots.UntruncatedPerfIff | src/duration_db.rs:696-699 | a directory with a renamed perf snapshot and its old log loads unchanged exactly when every sample of that log is at the lower end of a full record |
| Snapshots.UntruncatedFlakeIff | src/duration_db.rs:729-732 | the same directory with flakes that fit loads unchanged exactly when the old log holds none |
| Snapshots.UntruncatedNames | src/duration_db.rs:757-759 | the same directory with names always loads unchanged |
| Snapshots.UntruncatedRunCountsTwice | src/duration_db.rs:729-732 | one run in the old log of a renamed snapshot counts twice |
| Snapshots.UntruncatedSampleIsDoubled | src/duration_db.rs:696-699 | one sample in the old log of a renamed snapshot is held twice |
| FileLayout.PerfLayout | src/duration_db.rs:606-615 | a perf record is one byte of environment and three little-endian numbers: key, time, duration |
| FileLayout.FlakeLayout | src/duration_db.rs:626-636 | a flake record is environment, key, failed, class and time, 19 bytes in all |
| FileLayout.StringLayout | src/duration_db.rs:136-142 | a string is its length in four bytes and its bytes |
| FileLayout.NameLayout | src/duration_db.rs:647-655 | a name is its key and the strings of target, name and variant |
| FileLayout.PerfRowLayout | src/duration_db.rs:680-690 | a row of the perf snapshot is the key, a one-byte count and the samples, 16 bytes each |
| FileLayout.SampleLayout | src/duration_db.rs:686-689 | a sample of such a row is its time and its duration |
| FileLayout.FlakeRowLayout | src/duration_db.rs:711-727 | a row of the flake snapshot is key, runs, failures, time of the latest failure or the largest number, and class |
| FileLayout.SectionLayout | src/duration_db.rs:679-681 | a section is its row count in four bytes and the rows |
| FileLayout.SnapshotLayout | src/duration_db.rs:677-681 | perf and flake snapshots are PRF1 or FLK1, the section of local records and that of remote ones |
| FileLayout.NamesSnapshotLayout | src/duration_db.rs:737-755 | the names snapshot is NMS1 and one section |
| DurationDb.WalkPerfLog | src/duration_db.rs:240-255 | walking the perf log by index replays exactly its records |
| DurationDb.WalkFlakeLog | src/duration_db.rs:299-320 | walking the flake log by index replays exactly its records |
| DurationDb.WalkNames | src/duration_db.rs:341-358 | reading names to the end of the buffer replays exactly its names |
| DurationDb.EncodeRecords | src/duration_db.rs:607-614 | encoding records one after another |
| DurationDb.ListRows | src/duration_db.rs:680-681 | the rows of one environment, each key once |
| DurationDb.Store.Load | src/duration_db.rs:198-368 | loading yields what the directory means, and nothing unsaved |
| DurationDb.Store.Ephemeral | src/duration_db.rs:373-383 | a store without a directory starts empty, and holds nothing but its unsaved records |
| DurationDb.Store.RecordDiscoveredName | src/duration_db.rs:490-496 | a key keeps the first identity seen for it, and memory still agrees with the directory plus the unsaved records |
| DurationDb.Store.RecordAt | src/duration_db.rs:514-538 | every run counts for the flake history, only a run that did not fail is a sample, and the newest sample comes first; memory still agrees with the directory plus the unsaved records |
| DurationDb.CombineTables | src/duration_db.rs:540-550 | whatever order the map enumeration takes, the records of the other table are combined slot by slot |
| DurationDb.Store.CombineNames | src/duration_db.rs:551-556 | the first identity of a key is kept, and memory still agrees with the directory plus the unsaved names |
| DurationDb.Store.Combine | src/duration_db.rs:540-559 | combining in a store that holds only its own unsaved records keeps memory the directory with all unsaved records on top |
| DurationDb.Store.SavePerf | src/duration_db.rs:606-624 | a failing append writes any number of the bytes and keeps all records; memory then still agrees with directory and unsaved records exactly when whole records were written and second copies of them would be at the lower end of full ones |
| DurationDb.Store.SaveFlake | src/duration_db.rs:626-645 | for runs exactly when nothing was written |
| DurationDb.Store.SaveNames | src/duration_db.rs:647-660 | for storable names the tables always agree, and the log stays readable exactly when it broke off between two names |
| DurationDb.Store.CompactPerfFile | src/duration_db.rs:673-704 | compaction keeps the meaning unless it fails between rename and truncation, when the log is replayed once more |
| DurationDb.Store.Flush | src/duration_db.rs:570-775 | the directory after a flush, and whether it succeeds, are exactly what the endings of its file operations give: sections are independent, unsaved records survive a failure, all logs are compacted when one exceeds 524,288 bytes; memory keeps agreeing with directory and unsaved records unless a failing append wrote something or a truncation failed, and after success the directory loads to exactly the tables in memory |
| DurationDb.SamplesOverBoth | src/duration_db.rs:441-454 | for every table, an estimate without a known environment reads the 64 newest samples of both, by their times |
| DurationDb.SamplesInOne | src/duration_db.rs:441-454 | in a known environment it reads the 64 newest samples of that environment |
| DurationDb.SamplesOnDisk | src/duration_db.rs:441-454 | in terms of the files these are the 64 newest of what snapshot and log hold for the test in either environment |
| DurationDb.EstimateIsOrdered | src/duration_db.rs:441-466 | for every table and every environment, known or not, a test is unseen exactly when it has no sample to read; else p50 and p95 are the durations that half and 95 hundredths of these samples do not exceed, and the one is at most the other |
| DurationDb.KnownFlakeIff | src/duration_db.rs:469-492 | a test has the retry budget of flaky tests exactly when snapshot or log of the directory hold a failure of it, in either environment |
| DurationDb.FlakeCounts | src/duration_db.rs:469-492 | runs and failures add up over the environments that are asked for |
| ReportWriter.NamesDiffer | src/scheduler.rs:706-715 | destination, temporary file and backup never coincide |
| ReportWriter.CiTestReportWriter.Open | src/scheduler.rs:698-760 | a report that cannot be started leaves the destination untouched |
| ReportWriter.CiTestReportWriter.WriteTest | src/scheduler.rs:763-775 | the temporary file holds the header and all records so far, separated by commas, and no record is refused unless a write fails |
| ReportWriter.CiTestReportWriter.SnapshotDestination | src/scheduler.rs:820-845 | a backup that is announced holds the old report, and the destination is not touched |
| ReportWriter.CiTestReportWriter.FinishInner | src/scheduler.rs:802-818 | footer, file sync, inspection, backup and its sync, rename, directory sync and removal of the backup happen in this order up to the first that fails; success means that the whole report is in place, without temporary file and backup |
| ReportWriter.CiTestReportWriter.Install | src/scheduler.rs:809-817 | the rename either does not happen or puts the whole report in place while the backup still holds the old one |
| ReportWriter.CiTestReportWriter.Rollback | src/scheduler.rs:867-902 | the rename, if it happened, is undone and put on disk operation by operation; a rollback restores the old report or leaves it at the recovery path |
| ReportWriter.CiTestReportWriter.Cleanup | src/scheduler.rs:914-936 | cleaning up never touches the destination, nor the backup while it is needed for recovery |
| ReportWriter.CiTestReportWriter.Finish | src/scheduler.rs:777-800 | for any pattern of failing operations: complete new report, or old report at the destination or the recovery path, and at every step one of them exists; it fails exactly if an operation fails or the destination is no file, and undoes the rename exactly if that had happened |
| ReportWriter.Publish | src/scheduler.rs:410-424 | the same over the life of a report, from its first byte; it is published exactly if no operation fails, the destination is no directory and the temporary name is free |
| CiReporting.WriteTests | src/scheduler.rs:446-470 | the tests of a message are added to the report in order, until a write fails and the report is given up with the old one untouched |
| CiReporting.ReportAll | src/scheduler.rs:402-548 | whatever happens to the report, account and verdict are the reporter's own; a published report holds a record for exactly the written tests, in order, and it is published unless a file operation fails or a file is in the way |
| ShellQuoting.AppendArguments | src/execution.rs:215-223 | the loop appends a blank and the quoted form of each argument |
| ShellQuoting.QuoteScans | src/execution.rs:236-238 | to the shell a quoted value adds exactly the value to the current word |
| ShellQuoting.ArgumentsRoundTrip | src/execution.rs:216-223 | for every list of arguments the shell reads back exactly that list |
| ShellQuoting.ArgumentsInScript | src/execution.rs:216-223 | inside the script the words before the arguments stay, and after the blank that follows them the words are exactly these and the arguments |
| ShellQuoting.CommandGetsArguments | src/execution.rs:215-223 | up to the operator that the script puts after them, the command's words are its own and exactly the arguments |
| Listing.TextListOutput | src/translator.rs:293-321 | the loop prints one line per test, and the summary |
| Listing.LineRoundTrip | src/translator.rs:192-208 | a printed line parses to its own test, whatever its name contains besides a newline |
| Listing.LineText | src/translator.rs:295-301 | a line is the name, and what says whether it is a test or a benchmark |
| Listing.TrailingBlanks | src/translator.rs:191-208 | a blank at the end of a line does not change what it lists |
| Listing.CountsAddUp | src/translator.rs:302-319 | the two counts of the summary add up to the number of tests |
| Listing.ListingRoundTrip | src/translator.rs:188-208 | with or without the summary, names and kinds come back in order |
| Listing.ListingRoundTripIff | src/translator.rs:188-208 | the printed list parses back exactly when every name is non-empty and has no newline |
| Listing.NewlineNameIsCut | src/translator.rs:188-208 | of a test whose name spans two lines only the second line is listed |
| Variants.TextRoundTripIff | src/variant.rs:34-57 | storing a variant and parsing it back is lossless exactly for variants that parsing can produce |
| Variants.NamedAsanIsLost | src/variant.rs:34-57 | a variant named asan comes back as the built-in one |
| WireNames.ToBuck2Name | src/result.rs:285-296 | the name that is built in place is the wire name, and no other test or repeat of the target gets the same one |
| WireNames.WireNamesAreDistinct | src/result.rs:285-296 | within a target two runs share a wire name exactly when they are the same test and repeat |

## Left out

- gRPC, transport, the Tokio runtime and the shell supervisor: no logic to state; Buck2's answers are arbitrary.
- Decoding of wire messages, JSON listings and JSON results: a response is given in decoded form, and a listing by what its parser makes of it.
- Detail texts, log upload, console lines, summary text and annotations: plain strings without influence on results.
- Command line and configuration: limits, retry counts, shard count and chunk size are taken as at least one, as the command line makes them; overrides are taken as unique per test where that is needed, as `Session.CollectOverrides` makes them.
- Target labels: quarantine and retry policy of a target are given; the batch mode is read off its labels.
- Widths of counters in memory: durations, weights and counts are natural numbers, so overflow of 32-bit attempt counters and 64-bit weight sums is not modelled.
- Session.RunSession: each target's settings are taken to agree with those of the run.
- Session.RunListedTarget: the report of the discovered tests to Buck2 and the printed list of a list-only run are output without influence on results.
- Session.RunTarget: the method runs actions one after another; when their messages are sent is left to the schedule, and which messages of a dying target got out is arbitrary.
- Session.MissingOverrideTargets: the sorting of the missing targets is left out, since it only orders console lines.
- CiReporting.ReportAll: the records of a message are written before its tests are tallied and reported, not in alternation; the two touch different state.
- The reporter's use of the database: `Reporter` says what it records, and `DurationDb.Store` models the recording and the flush, but not in one method.
- Permits: the listing semaphore, which guards one call with no second permit; cancellation while waiting.
- Permits.NeverStuck: a granted waiter is assumed to run eventually and every request to be answered eventually.
- DurationDb.Store.SavePerf: what a log means whose records are out of step after a failed append, beyond that agreement is lost.
- DurationDb.Store.Flush: the lock file, its ageing and concurrent writers, because the code goes on without the lock; compaction of a log that is out of step after a failed append; tables are taken to have fewer than 2^32 rows and flake counters to fit 64 bits.
- DbFormat.IdentityRoundTripIff: strings of 4 GiB and more, whose length would be truncated to 32 bits.
- DurationDb.WalkNames: how far a failing read of a truncated string advances is a library detail; here it consumes the rest.
- Snapshot rows are read by functions on byte sequences; only the logs are walked by loops.
- The hash functions: any function; nothing needs them injective.
- UTF-8: the library's two conversions, of which only that they are inverse is used.
- ReportWriter.CiTestReportWriter.Rollback: the check for a missing backup is left out, since it is proved that it never fires.
- ReportWriter.CiTestReportWriter.Finish: loss of power between operations beyond their order; other processes touching the three files.
- ShellQuoting.ArgumentsRoundTrip: the lexer covers words with single quotes, double quotes and backslashes and stops where expansions, operators or patterns begin; the rest of the script is not interpreted.
- Listing: the ignored-test policy, a filter over the parsed list; carriage returns at the end of foreign lines are stripped as the library does.
