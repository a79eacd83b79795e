/** What the exit code and the reports of a whole run say about Buck2's answers. */
module SessionTheorems {
  import opened Results
  import opened Sequences
  import opened ActionModel
  import opened Reporter
  import opened Selections
  import opened Session
  import ActionAnswers
  import ActionRunner
  import ActionTheorems
  import Variants
  import WireNames

  // ---------------------------------------------------------------- no false green

  lemma {:induction false} CountedIsThere(finished: seq<FinishedTest>, name: Name, r: nat) returns (j: nat)
    requires CountIn(finished, name, r) > 0
    ensures j < |finished| && finished[j].name == name && finished[j].repeatIndex == r
  {
    var last := |finished| - 1;
    if finished[last].name == name && finished[last].repeatIndex == r {
      j := last;
    } else {
      j := CountedIsThere(finished[..last], name, r);
    }
  }

  lemma {:induction false} ReportedIsThere(records: seq<ActionRecord>, name: Name, r: nat) returns (k: nat, j: nat)
    requires ReportCount(records, name, r) > 0
    ensures k < |records| && j < |records[k].finished|
    ensures records[k].finished[j].name == name && records[k].finished[j].repeatIndex == r
  {
    hide CountIn;
    var last := |records| - 1;
    if CountIn(records[last].finished, name, r) > 0 {
      k := last;
      j := CountedIsThere(records[last].finished, name, r);
    } else {
      k, j := ReportedIsThere(records[..last], name, r);
    }
  }

  lemma {:induction false} TaggedIsIn(target: Target, records: seq<ActionRecord>, k: nat, j: nat)
    requires target.Runnable?
    requires k < |records| && j < |records[k].finished|
    ensures ReportedTest(target.cfg.target, records[k].finished[j], target.quarantined) in AllTagged(target, records)
  {
    var last := |records| - 1;
    if k == last {
      assert Tagged(target, records[k].finished)[j] in Tagged(target, records[k].finished);
    } else {
      TaggedIsIn(target, records[..last], k, j);
    }
  }

  lemma {:induction false} RecordIsDue(targets: seq<Target>, logs: seq<TargetLog>, i: nat, k: nat, j: nat)
    requires |targets| == |logs| && i < |logs| && targets[i].Runnable?
    requires k < |logs[i].records| && j < |logs[i].records[k].finished|
    ensures ReportedTest(targets[i].cfg.target, logs[i].records[k].finished[j], targets[i].quarantined)
            in DueResults(targets, logs)
  {
    hide AllTagged;
    var last := |logs| - 1;
    if i == last {
      TaggedIsIn(targets[i], logs[i].records, k, j);
    } else {
      RecordIsDue(targets[..last], logs[..last], i, k, j);
    }
  }

  /** Every answer to a group that lists the name of the j-th result, alone or with others, settles that name. */
  ghost predicate SettledThroughout(target: Target, kept: seq<Name>, k: nat, record: ActionRecord, j: nat)
    requires target.Runnable? && j < |record.finished|
  {
    var cfg, plan, world, name := target.cfg, PlanOf(kept, record), target.worlds(k), record.finished[j].name;
    && ActionAnswers.AlwaysSettled(cfg, |plan.members| > 1, world.batch, record.log.runs, name)
    && ActionAnswers.AlwaysSettled(
         cfg, false, ActionAnswers.OracleAt(cfg, plan, world, record.log, j),
         ActionTheorems.AloneRuns(cfg, plan, record.log, j), name)
  }

  /** The result of a per-test target is complete exactly when Buck2's answers settle it throughout. */
  lemma {:induction false} CompleteIffSettled(target: Target, kept: seq<Name>, k: nat, record: ActionRecord, j: nat)
    requires target.Runnable? && !target.cfg.wholeTarget
    requires IsRecord(target, kept, k, record) && j < |record.finished|
    ensures record.finished[j].outcome.integrity == Complete <==> SettledThroughout(target, kept, k, record, j)
  {
    hide IsAction, TrailAt, RecordAt, ReportOrder, ActionAnswers.AlwaysSettled, ActionTheorems.AloneRuns;
    hide ActionAnswers.OracleAt, OutcomeOf;
    var plan := PlanOf(kept, record);
    ActionAnswers.CompleteIffSettled(target.cfg, plan, target.worlds(k), record.log, j);
    SummaryIs(target, plan, record, j);
  }

  lemma {:induction false} SummaryIs(target: Target, plan: Plan, record: ActionRecord, j: nat)
    requires target.Runnable?
    requires ActionRunner.Reports(target.cfg, plan, record.log, record.repeatIndex, record.finished)
    requires j < |record.finished|
    ensures j < |ReportOrder(target.cfg, plan, record.log.runs)|
    ensures record.finished[j].name == ReportOrder(target.cfg, plan, record.log.runs)[j]
    ensures record.finished[j].outcome == OutcomeOf(TrailAt(target.cfg, plan, record.log, j))
  {
    hide TrailAt, RecordAt, ReportOrder, OutcomeOf;
  }

  /** One answer that leaves a name open makes the action's record red, whatever a later answer says. */
  lemma {:induction false} UnsettledIsRed(target: Target, kept: seq<Name>, k: nat, record: ActionRecord, j: nat)
    requires target.Runnable? && !target.cfg.wholeTarget
    requires IsRecord(target, kept, k, record) && j < |record.finished|
    requires !SettledThroughout(target, kept, k, record, j)
    ensures !GreenRecord(target, k, record)
    ensures ReportDisposition(ReportedTest(target.cfg.target, record.finished[j], target.quarantined)) == Failure
  {
    hide IsRecord, SettledThroughout;
    CompleteIffSettled(target, kept, k, record, j);
    assert record.finished[j] in record.finished;
  }

  /** The j-th result of the target's k-th action is what the answers of Buck2 to that action justify. */
  ghost predicate Justifies(target: Target, kept: seq<Name>, k: nat, record: ActionRecord, j: nat)
    requires target.Runnable? && j < |record.finished|
  {
    var plan, result := PlanOf(kept, record), record.finished[j];
    && IsAction(target.cfg, plan, target.worlds(k), record.log)
    && j < |ReportOrder(target.cfg, plan, record.log.runs)|
    && result.name == ReportOrder(target.cfg, plan, record.log.runs)[j]
    && var trail := TrailAt(target.cfg, plan, record.log, j);
       && result == Summarize(result.name, record.repeatIndex, trail, RecordAt(target.cfg, plan, record.log, j))
       && (forall a :: a in trail ==> a.best.integrity == Complete)
       && (target.cfg.wholeTarget || SettledThroughout(target, kept, k, record, j))
       && (|| (target.quarantined && result.outcome.status.IsFailure())
           || ActionTheorems.HasEvidenceAt(
                target.cfg, plan, target.worlds(k), record.log, j, result.name, result.outcome.status))
  }

  lemma {:induction false} GreenResultIsJustified(target: Target, kept: seq<Name>, k: nat, record: ActionRecord, j: nat)
    requires target.Runnable?
    requires IsRecord(target, kept, k, record)
    requires j < |record.finished|
    requires Acceptable(record.finished[j].outcome, target.quarantined)
    ensures Justifies(target, kept, k, record, j)
  {
    hide IsAction, TrailAt, RecordAt, ActionTheorems.HasEvidenceAt, ReportOrder, SettledThroughout;
    if !target.cfg.wholeTarget {
      CompleteIffSettled(target, kept, k, record, j);
    }
    var plan, result := PlanOf(kept, record), record.finished[j];
    var trail := TrailAt(target.cfg, plan, record.log, j);
    ActionTheorems.CompleteMeansNoneIncomplete(trail);
    if result.outcome.Passing() {
      ActionTheorems.PassHasEvidence(target.cfg, plan, target.worlds(k), record.log, j);
    }
  }

  /**
   * No false green. After a run that exits 0, every due test and repeat index of every target was
   * reported; the reported outcome is complete, and not a failure unless the target is quarantined;
   * and it is justified by what Buck2 answered for exactly that name.
   */
  lemma {:induction false} NoFalseGreen(
    run: RunConfig, targets: seq<Target>, logs: seq<TargetLog>, written: seq<ReportedTest>, i: nat, name: Name, r: nat)
    requires 1 <= run.shard.count && !run.listOnly
    requires AreTargetLogs(run, targets, logs) && GreenTargets(run, targets, logs)
    requires multiset(written) == multiset(DueResults(targets, logs))
    requires i < |targets| && targets[i].Runnable?
    requires logs[i].listing.Listed?
    requires name in ShardFilter(run.hash, targets[i].cfg.target, run.shard, logs[i].listing.tests)
    requires r < targets[i].repeats
    ensures exists k, j ::
              && 0 <= k < |logs[i].records| && 0 <= j < |logs[i].records[k].finished|
              && var result := logs[i].records[k].finished[j];
                 && result.name == name && result.repeatIndex == r
                 && ReportedTest(targets[i].cfg.target, result, targets[i].quarantined) in written
                 && Acceptable(result.outcome, targets[i].quarantined)
                 && Justifies(targets[i], logs[i].kept, k, logs[i].records[k], j)
  {
    hide IsRecord, DueResults, ReportCount, Justifies, ShardFilter, OverridesFit, IsListing;
    var target, log := targets[i], logs[i];
    assert IsTargetLog(run, target, log) && GreenTarget(run, target, log);
    assert ReportCount(log.records, name, r) == multiset(log.kept)[name];
    var k, j := ReportedIsThere(log.records, name, r);
    var result := log.records[k].finished[j];
    RecordIsDue(targets, logs, i, k, j);
    SameElements(written, DueResults(targets, logs));
    assert GreenRecord(target, k, log.records[k]);
    assert result in log.records[k].finished;
    GreenResultIsJustified(target, log.kept, k, log.records[k], j);
  }

  // ---------------------------------------------------------------- a lost unit

  /**
   * What a target that is run as a whole reports when Buck2's answers lose its unit: one result,
   * incomplete and without any attempt, which is a failure even in quarantine. And only then does it
   * report that.
   */
  lemma {:induction false} LostUnitIsReported(target: Target, unit: Name, i: nat, record: ActionRecord)
    requires target.Runnable? && target.cfg.wholeTarget
    requires ActionTheorems.IsUnit(unit)
    requires record.selection == All || record.selection == Explicit([unit])
    requires IsRecord(target, [unit], i, record)
    ensures record.finished == [FinishedTest(unit, record.repeatIndex, MISSING, [], [])]
            <==> ActionTheorems.AnswersLose(target.cfg, target.worlds(i).batch, unit)
    ensures ActionTheorems.AnswersLose(target.cfg, target.worlds(i).batch, unit) ==>
              && ReportDisposition(ReportedTest(target.cfg.target, record.finished[0], target.quarantined)) == Failure
              && !GreenRecord(target, i, record)
              && |record.log.runs| == AllowedAttempts(target.cfg, unit)
  {
    hide AllowedAttempts, IsRun, Trail, Recorded, ActionTheorems.AnswersLose;
    var plan, runs := PlanOf([unit], record), record.log.runs;
    ActionRunner.SingletonAction(target.cfg, plan, target.worlds(i), record.log, record.repeatIndex, record.finished);
    UnitIsWellFormed(target.cfg, plan, unit);
    ActionTheorems.WholeUnitIsLostIff(target.cfg, plan, target.worlds(i).batch, runs, unit);
    var trail := Trail(target.cfg, plan, runs, unit);
    NothingInherited(target.cfg, plan, runs, unit);
    ActionTheorems.HistoryFollowsTrail(trail);
    if ActionTheorems.AnswersLose(target.cfg, target.worlds(i).batch, unit) {
      assert record.finished[0] in record.finished;
    }
  }

  lemma {:induction false} UnitIsWellFormed(cfg: Config, plan: Plan, unit: Name)
    requires plan.Fresh() && plan.members == [unit]
    requires plan.selection == All || plan.selection == Explicit([unit])
    ensures WellFormed(plan)
  {
  }

  lemma {:induction false} NothingInherited(cfg: Config, plan: Plan, runs: seq<GroupRun>, name: Name)
    requires plan.Fresh()
    ensures Recorded(cfg, plan, runs, name) == Trail(cfg, plan, runs, name)
  {
  }

  // ---------------------------------------------------------------- no group is refused

  lemma {:induction false} NothingMatches(overrides: seq<MemoryOverride>, target: string, names: seq<Name>)
    requires forall o :: o in overrides ==> o.target != target
    ensures MatchingOverrides(overrides, target, names) == []
  {
    if overrides != [] {
      assert overrides[0] in overrides;
      NothingMatches(overrides[1..], target, names);
    }
  }

  ghost predicate AllLimited(cfg: Config, runs: seq<GroupRun>) {
    forall run :: run in runs ==> MemoryMaxFor(cfg, run.names).Some?
  }

  lemma {:induction false} SinglesAreLimited(cfg: Config, plan: Plan, world: World, log: ActionLog)
    requires ActionTheorems.UniqueOverrides(cfg.overrides)
    requires WellFormed(plan) && |plan.members| == 1
    requires IsAction(cfg, plan, world, log)
    ensures AllLimited(cfg, log.runs) && log.isolated == []
  {
    hide WellFormed, IsRun, MemoryMaxFor;
    assert !Next(cfg, plan, log.runs).Isolate?;
    ActionTheorems.SingletonHasItsLimit(cfg, plan.members[0]);
    assert plan.members == [plan.members[0]];
    forall run | run in log.runs
      ensures MemoryMaxFor(cfg, run.names).Some?
    {
      var k :| 0 <= k < |log.runs| && log.runs[k] == run;
      ActionTheorems.OnlyMemberRuns(cfg, plan, world.batch, log.runs, k);
    }
  }

  /**
   * Once the overrides of a target are validated, no group of it is ever refused for its memory
   * limit: those that have an override run one test at a time.
   */
  lemma {:induction false} NeverRefused(run: RunConfig, target: Target, log: TargetLog, k: nat)
    requires Consistent(run, target) && ActionTheorems.UniqueOverrides(run.overrides)
    requires IsTargetLog(run, target, log) && Reached(run, target, log)
    requires k < |log.records|
    ensures var cfg, record := target.cfg, log.records[k];
            && MemoryMaxFor(cfg, PlanOf(log.kept, record).members).Some?
            && AllLimited(cfg, record.log.runs)
            && forall j :: 0 <= j < |record.log.isolated| ==> AllLimited(cfg, record.log.isolated[j])
  {
    hide IsAction, ReportsEachRepeat, IsListing, MatchingOverrides, RunsAsBatched;
    var cfg, record := target.cfg, log.records[k];
    var plan := PlanOf(log.kept, record);
    assert IsRecord(target, log.kept, k, record);
    if o :| o in run.overrides && o.target == cfg.target {
      assert OverrideFits(o, cfg.target, RustBig(target), log.listing.tests);
      RustBigIsSingle(run, target, log.kept, log.records, k);
      assert |plan.members| == 1 && plan.members == [plan.members[0]];
      MembersAreWellFormed(plan);
      SinglesAreLimited(cfg, plan, target.worlds(k), record.log);
      ActionTheorems.SingletonHasItsLimit(cfg, plan.members[0]);
    } else {
      forall names: seq<Name>
        ensures MemoryMaxFor(cfg, names).Some?
      {
        NothingMatches(cfg.overrides, cfg.target, names);
      }
    }
  }

  /** Every action of a rust:big target has one test. */
  lemma {:induction false} RustBigIsSingle(
    run: RunConfig, target: Target, kept: seq<Name>, records: seq<ActionRecord>, k: nat)
    requires target.Runnable? && RustBig(target)
    requires RunsAsBatched(run, target, kept, records) && k < |records|
    ensures records[k].selection.Explicit? && |records[k].selection.names| == 1
  {
    hide BatchedAs, LongestFirst, AsksForSingles, SpawnedFor;
    var weightOf := (n: Name) => run.weightOf(target.cfg.target, n);
    var p50Of := (n: Name) => run.p50Of(target.cfg.target, n);
    var mode, batches :|
      && HasMode(run, target, mode)
      && BatchedAs(mode, run.shard.count > 1, batches, kept, weightOf, p50Of)
      && LongestFirst(batches, kept, weightOf)
      && SpawnedFor(records, batches, target.repeats);
    RustBigAsksForSingles();
    SpawnedIn(records, batches, target.repeats, k);
    SingleTestActions(batches, run.shard.count > 1, kept, weightOf, p50Of, records[k].selection);
  }

  lemma {:induction false} MembersAreWellFormed(plan: Plan)
    requires plan.Fresh() && plan.selection == Explicit(plan.members)
    ensures WellFormed(plan)
  {
  }

  // ---------------------------------------------------------------- caching

  /** Every spawned action numbers its requests from nought, and only its first may be served from the cache. */
  lemma {:induction false} ActionsStartCached(target: Target, kept: seq<Name>, i: nat, record: ActionRecord)
    requires target.Runnable? && IsRecord(target, kept, i, record)
    ensures forall k, r | 0 <= k < |record.log.runs| && 0 <= r < |record.log.runs[k].requests| ::
              && record.log.runs[k].requests[r].attemptIndex == k + r
              && (record.log.runs[k].requests[r].cachingEnabled
                  <==> k == r == 0 && ActionTheorems.MayCache(target.cfg, MembersOf(record.selection, kept)))
  {
    hide IsAction, ActionRunner.Reports, ActionTheorems.MayCache, MembersOf;
    ActionTheorems.OnlyFirstRequestIsCached(target.cfg, PlanOf(kept, record), target.worlds(i), record.log);
  }

  // ---------------------------------------------------------------- no false red

  /**
   * The target is listed and valid, no task dies, and the first answer to each action clears the
   * members of that action.
   */
  ghost predicate CleanTarget(run: RunConfig, target: Target, log: TargetLog) {
    && Reached(run, target, log)
    && target.death.None?
    && forall k :: 0 <= k < |log.records| ==> CleanRecord(target, log.kept, k, log.records[k])
  }

  ghost predicate CleanRecord(target: Target, kept: seq<Name>, k: nat, record: ActionRecord)
    requires target.Runnable?
  {
    && !Dies(target, k)
    && ActionTheorems.Clean(target.cfg, target.worlds(k).batch(0), PlanOf(kept, record).members)
  }

  lemma {:induction false} CleanActionIsAcceptable(
    cfg: Config, plan: Plan, world: World, log: ActionLog, repeatIndex: nat, finished: seq<FinishedTest>,
    quarantined: bool)
    requires plan.Fresh() && IsAction(cfg, plan, world, log)
    requires ActionRunner.Reports(cfg, plan, log, repeatIndex, finished)
    requires MemoryMaxFor(cfg, plan.members).Some? && ActionTheorems.Clean(cfg, world.batch(0), plan.members)
    ensures forall t :: t in finished ==> Acceptable(t.outcome, quarantined)
  {
    hide IsAction, MemoryMaxFor, ActionTheorems.Clean, TrailAt, RecordAt, ReportOrder;
    ActionTheorems.EveryMemberIsReported(cfg, plan, log.runs);
    SameLength(ReportOrder(cfg, plan, log.runs), plan.members);
    forall t | t in finished
      ensures Acceptable(t.outcome, quarantined)
    {
      var i :| 0 <= i < |finished| && finished[i] == t;
      ActionTheorems.NoFalseRed(cfg, plan, world, log, i);
    }
  }

  lemma {:induction false} CleanTargetIsGreen(run: RunConfig, target: Target, log: TargetLog)
    requires !run.listOnly && Consistent(run, target) && ActionTheorems.UniqueOverrides(run.overrides)
    requires IsTargetLog(run, target, log) && CleanTarget(run, target, log)
    ensures GreenTarget(run, target, log)
  {
    hide IsAction, ReportsEachRepeat, IsListing, OverridesFit;
    hide ActionRunner.Reports, MemoryMaxFor, MembersOf, ActionTheorems.Clean;
    forall k | 0 <= k < |log.records|
      ensures GreenRecord(target, k, log.records[k])
    {
      var record := log.records[k];
      var plan := PlanOf(log.kept, record);
      assert IsRecord(target, log.kept, k, record);
      NeverRefused(run, target, log, k);
      assert CleanRecord(target, log.kept, k, record);
      CleanActionIsAcceptable(
        target.cfg, plan, target.worlds(k), record.log, record.repeatIndex, record.finished, target.quarantined);
    }
  }

  /**
   * No false red: when every first answer is clean, every override target arrives and every report
   * is accepted, the run exits 0.
   */
  lemma {:induction false} CleanRunExitsGreen(
    run: RunConfig, targets: seq<Target>, logs: seq<TargetLog>, accepts: nat -> bool, written: seq<ReportedTest>)
    requires 1 <= run.shard.count && !run.listOnly && ActionTheorems.UniqueOverrides(run.overrides)
    requires forall target :: target in targets ==> Consistent(run, target)
    requires AreTargetLogs(run, targets, logs)
    requires forall i :: 0 <= i < |targets| ==> CleanTarget(run, targets[i], logs[i])
    requires OverridesReceived(run, targets) && AllAccepted(accepts, |written|)
    ensures ExitsGreen(run, targets, logs, accepts, false, false, written)
  {
    hide IsTargetLog, CleanTarget, GreenTarget;
    hide Consistent, OverridesReceived, AllAccepted, ActionTheorems.UniqueOverrides;
    forall i | 0 <= i < |logs|
      ensures GreenTarget(run, targets[i], logs[i])
    {
      assert targets[i] in targets;
      CleanTargetIsGreen(run, targets[i], logs[i]);
    }
  }

  // ---------------------------------------------------------------- wire names

  /** How many of the tests are the repeat of the name. */
  function TaggedCount(tests: seq<ReportedTest>, name: Name, r: nat): nat {
    if tests == [] then 0
    else
      var last := tests[|tests| - 1].result;
      TaggedCount(tests[..|tests| - 1], name, r) + (if last.name == name && last.repeatIndex == r then 1 else 0)
  }

  lemma {:induction false} TaggedCountAppend(a: seq<ReportedTest>, b: seq<ReportedTest>, name: Name, r: nat)
    ensures TaggedCount(a + b, name, r) == TaggedCount(a, name, r) + TaggedCount(b, name, r)
  {
    if b == [] {
      assert a + b == a;
    } else {
      TaggedCountAppend(a, b[..|b| - 1], name, r);
      assert (a + b)[..|a + b| - 1] == a + b[..|b| - 1];
    }
  }

  lemma {:induction false} TaggedCountIs(target: Target, finished: seq<FinishedTest>, name: Name, r: nat)
    requires target.Runnable?
    ensures TaggedCount(Tagged(target, finished), name, r) == CountIn(finished, name, r)
  {
    if finished != [] {
      TaggedCountIs(target, finished[..|finished| - 1], name, r);
      assert Tagged(target, finished)[..|finished| - 1] == Tagged(target, finished[..|finished| - 1]);
    }
  }

  lemma {:induction false} AllTaggedCount(target: Target, records: seq<ActionRecord>, name: Name, r: nat)
    requires target.Runnable?
    ensures TaggedCount(AllTagged(target, records), name, r) == ReportCount(records, name, r)
  {
    hide TaggedCount, CountIn, Tagged;
    if records == [] {
      assert TaggedCount([], name, r) == 0 by { NothingCounted(name, r); }
    } else {
      var rest, last := records[..|records| - 1], records[|records| - 1];
      AllTaggedCount(target, rest, name, r);
      TaggedCountIs(target, last.finished, name, r);
      TaggedCountAppend(AllTagged(target, rest), Tagged(target, last.finished), name, r);
    }
  }

  lemma {:induction false} NothingCounted(name: Name, r: nat)
    ensures TaggedCount([], name, r) == 0
  {
  }

  lemma {:induction false} CountsEach(tests: seq<ReportedTest>, p: nat)
    requires p < |tests|
    ensures TaggedCount(tests, tests[p].result.name, tests[p].result.repeatIndex) >= 1
  {
    if p < |tests| - 1 {
      CountsEach(tests[..|tests| - 1], p);
    }
  }

  lemma {:induction false} TwiceCountsTwo(tests: seq<ReportedTest>, p: nat, q: nat)
    requires p < q < |tests|
    requires tests[p].result.name == tests[q].result.name && tests[p].result.repeatIndex == tests[q].result.repeatIndex
    ensures TaggedCount(tests, tests[p].result.name, tests[p].result.repeatIndex) >= 2
  {
    var rest := tests[..|tests| - 1];
    if q < |tests| - 1 {
      TwiceCountsTwo(rest, p, q);
    } else {
      CountsEach(rest, p);
    }
  }

  /** The name under which Buck2 gets the result of a target with this variant and kind of repeats. */
  function ReportedName(test: ReportedTest, variant: Variants.Variant, repeat_: WireNames.RepeatKind): string {
    WireNames.WireName(
      WireNames.RunIdentity(
        Variants.TestIdentity(test.target, test.result.name, variant), repeat_, test.result.repeatIndex))
  }

  /**
   * When a target lists no test twice, the results of its actions, over all batches and repeats and
   * after any retry or isolation, are reported to Buck2 under pairwise different names.
   */
  lemma {:induction false} WireNamesDiffer(
    run: RunConfig, target: Target, log: TargetLog, variant: Variants.Variant, repeat_: WireNames.RepeatKind,
    p: nat, q: nat)
    requires 1 <= run.shard.count && !run.listOnly && target.Runnable?
    requires IsTargetLog(run, target, log) && Reached(run, target, log)
    requires Distinct(log.listing.tests)
    requires WireNames.Repeats(repeat_) == target.repeats
    requires p < q < |AllTagged(target, log.records)|
    ensures var tests := AllTagged(target, log.records);
            ReportedName(tests[p], variant, repeat_) != ReportedName(tests[q], variant, repeat_)
  {
    hide AllTagged, TaggedCount, ReportCount, ShardFilter, IsListing, OverridesFit, AreRecords;
    hide WireNames.WireName;
    var tests := AllTagged(target, log.records);
    KeptStaysDistinct(run.hash, target.cfg.target, run.shard, log.listing.tests);
    var a, b := tests[p].result, tests[q].result;
    AllTaggedCount(target, log.records, a.name, a.repeatIndex);
    AllTaggedCount(target, log.records, b.name, b.repeatIndex);
    CountsEach(tests, p);
    CountsEach(tests, q);
    CountsAtMostOnce(log.kept, a.name);
    if a.name == b.name && a.repeatIndex == b.repeatIndex {
      TwiceCountsTwo(tests, p, q);
      assert false;
    }
    WireNames.WireNamesAreDistinct(
      WireNames.RunIdentity(Variants.TestIdentity(tests[p].target, a.name, variant), repeat_, a.repeatIndex),
      WireNames.RunIdentity(Variants.TestIdentity(tests[q].target, b.name, variant), repeat_, b.repeatIndex));
  }
}
