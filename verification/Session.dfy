/** From target specs to the exit code: listing, override checks, fan-out of actions, the run. */
module Session {
  import opened Results
  import opened Sequences
  import opened ActionModel
  import opened Delivery
  import opened Reporter
  import opened Selections
  import ActionRunner
  import ActionTheorems

  const NONZERO_EXIT: int := 32

  // ---------------------------------------------------------------- listing

  datatype Listing = Listed(tests: seq<Name>) | NotListed(status: TestVerdict)

  function MarkerStatus(granularity: CgroupGranularity, marker: ResourceFailure): TestVerdict {
    match marker
    case LogicalTimeout(index) => if granularity == LogicalTest && index == 0 then Timeout else InfraFailure
    case LogicalOom(index) => if granularity == LogicalTest && index == 0 then Fail else InfraFailure
    case ActionOom => if granularity == Action then Fail else InfraFailure
    case ActionTimeout => if granularity == Action then Timeout else InfraFailure
    case Setup => InfraFailure
    case MalformedMarker => InfraFailure
  }

  /** `parsed` is what the listing parser makes of the response's output. */
  function ConcludeListing(
      granularity: CgroupGranularity, response: Response, parsed: Option<seq<Name>>): (listing: Listing)
    ensures listing.Listed? <==>
            && response.Completed?
            && response.action.markers == []
            && response.action.status == ProcessOutcome.Finished(0)
            && parsed.Some?
    ensures listing.Listed? ==> Some(listing.tests) == parsed
    ensures listing.NotListed? ==>
              && (listing.status == Omitted <==> response.CancelledUnspecified?)
              && (listing.status == Fatal <==>
                  response.RpcError? || (response.Completed? && response.action.markers == []
                                         && response.action.status.Finished?))
              && (listing.status == Timeout <==>
                  && response.Completed?
                  && (if response.action.markers == [] then response.action.status.TimedOut?
                      else response.action.markers[0]
                           == if granularity == Action then ActionTimeout else LogicalTimeout(0)))
              && (listing.status == Fail <==>
                  && response.Completed?
                  && response.action.markers != []
                  && response.action.markers[0] == if granularity == Action then ActionOom else LogicalOom(0))
              && listing.status != Pass && listing.status != Skip
  {
    match response
    case RpcError => NotListed(Fatal)
    case CancelledQueueTimeout => NotListed(InfraFailure)
    case CancelledUnspecified => NotListed(Omitted)
    case MalformedResponse => NotListed(InfraFailure)
    case Completed(action) =>
      if action.markers != [] then NotListed(MarkerStatus(granularity, action.markers[0]))
      else
        match action.status
        case TimedOut => NotListed(Timeout)
        case Finished(exitCode) =>
          if exitCode == 0 && parsed.Some? then Listed(parsed.value) else NotListed(Fatal)
  }

  /** The listing read off the last of `requests` responses; only queue timeouts are asked again. */
  ghost predicate IsListing(
    granularity: CgroupGranularity, buck2: Oracle, parsed: nat -> Option<seq<Name>>, requests: nat, listing: Listing)
  {
    && 1 <= requests <= 3
    && (forall i :: 0 <= i < requests - 1 ==> Queued(buck2, i))
    && (Queued(buck2, requests - 1) ==> requests == 3)
    && listing == ConcludeListing(granularity, buck2(requests - 1), parsed(requests - 1))
  }

  method RunListing(granularity: CgroupGranularity, buck2: Oracle, parsed: nat -> Option<seq<Name>>)
    returns (listing: Listing, requests: nat)
    ensures IsListing(granularity, buck2, parsed, requests, listing)
  {
    var infraAttempt: nat := 0;
    while true
      invariant infraAttempt < INFRA_MAX_ATTEMPTS
      invariant forall i :: 0 <= i < infraAttempt ==> Queued(buck2, i)
      decreases INFRA_MAX_ATTEMPTS - infraAttempt
    {
      if Queued(buck2, infraAttempt) && infraAttempt + 1 < INFRA_MAX_ATTEMPTS {
        infraAttempt := infraAttempt + 1;
        continue;
      }
      requests := infraAttempt + 1;
      return ConcludeListing(granularity, buck2(infraAttempt), parsed(infraAttempt)), requests;
    }
  }

  // ---------------------------------------------------------------- memory overrides

  predicate OverrideFits(o: MemoryOverride, target: string, rustBig: bool, tests: seq<Name>) {
    o.target == target ==> rustBig && multiset(tests)[o.test] == 1
  }

  method CountMatches(tests: seq<Name>, name: Name) returns (count: nat)
    ensures count == multiset(tests)[name]
  {
    count := 0;
    for i := 0 to |tests|
      invariant count == multiset(tests[..i])[name]
    {
      assert tests[..i + 1] == tests[..i] + [tests[i]];
      if tests[i] == name {
        count := count + 1;
      }
    }
    assert tests[..|tests|] == tests;
  }

  /** Each override of the target names exactly one of its tests, and the target runs singletons. */
  method ValidateOverrides(overrides: seq<MemoryOverride>, target: string, rustBig: bool, tests: seq<Name>)
    returns (valid: bool)
    ensures valid <==> forall o :: o in overrides ==> OverrideFits(o, target, rustBig, tests)
  {
    valid := true;
    for i := 0 to |overrides|
      invariant valid
      invariant forall j :: 0 <= j < i ==> OverrideFits(overrides[j], target, rustBig, tests)
    {
      var o := overrides[i];
      if o.target == target {
        var matches := CountMatches(tests, o.test);
        if !rustBig || matches != 1 {
          assert !OverrideFits(o, target, rustBig, tests);
          return false;
        }
      }
    }
  }

  /** The overrides of the command line: each must parse, and none may repeat an earlier one's test. */
  method CollectOverrides(parsed: seq<Option<MemoryOverride>>) returns (overrides: Option<seq<MemoryOverride>>)
    ensures overrides.Some? ==>
              && |overrides.value| == |parsed|
              && (forall i :: 0 <= i < |parsed| ==> parsed[i] == Some(overrides.value[i]))
              && ActionTheorems.UniqueOverrides(overrides.value)
    ensures overrides.None? ==>
              || (exists i :: 0 <= i < |parsed| && parsed[i].None?)
              || (exists i, j :: 0 <= i < j < |parsed| && parsed[i].Some? && parsed[j].Some?
                    && ActionTheorems.Overrides(parsed[i].value, parsed[j].value.target, parsed[j].value.test))
  {
    var collected: seq<MemoryOverride> := [];
    for j := 0 to |parsed|
      invariant |collected| == j
      invariant forall i :: 0 <= i < j ==> parsed[i] == Some(collected[i])
      invariant ActionTheorems.UniqueOverrides(collected)
    {
      if parsed[j].None? {
        return None;
      }
      var next := parsed[j].value;
      for i := 0 to j
        invariant forall h :: 0 <= h < i ==> !ActionTheorems.Overrides(collected[h], next.target, next.test)
      {
        if ActionTheorems.Overrides(collected[i], next.target, next.test) {
          assert parsed[i].value == collected[i];
          return None;
        }
      }
      collected := collected + [next];
    }
    return Some(collected);
  }

  // ---------------------------------------------------------------- targets

  type RepeatCount = n: nat | 1 <= n witness 1

  datatype ListingStrategy =
    | WholeUnit(unit: Name)
    | PerTestListing(buck2: Oracle, parsed: nat -> Option<seq<Name>>)

  /**
   * One target of the run. Buck2's responses to the i-th spawned action are `worlds(i)`, and
   * `panics(i)` says that this action's task dies before it reports. The target's own task may die
   * too, when only the messages that `death` picks have been sent.
   */
  datatype Target =
    | Malformed(identity: Option<string>)
    | Untranslatable(display: string)
    | Runnable(
        cfg: Config,
        strategy: ListingStrategy,
        testType: string,
        labels: seq<string>,
        quarantined: bool,
        repeats: RepeatCount,
        nameAttributable: bool,
        worlds: nat -> World,
        panics: nat -> bool,
        death: Option<nat -> bool>)

  /** The one kind of target whose tests may have memory limits of their own. */
  predicate RustBig(target: Target)
    requires target.Runnable?
  {
    target.testType == "rust" && RUST_BIG in target.labels
  }

  datatype RunConfig = RunConfig(
    helpOnly: bool,
    usageError: bool,
    listOnly: bool,
    shard: Shard,
    configMode: BatchMode,
    overrides: seq<MemoryOverride>,
    hash: string -> nat,
    weightOf: (string, Name) -> nat,
    p50Of: (string, Name) -> nat)

  ghost predicate Consistent(run: RunConfig, target: Target) {
    && 1 <= run.shard.count
    && (target.Runnable? ==>
          && target.cfg.overrides == run.overrides
          && target.cfg.wholeTarget == target.strategy.WholeUnit?)
  }

  function PolicyOf(run: RunConfig, target: Target): BatchPolicy
    requires target.Runnable?
  {
    BatchPolicy(
      target.cfg.granularity, target.nameAttributable, TargetBatchMode(target.labels), run.configMode,
      run.shard.Sharded())
  }

  /** One spawned action and what it did. */
  datatype ActionRecord = ActionRecord(
      selection: Selection, repeatIndex: nat, log: ActionLog, finished: seq<FinishedTest>)

  function PlanOf(kept: seq<Name>, record: ActionRecord): Plan {
    Plan(MembersOf(record.selection, kept), record.selection, 0, map[], map[])
  }

  ghost predicate IsRecord(target: Target, kept: seq<Name>, i: nat, record: ActionRecord)
    requires target.Runnable?
  {
    && IsAction(target.cfg, PlanOf(kept, record), target.worlds(i), record.log)
    && ActionRunner.Reports(target.cfg, PlanOf(kept, record), record.log, record.repeatIndex, record.finished)
  }

  ghost predicate AreRecords(target: Target, kept: seq<Name>, records: seq<ActionRecord>)
    requires target.Runnable?
  {
    forall i :: 0 <= i < |records| ==> IsRecord(target, kept, i, records[i])
  }

  function Tagged(target: Target, finished: seq<FinishedTest>): seq<ReportedTest>
    requires target.Runnable?
  {
    seq(|finished|, i requires 0 <= i < |finished| => ReportedTest(target.cfg.target, finished[i], target.quarantined))
  }

  /** One action for every repeat index of every batch, in order. */
  ghost predicate SpawnedFor(records: seq<ActionRecord>, batches: seq<Selection>, repeats: nat)
    decreases |batches|
  {
    if batches == [] then records == []
    else
      var last, before := batches[|batches| - 1], |records| - repeats;
      && 0 <= before
      && SpawnedFor(records[..before], batches[..|batches| - 1], repeats)
      && forall k :: before <= k < |records| ==>
           records[k].selection == last && records[k].repeatIndex == k - before
  }

  /** The mode in which the target's tests are to be batched. */
  ghost predicate HasMode(run: RunConfig, target: Target, mode: BatchMode)
    requires target.Runnable?
  {
    if || target.cfg.granularity == LogicalTest
       || !target.nameAttributable
       || exists l :: l in target.labels && AsksForSingles(l)
    then mode == PerTest
    else mode == run.configMode
  }

  /** The actions are those of the target's batches in its mode, longest first. */
  ghost predicate RunsAsBatched(run: RunConfig, target: Target, kept: seq<Name>, records: seq<ActionRecord>)
    requires target.Runnable?
  {
    var weightOf := (n: Name) => run.weightOf(target.cfg.target, n);
    var p50Of := (n: Name) => run.p50Of(target.cfg.target, n);
    exists mode, batches ::
      && HasMode(run, target, mode)
      && BatchedAs(mode, run.shard.count > 1, batches, kept, weightOf, p50Of)
      && LongestFirst(batches, kept, weightOf)
      && SpawnedFor(records, batches, target.repeats)
  }

  lemma {:induction false} PolicyHasMode(
    run: RunConfig, target: Target, batches: seq<Selection>, kept: seq<Name>, weightOf: Name -> nat,
    p50Of: Name -> nat)
    returns (mode: BatchMode)
    requires target.Runnable?
    requires BatchedFor(PolicyOf(run, target), batches, kept, weightOf, p50Of)
    ensures HasMode(run, target, mode)
    ensures BatchedAs(mode, run.shard.count > 1, batches, kept, weightOf, p50Of)
  {
    hide BatchedAs, AsksForSingles, TargetBatchMode;
    LabelsDecide(target.labels);
    mode := EffectiveMode(PolicyOf(run, target));
  }

  /** How many of the results are for the name and the repeat index. */
  function CountIn(finished: seq<FinishedTest>, name: Name, repeatIndex: nat): nat {
    if finished == [] then 0
    else
      var last := finished[|finished| - 1];
      CountIn(finished[..|finished| - 1], name, repeatIndex)
      + (if last.name == name && last.repeatIndex == repeatIndex then 1 else 0)
  }

  function ReportCount(records: seq<ActionRecord>, name: Name, repeatIndex: nat): nat {
    if records == [] then 0
    else
      ReportCount(records[..|records| - 1], name, repeatIndex)
      + CountIn(records[|records| - 1].finished, name, repeatIndex)
  }

  /** The reported (name, repeat index) pairs are exactly the kept tests times the repeats. */
  ghost predicate ReportsEachRepeat(target: Target, kept: seq<Name>, records: seq<ActionRecord>)
    requires target.Runnable?
  {
    forall n: Name, r: nat ::
      ReportCount(records, n, r) == (if r < target.repeats then multiset(kept)[n] else 0)
  }

  predicate Dies(target: Target, i: nat)
    requires target.Runnable?
  {
    target.panics(i)
  }

  ghost predicate GreenRecord(target: Target, i: nat, record: ActionRecord)
    requires target.Runnable?
  {
    && !Dies(target, i)
    && forall t :: t in record.finished ==> Acceptable(t.outcome, target.quarantined)
  }

  ghost predicate GreenRecords(target: Target, records: seq<ActionRecord>)
    requires target.Runnable?
  {
    forall i :: 0 <= i < |records| ==> GreenRecord(target, i, records[i])
  }

  /** The one result that stands for a whole target that could not be run. */
  predicate FailsTarget(message: Message, display: string, quarantined: bool, status: TestVerdict) {
    && message.Finished?
    && |message.tests| == 1
    && var test := message.tests[0];
       && test.target == test.result.name == display
       && test.quarantined == quarantined
       && test.result.repeatIndex == 0 && test.result.observations == [] && test.result.history == []
       && test.result.outcome.status == status
       && test.result.outcome.integrity == MissingTerminalResult
  }

  /** No action's task dies. */
  ghost predicate Survives(target: Target, records: seq<ActionRecord>)
    requires target.Runnable?
  {
    forall i :: 0 <= i < |records| ==> !Dies(target, i)
  }

  /** A target-level failure is reported as incomplete, so not even quarantine can excuse it. */
  function TargetFailure(display: string, quarantined: bool, status: TestVerdict): (message: Message)
    ensures !Green(message)
    ensures FailsTarget(message, display, quarantined, status)
  {
    var failed := ReportedTest(
      display, FinishedTest(display, 0, BestObs(status, MissingTerminalResult, Unmeasured, None), [], []), quarantined);
    assert failed in [failed];
    Message.Finished([failed])
  }

  // ---------------------------------------------------------------- counting reports

  lemma {:induction false} CountNamed(
      finished: seq<FinishedTest>, order: seq<Name>, repeatIndex: nat, name: Name, r: nat)
    requires |finished| == |order|
    requires forall i :: 0 <= i < |order| ==> finished[i].name == order[i] && finished[i].repeatIndex == repeatIndex
    ensures CountIn(finished, name, r) == (if r == repeatIndex then multiset(order)[name] else 0)
  {
    if finished != [] {
      CountNamed(finished[..|finished| - 1], order[..|order| - 1], repeatIndex, name, r);
      assert order == order[..|order| - 1] + [order[|order| - 1]];
    }
  }

  /** Whatever was retried or isolated, an action reports each of its members once. */
  lemma {:induction false} ActionReportsMembers(
    cfg: Config, plan: Plan, log: ActionLog, repeatIndex: nat, finished: seq<FinishedTest>, name: Name, r: nat)
    requires ActionRunner.Reports(cfg, plan, log, repeatIndex, finished)
    ensures CountIn(finished, name, r) == (if r == repeatIndex then multiset(plan.members)[name] else 0)
  {
    hide ReportOrder, TrailAt, RecordAt;
    ActionTheorems.EveryMemberIsReported(cfg, plan, log.runs);
    CountNamed(finished, ReportOrder(cfg, plan, log.runs), repeatIndex, name, r);
  }

  lemma {:induction false} ReportCountPush(records: seq<ActionRecord>, record: ActionRecord, name: Name, r: nat)
    ensures ReportCount(records + [record], name, r)
            == ReportCount(records, name, r) + CountIn(record.finished, name, r)
  {
    hide CountIn;
    assert (records + [record])[..|records|] == records;
  }

  /** What the records report after whole batches, and `done` repeats of the next one. */
  ghost predicate ReportsSoFar(
    target: Target, kept: seq<Name>, records: seq<ActionRecord>, batches: seq<Selection>, members: seq<Name>, done: nat)
    requires target.Runnable?
  {
    forall n: Name, r: nat ::
      ReportCount(records, n, r)
      == (if r < target.repeats then Occurrences(batches, kept, n) else 0)
        + (if r < done then multiset(members)[n] else 0)
  }

  lemma {:induction false} NextRepeat(
    target: Target, kept: seq<Name>, records: seq<ActionRecord>, batches: seq<Selection>, record: ActionRecord)
    requires target.Runnable?
    requires ReportsSoFar(target, kept, records, batches, MembersOf(record.selection, kept), record.repeatIndex)
    requires ActionRunner.Reports(target.cfg, PlanOf(kept, record), record.log, record.repeatIndex, record.finished)
    ensures ReportsSoFar(
              target, kept, records + [record], batches, MembersOf(record.selection, kept), record.repeatIndex + 1)
  {
    hide ReportCount, Occurrences, MembersOf, ActionRunner.Reports, CountIn;
    forall n: Name, r: nat
      ensures ReportCount(records + [record], n, r)
              == (if r < target.repeats then Occurrences(batches, kept, n) else 0)
                 + (if r < record.repeatIndex + 1 then multiset(MembersOf(record.selection, kept))[n] else 0)
    {
      ReportCountPush(records, record, n, r);
      ActionReportsMembers(target.cfg, PlanOf(kept, record), record.log, record.repeatIndex, record.finished, n, r);
    }
  }

  lemma {:induction false} NextBatch(
    target: Target, kept: seq<Name>, records: seq<ActionRecord>, batches: seq<Selection>, batch: Selection)
    requires target.Runnable?
    requires ReportsSoFar(target, kept, records, batches, MembersOf(batch, kept), target.repeats)
    ensures forall members: seq<Name> :: ReportsSoFar(target, kept, records, batches + [batch], members, 0)
  {
    hide ReportCount, Occurrences, MembersOf;
    forall n: Name, r: nat
      ensures ReportCount(records, n, r) == if r < target.repeats then Occurrences(batches + [batch], kept, n) else 0
    {
      OccurrencesPush(batches, batch, kept, n);
    }
  }

  // ---------------------------------------------------------------- fan-out

  /** No attempt has been recorded for any name before a fresh action. */
  lemma {:induction false} FreshTracks(cfg: Config, plan: Plan)
    requires plan.Fresh()
    ensures ActionRunner.Tracks(ActionRunner.ActionState(map[], map[], map[]), cfg, plan, [])
  {
    forall n: Name
      ensures Trail(cfg, plan, [], n) == [] && Recorded(cfg, plan, [], n) == []
    {
    }
  }

  method RunAction(target: Target, kept: seq<Name>, i: nat, selection: Selection, members: seq<Name>, repeatIndex: nat)
    returns (record: ActionRecord)
    requires target.Runnable?
    requires members == MembersOf(selection, kept)
    ensures IsRecord(target, kept, i, record)
    ensures record.selection == selection && record.repeatIndex == repeatIndex
  {
    hide IsAction, ActionRunner.Reports, ActionRunner.Tracks;
    FreshTracks(target.cfg, Plan(members, selection, 0, map[], map[]));
    var finished, log := ActionRunner.ExecuteTestAction(
      target.cfg, target.worlds(i), selection, members, repeatIndex, 0,
      ActionRunner.ActionState(map[], map[], map[]), map[], map[]);
    record := ActionRecord(selection, repeatIndex, log, finished);
  }

  lemma {:induction false} TaggedIsGreen(target: Target, i: nat, record: ActionRecord)
    requires target.Runnable? && !Dies(target, i)
    ensures Green(Message.Finished(Tagged(target, record.finished))) <==> GreenRecord(target, i, record)
  {
    var tests := Tagged(target, record.finished);
    forall k | 0 <= k < |record.finished|
      ensures GreenTest(tests[k]) <==> Acceptable(record.finished[k].outcome, target.quarantined)
    {
    }
    if Green(Message.Finished(tests)) {
      forall t | t in record.finished
        ensures Acceptable(t.outcome, target.quarantined)
      {
        var k :| 0 <= k < |record.finished| && record.finished[k] == t;
        assert tests[k] in tests;
      }
    }
  }

  lemma {:induction false} GreenRecordsPush(target: Target, records: seq<ActionRecord>, record: ActionRecord)
    requires target.Runnable?
    ensures GreenRecords(target, records + [record]) <==>
            GreenRecords(target, records) && GreenRecord(target, |records|, record)
  {
    hide GreenRecord;
    var grown := records + [record];
    assert grown[|records|] == record;
    assert forall i :: 0 <= i < |records| ==> grown[i] == records[i];
  }

  /** Every result of the records, as the reporter gets to see it. */
  function AllTagged(target: Target, records: seq<ActionRecord>): seq<ReportedTest>
    requires target.Runnable?
  {
    if records == [] then []
    else AllTagged(target, records[..|records| - 1]) + Tagged(target, records[|records| - 1].finished)
  }

  lemma {:induction false} AllTaggedPush(target: Target, records: seq<ActionRecord>, record: ActionRecord)
    requires target.Runnable?
    ensures AllTagged(target, records + [record]) == AllTagged(target, records) + Tagged(target, record.finished)
  {
    hide Tagged;
    assert (records + [record])[..|records|] == records;
  }

  lemma {:induction false} TestsPush(messages: seq<Message>, message: Message)
    ensures TestsOf(messages + [message]) == TestsOf(messages) + (if message.Finished? then message.tests else [])
  {
    assert (messages + [message])[..|messages|] == messages;
  }

  /** What has been sent while every spawned action so far has run. */
  ghost predicate FannedOut(
      target: Target, kept: seq<Name>, records: seq<ActionRecord>, panicked: bool, messages: seq<Message>)
    requires target.Runnable?
  {
    && AreRecords(target, kept, records)
    && (GreenRecords(target, records) <==> !panicked && AllGreen(messages))
    && (!panicked ==> TestsOf(messages) == AllTagged(target, records))
    && (panicked <==> !Survives(target, records))
  }

  lemma {:induction false} FanOutOne(
    target: Target, kept: seq<Name>, records: seq<ActionRecord>, panicked: bool, messages: seq<Message>,
    record: ActionRecord)
    requires target.Runnable?
    requires FannedOut(target, kept, records, panicked, messages)
    requires IsRecord(target, kept, |records|, record)
    ensures Dies(target, |records|) ==> FannedOut(target, kept, records + [record], true, messages)
    ensures !Dies(target, |records|) ==>
              FannedOut(
                target, kept, records + [record], panicked,
                messages + [Message.Finished(Tagged(target, record.finished))])
  {
    hide IsRecord, Green, AllGreen, Tagged, GreenRecords, TestsOf, AllTagged;
    GreenRecordsPush(target, records, record);
    AllTaggedPush(target, records, record);
    if !Dies(target, |records|) {
      TaggedIsGreen(target, |records|, record);
      GreenPush(messages, Message.Finished(Tagged(target, record.finished)));
      TestsPush(messages, Message.Finished(Tagged(target, record.finished)));
    }
  }

  /** Nothing but results has been sent since. */
  ghost predicate OnlyResultsSince(before: seq<Message>, messages: seq<Message>) {
    before <= messages && forall k :: |before| <= k < |messages| ==> messages[k].Finished?
  }

  /** Run the batch once for every repeat index. */
  method RunRepeats(
    target: Target, kept: seq<Name>, batch: Selection, recordsBefore: seq<ActionRecord>, panickedBefore: bool,
    messagesBefore: seq<Message>, ghost batches: seq<Selection>)
    returns (records: seq<ActionRecord>, panicked: bool, messages: seq<Message>)
    requires target.Runnable?
    requires FannedOut(target, kept, recordsBefore, panickedBefore, messagesBefore)
    requires ReportsSoFar(target, kept, recordsBefore, batches, MembersOf(batch, kept), 0)
    requires SpawnedFor(recordsBefore, batches, target.repeats)
    ensures SpawnedFor(records, batches + [batch], target.repeats)
    ensures FannedOut(target, kept, records, panicked, messages)
    ensures ReportsSoFar(target, kept, records, batches, MembersOf(batch, kept), target.repeats)
    ensures OnlyResultsSince(messagesBefore, messages)
  {
    hide FannedOut, ReportsSoFar, IsAction, ActionRunner.Reports, SpawnedFor;
    records, panicked, messages := recordsBefore, panickedBefore, messagesBefore;
    var expectedMembers := MembersOf(batch, kept);
    for repeatIndex := 0 to target.repeats
      invariant FannedOut(target, kept, records, panicked, messages)
      invariant ReportsSoFar(target, kept, records, batches, expectedMembers, repeatIndex)
      invariant OnlyResultsSince(messagesBefore, messages)
      invariant |records| == |recordsBefore| + repeatIndex && records[..|recordsBefore|] == recordsBefore
      invariant forall k :: |recordsBefore| <= k < |records| ==>
                  records[k].selection == batch && records[k].repeatIndex == k - |recordsBefore|
    {
      var record := RunAction(target, kept, |records|, batch, expectedMembers, repeatIndex);
      FanOutOne(target, kept, records, panicked, messages, record);
      NextRepeat(target, kept, records, batches, record);
      if Dies(target, |records|) {
        panicked := true;
      } else {
        messages := messages + [Message.Finished(Tagged(target, record.finished))];
      }
      records := records + [record];
    }
    SpawnedPush(recordsBefore, records, batches, batch, target.repeats);
  }

  lemma {:induction false} SpawnedPush(
    before: seq<ActionRecord>, records: seq<ActionRecord>, batches: seq<Selection>, batch: Selection, repeats: nat)
    requires SpawnedFor(before, batches, repeats)
    requires |records| == |before| + repeats && records[..|before|] == before
    requires forall k :: |before| <= k < |records| ==>
               records[k].selection == batch && records[k].repeatIndex == k - |before|
    ensures SpawnedFor(records, batches + [batch], repeats)
  {
    assert (batches + [batch])[..|batches|] == batches;
  }

  lemma {:induction false} SpawnedIn(records: seq<ActionRecord>, batches: seq<Selection>, repeats: nat, k: nat)
    requires SpawnedFor(records, batches, repeats) && k < |records|
    ensures records[k].selection in batches && records[k].repeatIndex < repeats
    decreases |batches|
  {
    if batches != [] {
      var before := |records| - repeats;
      if k < before {
        SpawnedIn(records[..before], batches[..|batches| - 1], repeats, k);
      }
    }
  }

  /**
   * Spawn one action for every batch and repeat. Together the actions report every kept test once
   * for each repeat index, and the messages are green exactly when no task died and every reported
   * outcome is acceptable.
   */
  method FanOut(target: Target, kept: seq<Name>, batches: seq<Selection>, before: seq<Message>)
    returns (records: seq<ActionRecord>, messages: seq<Message>)
    requires target.Runnable?
    requires RunsEachOnce(batches, kept)
    requires AllGreen(before) && TestsOf(before) == []
    ensures AreRecords(target, kept, records)
    ensures Survives(target, records) ==> TestsOf(messages) == AllTagged(target, records)
    ensures ReportsEachRepeat(target, kept, records)
    ensures AllGreen(messages) <==> GreenRecords(target, records)
    ensures OnlyResultsSince(before, messages)
    ensures SpawnedFor(records, batches, target.repeats)
    ensures !Survives(target, records) ==>
              messages != [] && FailsTarget(messages[|messages| - 1], target.cfg.target, target.quarantined, Fatal)
  {
    hide FannedOut, ReportsSoFar, IsRecord, RunsEachOnce, AllGreen, SpawnedFor;
    hide GreenRecords, Green, ReportsEachRepeat, TestsOf, AllTagged;
    records, messages := [], before;
    var panicked := false;
    NothingFannedOut(target, kept, messages);
    NothingSpawned(target.repeats);
    for i := 0 to |batches|
      invariant FannedOut(target, kept, records, panicked, messages)
      invariant forall members: seq<Name> :: ReportsSoFar(target, kept, records, batches[..i], members, 0)
      invariant OnlyResultsSince(before, messages)
      invariant SpawnedFor(records, batches[..i], target.repeats)
    {
      records, panicked, messages := RunRepeats(target, kept, batches[i], records, panicked, messages, batches[..i]);
      NextBatch(target, kept, records, batches[..i], batches[i]);
      assert batches[..i + 1] == batches[..i] + [batches[i]];
    }
    assert batches[..|batches|] == batches;
    AllReported(target, kept, records, batches);
    FannedOutIs(target, kept, records, panicked, messages);
    if panicked {
      var failure := TargetFailure(target.cfg.target, target.quarantined, Fatal);
      GreenPush(messages, failure);
      messages := messages + [failure];
    }
  }

  lemma {:induction false} NothingSpawned(repeats: nat)
    ensures SpawnedFor([], [], repeats)
  {
  }

  lemma {:induction false} FannedOutIs(
    target: Target, kept: seq<Name>, records: seq<ActionRecord>, panicked: bool, messages: seq<Message>)
    requires target.Runnable?
    requires FannedOut(target, kept, records, panicked, messages)
    ensures AreRecords(target, kept, records)
    ensures GreenRecords(target, records) <==> !panicked && AllGreen(messages)
    ensures Survives(target, records) ==> TestsOf(messages) == AllTagged(target, records)
    ensures panicked <==> !Survives(target, records)
  {
  }

  lemma {:induction false} NothingFannedOut(target: Target, kept: seq<Name>, messages: seq<Message>)
    requires target.Runnable?
    requires AllGreen(messages) && TestsOf(messages) == []
    ensures FannedOut(target, kept, [], false, messages)
    ensures forall members: seq<Name> :: ReportsSoFar(target, kept, [], [], members, 0)
  {
  }

  lemma {:induction false} AllReported(
      target: Target, kept: seq<Name>, records: seq<ActionRecord>, batches: seq<Selection>)
    requires target.Runnable?
    requires RunsEachOnce(batches, kept)
    requires ReportsSoFar(target, kept, records, batches, [], 0)
    ensures ReportsEachRepeat(target, kept, records)
  {
    hide ReportCount, Occurrences;
  }

  // ---------------------------------------------------------------- one target

  /** What a target's task found and did; `records` is empty when nothing was spawned. */
  datatype TargetLog = TargetLog(listing: Listing, kept: seq<Name>, records: seq<ActionRecord>)

  ghost predicate OverridesFit(run: RunConfig, target: Target, tests: seq<Name>)
    requires target.Runnable?
  {
    forall o :: o in run.overrides && o.target == target.cfg.target ==>
      target.testType == "rust" && "rust:big" in target.labels && multiset(tests)[o.test] == 1
  }

  /** The target was listed and validated, so its kept tests are due. */
  ghost predicate Reached(run: RunConfig, target: Target, log: TargetLog) {
    && target.Runnable?
    && log.listing.Listed?
    && OverridesFit(run, target, log.listing.tests)
  }

  ghost predicate IsTargetLog(run: RunConfig, target: Target, log: TargetLog)
    requires 1 <= run.shard.count
  {
    target.Runnable? ==>
      && (match target.strategy
          case WholeUnit(unit) => log.listing == Listed([unit])
          case PerTestListing(buck2, parsed) =>
            exists requests :: IsListing(target.cfg.granularity, buck2, parsed, requests, log.listing))
      && (Reached(run, target, log) ==>
            && log.kept == ShardFilter(run.hash, target.cfg.target, run.shard, log.listing.tests)
            && AreRecords(target, log.kept, log.records)
            && (!run.listOnly ==> ReportsEachRepeat(target, log.kept, log.records))
            && (!run.listOnly && log.kept != [] ==> RunsAsBatched(run, target, log.kept, log.records)))
      && (run.listOnly || !Reached(run, target, log) || log.kept == [] ==> log.records == [])
  }

  /** The target has a valid listing, and its task does not die. */
  ghost predicate Lists(run: RunConfig, target: Target, log: TargetLog) {
    Reached(run, target, log) && target.death.None?
  }

  /** Neither does the task of any of its actions. */
  ghost predicate Alive(run: RunConfig, target: Target, log: TargetLog) {
    Lists(run, target, log) && Survives(target, log.records)
  }

  ghost predicate GreenTarget(run: RunConfig, target: Target, log: TargetLog) {
    && Reached(run, target, log)
    && target.death.None?
    && GreenRecords(target, log.records)
  }

  method ListTests(target: Target) returns (listing: Listing)
    requires target.Runnable?
    ensures match target.strategy
            case WholeUnit(unit) => listing == Listed([unit])
            case PerTestListing(buck2, parsed) =>
              exists requests :: IsListing(target.cfg.granularity, buck2, parsed, requests, listing)
  {
    match target.strategy {
      case WholeUnit(unit) => listing := Listed([unit]);
      case PerTestListing(buck2, parsed) =>
        var requests;
        listing, requests := RunListing(target.cfg.granularity, buck2, parsed);
    }
  }

  /** A target that has something to run announces all its tests first. */
  ghost predicate Announces(run: RunConfig, target: Target, log: TargetLog, messages: seq<Message>) {
    Reached(run, target, log) && log.kept != [] ==>
      messages != [] && messages[0] == Discovered(target.cfg.target, log.listing.tests)
  }

  /** Announce the tests, and unless only a listing is wanted run those that are kept. */
  method RunKept(run: RunConfig, target: Target, tests: seq<Name>, kept: seq<Name>)
    returns (messages: seq<Message>, records: seq<ActionRecord>)
    requires target.Runnable?
    ensures AreRecords(target, kept, records)
    ensures run.listOnly ==> records == []
    ensures !run.listOnly ==> ReportsEachRepeat(target, kept, records) && RunsAsBatched(run, target, kept, records)
    ensures AllGreen(messages) <==> GreenRecords(target, records)
    ensures Survives(target, records) ==> TestsOf(messages) == AllTagged(target, records)
    ensures OnlyResultsSince([Discovered(target.cfg.target, tests)], messages)
  {
    hide GreenRecords, AreRecords, ReportsEachRepeat, RunsEachOnce, BatchedFor, BatchedAs, HasMode, SpawnedFor;
    hide LongestFirst, PolicyOf;
    var display := target.cfg.target;
    messages, records := [Discovered(display, tests)], [];
    NothingRun(target, kept);
    if run.listOnly {
      return;
    }
    var policy := PolicyOf(run, target);
    var weightOf := (n: Name) => run.weightOf(target.cfg.target, n);
    var p50Of := (n: Name) => run.p50Of(target.cfg.target, n);
    var batches := BuildBatches(policy, kept, weightOf, p50Of);
    ghost var mode := PolicyHasMode(run, target, batches, kept, weightOf, p50Of);
    records, messages := FanOut(target, kept, batches, messages);
  }

  /** The work of a target's task when nothing in it dies half-way. */
  method RunListedTarget(run: RunConfig, target: Target) returns (messages: seq<Message>, log: TargetLog)
    requires Consistent(run, target) && target.Runnable?
    ensures IsTargetLog(run, target, log)
    ensures AllGreen(messages) <==> Reached(run, target, log) && GreenRecords(target, log.records)
    ensures Reached(run, target, log) && Survives(target, log.records) ==>
              TestsOf(messages) == AllTagged(target, log.records)
    ensures DiscoversFirst(messages) && Announces(run, target, log, messages)
    ensures !Reached(run, target, log) ==>
              && |messages| == 1
              && FailsTarget(
                   messages[0], target.cfg.target, target.quarantined,
                   if log.listing.NotListed? then log.listing.status else Fatal)
  {
    hide IsListing, GreenRecords, AreRecords, ReportsEachRepeat, RunsAsBatched, AllTagged;
    var display := target.cfg.target;
    var listing := ListTests(target);
    if listing.NotListed? {
      return [TargetFailure(display, target.quarantined, listing.status)], TargetLog(listing, [], []);
    }
    var valid := ValidateOverrides(run.overrides, display, RustBig(target), listing.tests);
    if !valid {
      return [TargetFailure(display, target.quarantined, Fatal)], TargetLog(listing, [], []);
    }
    var kept := ShardFilter(run.hash, display, run.shard, listing.tests);
    if kept == [] {
      NothingRun(target, kept);
      NothingTagged(run, target);
      return [], TargetLog(listing, kept, []);
    }
    var records;
    messages, records := RunKept(run, target, listing.tests, kept);
    log := TargetLog(listing, kept, records);
  }

  lemma {:induction false} NothingTagged(run: RunConfig, target: Target)
    requires target.Runnable?
    ensures AllTagged(target, []) == []
  {
  }

  lemma {:induction false} NothingRun(target: Target, kept: seq<Name>)
    requires target.Runnable?
    ensures AreRecords(target, kept, []) && GreenRecords(target, [])
    ensures kept == [] ==> ReportsEachRepeat(target, kept, [])
  {
  }

  function Surviving(messages: seq<Message>, sent: nat -> bool): seq<Message> {
    if messages == [] then []
    else
      var last := |messages| - 1;
      Surviving(messages[..last], sent) + (if sent(last) then [messages[last]] else [])
  }

  lemma {:induction false} SurvivingDiscoversFirst(messages: seq<Message>, sent: nat -> bool)
    requires DiscoversFirst(messages)
    ensures DiscoversFirst(Surviving(messages, sent))
  {
    if messages != [] {
      SurvivingDiscoversFirst(messages[..|messages| - 1], sent);
    }
  }

  /** A target's task, including what it reports for itself when it dies. */
  method RunTarget(run: RunConfig, target: Target) returns (messages: seq<Message>, log: TargetLog)
    requires Consistent(run, target)
    ensures IsTargetLog(run, target, log)
    ensures AllGreen(messages) <==> GreenTarget(run, target, log)
    ensures Alive(run, target, log) ==> TestsOf(messages) == AllTagged(target, log.records)
    ensures DiscoversFirst(messages)
    ensures GreenTarget(run, target, log) ==> Announces(run, target, log, messages)
    ensures target.Malformed? ==> messages == [TargetDropped]
    ensures target.Untranslatable? ==> |messages| == 1 && FailsTarget(messages[0], target.display, false, Fatal)
    ensures target.Runnable? && target.death.Some? ==>
              messages != [] && FailsTarget(messages[|messages| - 1], target.cfg.target, false, Fatal)
  {
    hide GreenRecords, Green;
    log := TargetLog(NotListed(Fatal), [], []);
    match target {
      case Malformed(_) =>
        messages := [TargetDropped];
        assert !Green(TargetDropped) by { DroppedIsNotGreen(); }
        NotGreen(messages, TargetDropped);
      case Untranslatable(display) =>
        messages := [TargetFailure(display, false, Fatal)];
        NotGreen(messages, messages[0]);
      case Runnable(cfg, _, _, _, _, _, _, _, _, death) =>
        hide IsTargetLog, Reached, AllGreen, Announces;
        messages, log := RunListedTarget(run, target);
        if death.Some? {
          var sent := Surviving(messages, death.value);
          SurvivingDiscoversFirst(messages, death.value);
          var failure := TargetFailure(cfg.target, false, Fatal);
          GreenPush(sent, failure);
          messages := sent + [failure];
        }
    }
  }

  lemma {:induction false} DroppedIsNotGreen()
    ensures !Green(TargetDropped)
  {
  }

  lemma {:induction false} NotGreen(messages: seq<Message>, message: Message)
    requires message in messages && !Green(message)
    ensures !AllGreen(messages)
  {
  }

  // ---------------------------------------------------------------- the whole run

  function IdentityOf(target: Target): Option<string> {
    match target
    case Malformed(identity) => identity
    case Untranslatable(display) => Some(display)
    case Runnable(cfg, _, _, _, _, _, _, _, _, _) => Some(cfg.target)
  }

  ghost predicate ReceivedAs(targets: seq<Target>, display: string) {
    exists i :: 0 <= i < |targets| && IdentityOf(targets[i]) == Some(display)
  }

  ghost predicate OverridesReceived(run: RunConfig, targets: seq<Target>) {
    forall o :: o in run.overrides ==> ReceivedAs(targets, o.target)
  }

  /** The targets that a memory override names but that never arrived, each once. */
  method MissingOverrideTargets(overrides: seq<MemoryOverride>, received: set<string>) returns (missing: seq<string>)
    ensures Distinct(missing)
    ensures forall o :: o in overrides && o.target !in received ==> o.target in missing
    ensures forall t :: t in missing ==> t !in received && exists o :: o in overrides && o.target == t
  {
    missing := [];
    for i := 0 to |overrides|
      invariant Distinct(missing)
      invariant forall j :: 0 <= j < i && overrides[j].target !in received ==> overrides[j].target in missing
      invariant forall t :: t in missing ==> t !in received && exists o :: o in overrides && o.target == t
    {
      if overrides[i].target !in received && overrides[i].target !in missing {
        missing := missing + [overrides[i].target];
      }
    }
  }

  ghost predicate AreTargetLogs(run: RunConfig, targets: seq<Target>, logs: seq<TargetLog>)
    requires 1 <= run.shard.count
  {
    |logs| == |targets| && forall i :: 0 <= i < |logs| ==> IsTargetLog(run, targets[i], logs[i])
  }

  ghost predicate AllAlive(run: RunConfig, targets: seq<Target>, logs: seq<TargetLog>) {
    |logs| == |targets| && forall i :: 0 <= i < |logs| ==> Alive(run, targets[i], logs[i])
  }

  lemma {:induction false} GreenIsAlive(run: RunConfig, targets: seq<Target>, logs: seq<TargetLog>)
    requires GreenTargets(run, targets, logs)
    ensures AllAlive(run, targets, logs)
  {
    hide OverridesFit, GreenRecords, Survives;
    forall i | 0 <= i < |logs|
      ensures Alive(run, targets[i], logs[i])
    {
      assert GreenTarget(run, targets[i], logs[i]);
      RecordsSurvive(targets[i], logs[i].records);
    }
  }

  lemma {:induction false} RecordsSurvive(target: Target, records: seq<ActionRecord>)
    requires target.Runnable?
    ensures GreenRecords(target, records) ==> Survives(target, records)
  {
    if GreenRecords(target, records) {
      forall i | 0 <= i < |records|
        ensures !Dies(target, i)
      {
        assert GreenRecord(target, i, records[i]);
      }
    }
  }

  ghost predicate GreenTargets(run: RunConfig, targets: seq<Target>, logs: seq<TargetLog>) {
    |logs| == |targets| && forall i :: 0 <= i < |logs| ==> GreenTarget(run, targets[i], logs[i])
  }

  /** Every result of every action of every target. */
  function DueResults(targets: seq<Target>, logs: seq<TargetLog>): seq<ReportedTest>
    requires |targets| == |logs|
  {
    if logs == [] then []
    else
      var last := |logs| - 1;
      DueResults(targets[..last], logs[..last])
      + (if targets[last].Runnable? then AllTagged(targets[last], logs[last].records) else [])
  }

  lemma {:induction false} DueResultsPush(targets: seq<Target>, logs: seq<TargetLog>, target: Target, log: TargetLog)
    requires |targets| == |logs|
    ensures DueResults(targets + [target], logs + [log])
            == DueResults(targets, logs) + (if target.Runnable? then AllTagged(target, log.records) else [])
  {
    hide AllTagged;
    assert (targets + [target])[..|logs|] == targets && (logs + [log])[..|logs|] == logs;
  }

  lemma {:induction false} AllGreenAppend(a: seq<Message>, b: seq<Message>)
    ensures AllGreen(a + b) <==> AllGreen(a) && AllGreen(b)
  {
    hide Green;
    forall m
      ensures m in a + b <==> m in a || m in b
    {
    }
  }

  lemma {:induction false} TestsAppend(a: seq<Message>, b: seq<Message>)
    ensures TestsOf(a + b) == TestsOf(a) + TestsOf(b)
  {
    if b == [] {
      assert a + b == a;
    } else {
      var rest, last := b[..|b| - 1], b[|b| - 1];
      TestsAppend(a, rest);
      assert a + b == (a + rest) + [last];
      TestsPush(a + rest, last);
    }
  }

  lemma {:induction false} TestsWithout(messages: seq<Message>, k: nat)
    requires k < |messages|
    ensures multiset(TestsOf(messages))
            == multiset(TestsOf(messages[..k] + messages[k + 1..]))
               + multiset(if messages[k].Finished? then messages[k].tests else [])
  {
    hide TestsOf;
    assert messages == (messages[..k] + [messages[k]]) + messages[k + 1..];
    TestsAppend(messages[..k] + [messages[k]], messages[k + 1..]);
    TestsPush(messages[..k], messages[k]);
    TestsAppend(messages[..k], messages[k + 1..]);
  }

  lemma {:induction false} ReorderedTests(a: seq<Message>, b: seq<Message>)
    requires multiset(a) == multiset(b)
    ensures multiset(TestsOf(a)) == multiset(TestsOf(b))
    decreases |a|
  {
    hide TestsOf;
    if a == [] {
      assert |b| == |multiset(b)| == 0;
      assert a == b;
    } else {
      var last, rest := a[|a| - 1], a[..|a| - 1];
      assert a == rest + [last];
      var k := RemoveAt(b, last);
      ReorderedTests(rest, b[..k] + b[k + 1..]);
      TestsPush(rest, last);
      TestsWithout(b, k);
    }
  }

  lemma {:induction false} ReorderedGreen(a: seq<Message>, b: seq<Message>)
    requires multiset(a) == multiset(b)
    ensures AllGreen(a) <==> AllGreen(b)
  {
    hide Green;
    SameElements(a, b);
  }

  /** What the targets whose specs have arrived so far have sent. */
  ghost predicate TargetsRun(run: RunConfig, targets: seq<Target>, logs: seq<TargetLog>, messages: seq<Message>)
    requires 1 <= run.shard.count
  {
    && AreTargetLogs(run, targets, logs)
    && (AllGreen(messages) <==> GreenTargets(run, targets, logs))
    && (AllAlive(run, targets, logs) ==> TestsOf(messages) == DueResults(targets, logs))
  }

  /** Each green target that has something to run has announced its tests. */
  ghost predicate Announced(run: RunConfig, targets: seq<Target>, logs: seq<TargetLog>, sent: seq<Envelope>) {
    && |targets| == |logs|
    && forall i :: 0 <= i < |logs| && GreenTarget(run, targets[i], logs[i]) && logs[i].kept != [] ==>
         Envelope(i, 0, Discovered(targets[i].cfg.target, logs[i].listing.tests)) in sent
  }

  lemma {:induction false} NextTarget(
    run: RunConfig, targets: seq<Target>, logs: seq<TargetLog>, messages: seq<Message>,
    target: Target, log: TargetLog, sent: seq<Message>)
    requires 1 <= run.shard.count
    requires TargetsRun(run, targets, logs, messages)
    requires IsTargetLog(run, target, log)
    requires AllGreen(sent) <==> GreenTarget(run, target, log)
    requires Alive(run, target, log) ==> TestsOf(sent) == AllTagged(target, log.records)
    ensures TargetsRun(run, targets + [target], logs + [log], messages + sent)
  {
    hide IsTargetLog, AllGreen, GreenRecords, AllTagged, TestsOf, DueResults, OverridesFit, Survives;
    AllGreenAppend(messages, sent);
    TestsAppend(messages, sent);
    DueResultsPush(targets, logs, target, log);
    var grown := logs + [log];
    assert grown[|logs|] == log && (targets + [target])[|logs|] == target;
    assert forall i :: 0 <= i < |logs| ==> grown[i] == logs[i] && (targets + [target])[i] == targets[i];
  }

  lemma {:induction false} NextAnnounced(
    run: RunConfig, targets: seq<Target>, logs: seq<TargetLog>, sent: seq<Envelope>,
    target: Target, log: TargetLog, messages: seq<Message>)
    requires Announced(run, targets, logs, sent) && WellNumbered(sent, |targets|)
    requires DiscoversFirst(messages)
    requires GreenTarget(run, target, log) ==> Announces(run, target, log, messages)
    ensures Announced(run, targets + [target], logs + [log], sent + Enveloped(|targets|, messages))
    ensures WellNumbered(sent + Enveloped(|targets|, messages), |targets| + 1)
  {
    hide GreenRecords, OverridesFit, WellNumbered, DiscoversFirst;
    NextSender(sent, |targets|, messages);
  }

  method RunTargets(
      run: RunConfig, targets: seq<Target>)
    returns (sent: seq<Envelope>, logs: seq<TargetLog>, received: set<string>)
    requires 1 <= run.shard.count
    requires forall target :: target in targets ==> Consistent(run, target)
    ensures TargetsRun(run, targets, logs, MessagesOf(sent))
    ensures Announced(run, targets, logs, sent) && WellNumbered(sent, |targets|)
    ensures forall display :: display in received <==> ReceivedAs(targets, display)
  {
    hide IsTargetLog, GreenTarget, AllGreen, Consistent, TargetsRun, ReceivedAs, Announced, WellNumbered, MessagesOf;
    hide Announces, DiscoversFirst;
    sent, logs, received := [], [], {};
    NoTargets(run);
    for i := 0 to |targets|
      invariant TargetsRun(run, targets[..i], logs, MessagesOf(sent))
      invariant Announced(run, targets[..i], logs, sent) && WellNumbered(sent, i)
      invariant forall display :: display in received <==> ReceivedAs(targets[..i], display)
    {
      var target := targets[i];
      assert targets[..i + 1] == targets[..i] + [target];
      ReceivedPush(targets[..i], target);
      if IdentityOf(target).Some? {
        received := received + {IdentityOf(target).value};
      }
      var messages, log := RunTarget(run, target);
      NextTarget(run, targets[..i], logs, MessagesOf(sent), target, log, messages);
      NextAnnounced(run, targets[..i], logs, sent, target, log, messages);
      OpenedAppend(sent, i, messages);
      sent, logs := sent + Enveloped(i, messages), logs + [log];
    }
    assert targets[..|targets|] == targets;
  }

  lemma {:induction false} NoTargets(run: RunConfig)
    requires 1 <= run.shard.count
    ensures MessagesOf([]) == [] && TargetsRun(run, [], [], [])
    ensures Announced(run, [], [], []) && WellNumbered([], 0)
    ensures forall display :: !ReceivedAs([], display)
  {
  }

  lemma {:induction false} ReceivedPush(targets: seq<Target>, target: Target)
    ensures forall display :: ReceivedAs(targets + [target], display)
                              <==> ReceivedAs(targets, display) || IdentityOf(target) == Some(display)
  {
    hide IdentityOf;
    forall display
      ensures ReceivedAs(targets + [target], display)
              <==> ReceivedAs(targets, display) || IdentityOf(target) == Some(display)
    {
      var grown := targets + [target];
      assert grown[|targets|] == target;
      assert forall i :: 0 <= i < |targets| ==> grown[i] == targets[i];
    }
  }

  lemma {:induction false} DropsAreNotGreen(messages: seq<Message>, count: nat)
    ensures AllGreen(messages + seq(count, _ => TargetDropped)) <==> AllGreen(messages) && count == 0
  {
    var drops := seq(count, _ => TargetDropped);
    AllGreenAppend(messages, drops);
    if count > 0 {
      assert drops[0] in drops;
      DroppedIsNotGreen();
    }
  }

  lemma {:induction false} DropsHaveNoTests(messages: seq<Message>, count: nat)
    ensures TestsOf(messages + seq(count, _ => TargetDropped)) == TestsOf(messages)
  {
    var drops := seq(count, _ => TargetDropped);
    if count == 0 {
      assert messages + drops == messages;
    } else {
      var fewer := seq(count - 1, _ => TargetDropped);
      DropsHaveNoTests(messages, count - 1);
      assert messages + drops == (messages + fewer) + [TargetDropped];
      TestsPush(messages + fewer, TargetDropped);
    }
  }

  /** What the exit code of a run that got as far as its targets says. */
  ghost predicate ExitsGreen(
    run: RunConfig, targets: seq<Target>, logs: seq<TargetLog>, accepts: nat -> bool,
    taskDies: bool, reporterDies: bool, written: seq<ReportedTest>)
  {
    && !taskDies
    && !reporterDies
    && OverridesReceived(run, targets)
    && GreenTargets(run, targets, logs)
    && AllAccepted(accepts, |written|)
  }

  ghost predicate AllListed(run: RunConfig, targets: seq<Target>, logs: seq<TargetLog>) {
    |logs| == |targets| && forall i :: 0 <= i < |logs| ==> Lists(run, targets[i], logs[i])
  }

  /** Nothing is run just to list the tests. */
  lemma {:induction false} ListingRunsNothing(run: RunConfig, targets: seq<Target>, logs: seq<TargetLog>)
    requires 1 <= run.shard.count && run.listOnly
    requires AreTargetLogs(run, targets, logs)
    ensures forall i :: 0 <= i < |logs| && targets[i].Runnable? ==> logs[i].records == []
    ensures DueResults(targets, logs) == []
    ensures GreenTargets(run, targets, logs) <==> AllListed(run, targets, logs)
  {
    hide IsListing, OverridesFit;
    forall i | 0 <= i < |logs| && targets[i].Runnable?
      ensures logs[i].records == []
    {
      assert IsTargetLog(run, targets[i], logs[i]);
    }
    NothingIsDue(targets, logs);
    forall i | 0 <= i < |logs|
      ensures GreenTarget(run, targets[i], logs[i]) <==> Lists(run, targets[i], logs[i])
    {
    }
  }

  lemma {:induction false} NothingIsDue(targets: seq<Target>, logs: seq<TargetLog>)
    requires |targets| == |logs|
    requires forall i :: 0 <= i < |logs| && targets[i].Runnable? ==> logs[i].records == []
    ensures DueResults(targets, logs) == []
  {
    if logs != [] {
      NothingIsDue(targets[..|logs| - 1], logs[..|logs| - 1]);
    }
  }

  /**
   * A whole run. Outside the help and usage shortcuts it exits 0 exactly when no task died, every
   * override target arrived, every target was reached and all its records are green, and Buck2
   * accepted every report; and then, as in every run in which nothing dies and all targets are
   * reached, the reports are exactly the results of all the actions. In
   * every run a target's discovery is received before its results. A run that only lists the tests
   * has no result, and its exit code does not depend on what Buck2 would make of them. The account
   * is that of a reporter that lives to the end.
   */
  method RunSession(
    run: RunConfig, targets: seq<Target>, schedule: seq<Envelope> -> seq<Event>, accepts: nat -> bool,
    taskDies: bool, reporterDies: bool)
    returns (exitCode: int, logs: seq<TargetLog>, account: Account, arrived: seq<Envelope>)
    requires 1 <= run.shard.count
    requires forall target :: target in targets ==> Consistent(run, target)
    requires Schedules(schedule)
    ensures exitCode == 0 || exitCode == 32
    ensures run.helpOnly ==> exitCode == 0
    ensures !run.helpOnly && run.usageError ==> exitCode == 32
    ensures !run.helpOnly && !run.usageError ==>
              && AreTargetLogs(run, targets, logs)
              && (exitCode == 0 <==> ExitsGreen(run, targets, logs, accepts, taskDies, reporterDies, account.written))
              && (exitCode == 0 ==> multiset(account.written) == multiset(DueResults(targets, logs)))
              && (AllAlive(run, targets, logs) && !reporterDies ==>
                    multiset(account.written) == multiset(DueResults(targets, logs)))
              && (!reporterDies ==> account.written == TestsOf(MessagesOf(arrived)))
              && (run.listOnly ==>
                    && DueResults(targets, logs) == []
                    && (exitCode == 0 <==>
                        !taskDies && !reporterDies && OverridesReceived(run, targets)
                        && AllListed(run, targets, logs)))
              && DiscoveryFirst(arrived)
              && Announced(run, targets, logs, arrived)
  {
    hide IsTargetLog, GreenTarget, AllGreen, DueResults, TestsOf;
    hide Covers, GreenTargets, AllAccepted, Schedules, ReceivedAs;
    hide MessagesOf, Causal, Arrivals, DiscoveryFirst, WellNumbered, Announced, DiscoversFirst;
    account := NothingReceived(accepts);
    logs, arrived := [], [];
    if run.helpOnly {
      return 0, logs, account, arrived;
    }
    if run.usageError {
      return NONZERO_EXIT, logs, account, arrived;
    }
    var fromTargets, received;
    fromTargets, logs, received := RunTargets(run, targets);
    var missing := MissingOverrideTargets(run.overrides, received);
    assert missing == [] <==> OverridesReceived(run, targets) by {
      assert missing != [] ==> missing[0] in missing;
    }
    var drops := seq(|missing|, _ => TargetDropped);
    DropsAreNotGreen(MessagesOf(fromTargets), |missing|);
    DropsHaveNoTests(MessagesOf(fromTargets), |missing|);
    var sent := fromTargets + Enveloped(|targets|, drops);
    OpenedAppend(fromTargets, |targets|, drops);
    arrived := Arrivals(schedule(sent));
    Scheduled(schedule, sent);
    DropsDiscoverNothing(|missing|);
    NextSender(fromTargets, |targets|, drops);
    ArrivesDiscoveryFirst(sent, |targets| + 1, schedule(sent));
    StillAnnounced(run, targets, logs, fromTargets, sent, arrived);
    var passes;
    passes, account := ReporterTask(MessagesOf(arrived), accepts);
    assert missing == [] ==> MessagesOf(sent) == MessagesOf(fromTargets);
    ReorderedGreen(MessagesOf(arrived), MessagesOf(sent));
    ReorderedTests(MessagesOf(arrived), MessagesOf(sent));
    WrittenIs(account, MessagesOf(arrived));
    if GreenTargets(run, targets, logs) {
      GreenIsAlive(run, targets, logs);
    }
    if run.listOnly {
      ListingRunsNothing(run, targets, logs);
      NothingToAccept(accepts);
      assert AllGreen(MessagesOf(arrived)) ==> |multiset(account.written)| == 0;
    }
    exitCode := if passes && !reporterDies && !taskDies then 0 else NONZERO_EXIT;
  }

  lemma {:induction false} NothingToAccept(accepts: nat -> bool)
    ensures AllAccepted(accepts, 0)
  {
  }

  lemma {:induction false} Scheduled(schedule: seq<Envelope> -> seq<Event>, sent: seq<Envelope>)
    requires Schedules(schedule)
    ensures Causal(schedule(sent)) && multiset(Arrivals(schedule(sent))) == multiset(sent)
    ensures multiset(MessagesOf(Arrivals(schedule(sent)))) == multiset(MessagesOf(sent))
  {
    hide Causal, Arrivals;
    PickedIgnoresOrder(Arrivals(schedule(sent)), sent, (e: Envelope) => Some(e.message));
  }

  lemma {:induction false} DropsDiscoverNothing(count: nat)
    ensures DiscoversFirst(seq(count, _ => TargetDropped))
  {
  }

  lemma {:induction false} StillAnnounced(
    run: RunConfig, targets: seq<Target>, logs: seq<TargetLog>, sent: seq<Envelope>, all: seq<Envelope>,
    arrived: seq<Envelope>)
    requires Announced(run, targets, logs, sent)
    requires (forall e :: e in sent ==> e in all) && multiset(arrived) == multiset(all)
    ensures Announced(run, targets, logs, arrived)
  {
    hide GreenTarget;
    SameElements(arrived, all);
  }

  lemma {:induction false} WrittenIs(account: Account, messages: seq<Message>)
    requires Covers(account, messages)
    ensures account.written == TestsOf(messages)
  {
  }
}
