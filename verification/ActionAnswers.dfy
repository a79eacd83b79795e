/**
 * What Buck2's answers mean for a test, in one step: the attempt that an answer stands for, which
 * answers settle a name, and which requests go out, without the marker walk and the maps in between.
 */
module ActionAnswers {
  import opened Results
  import opened ActionModel
  import opened ActionTheorems

  // ---------------------------------------------------------------- resource markers

  /** A marker that leaves the group with observations: the action's OOM, or one of its only command's. */
  predicate Tolerated(cfg: Config, names: seq<Name>, marker: ResourceFailure) {
    if cfg.granularity == Action then marker == ActionOom
    else |names| == 1 && (marker == LogicalTimeout(0) || marker == LogicalOom(0))
  }

  predicate AllTolerated(cfg: Config, names: seq<Name>, markers: seq<ResourceFailure>) {
    forall m :: m in markers ==> Tolerated(cfg, names, m)
  }

  /** The supervisor of a whole action reports its time limit, after nothing but OOMs. */
  predicate TimesOut(cfg: Config, markers: seq<ResourceFailure>) {
    && cfg.granularity == Action
    && exists i ::
         0 <= i < |markers| && markers[i] == ActionTimeout && forall j :: 0 <= j < i ==> markers[j] == ActionOom
  }

  lemma {:induction false} StopsIff(cfg: Config, names: seq<Name>, marker: ResourceFailure)
    ensures StopsGroup(cfg, names, marker) <==> !Tolerated(cfg, names, marker)
  {
  }

  lemma {:induction false} MarkersDecide(cfg: Config, names: seq<Name>, action: CompletedAction)
    ensures var outcome := Judge(cfg, names, action);
            && (outcome.Observed? <==> AllTolerated(cfg, names, action.markers))
            && (outcome.GroupFailed? && outcome.disposition == CompleteActionTimeout <==> TimesOut(cfg, action.markers))
  {
    hide Marked, StopsGroup, Tolerated;
    var markers := action.markers;
    var k := FirstStop(cfg, names, markers);
    forall m
      ensures StopsGroup(cfg, names, m) <==> !Tolerated(cfg, names, m)
    {
      StopsIff(cfg, names, m);
    }
    if k < |markers| {
      assert markers[k] in markers;
      TimesOutAt(cfg, names, markers, k);
    } else if TimesOut(cfg, markers) {
      var i :| 0 <= i < |markers| && markers[i] == ActionTimeout;
      TimeoutStops(cfg, names);
    }
  }

  lemma {:induction false} TimeoutStops(cfg: Config, names: seq<Name>)
    ensures !Tolerated(cfg, names, ActionTimeout)
  {
  }

  lemma {:induction false} TimesOutAt(cfg: Config, names: seq<Name>, markers: seq<ResourceFailure>, k: nat)
    requires k < |markers| && !Tolerated(cfg, names, markers[k])
    requires forall j :: 0 <= j < k ==> Tolerated(cfg, names, markers[j])
    ensures TimesOut(cfg, markers) <==> cfg.granularity == Action && markers[k] == ActionTimeout
  {
  }

  /** Logical markers replace what their only test printed, the last one deciding. */
  lemma {:induction false} LastMarkerDecides(
      cfg: Config, names: seq<Name>, markers: seq<ResourceFailure>, observations: map<Name, Observation>)
    requires cfg.granularity == LogicalTest && markers != [] && AllTolerated(cfg, names, markers)
    ensures |names| == 1 && Marked(names, markers, observations).Keys == observations.Keys + {names[0]}
    ensures Marked(names, markers, observations)[names[0]]
            == Observation(if markers[|markers| - 1] == LogicalTimeout(0) then Timeout else Fail, None)
  {
    var last := markers[|markers| - 1];
    assert last in markers && Tolerated(cfg, names, last);
    var rest := markers[..|markers| - 1];
    if rest != [] {
      assert forall m :: m in rest ==> m in markers;
      LastMarkerDecides(cfg, names, rest, observations);
    }
  }

  lemma {:induction false} OomsMarkNothing(
      cfg: Config, names: seq<Name>, markers: seq<ResourceFailure>, observations: map<Name, Observation>)
    requires cfg.granularity == Action && AllTolerated(cfg, names, markers)
    ensures Marked(names, markers, observations) == observations
    ensures markers != [] <==> ActionOom in markers
  {
    if markers != [] {
      assert markers[|markers| - 1] in markers;
      var rest := markers[..|markers| - 1];
      assert forall m :: m in rest ==> m in markers;
      OomsMarkNothing(cfg, names, rest, observations);
    }
  }

  // ---------------------------------------------------------------- one answer, one attempt

  /**
   * The answer settles the name: the action hit its own time limit; or it ran alone into its memory
   * limit; or there is a line, a marker or, for a target run as a whole, an exit code for the name.
   */
  predicate Settles(cfg: Config, alone: bool, names: seq<Name>, response: Response, name: Name) {
    && response.Completed?
    && var action := response.action;
       || TimesOut(cfg, action.markers)
       || (&& AllTolerated(cfg, names, action.markers)
           && (if ActionOom in action.markers then alone
               else name in action.observations || action.markers != [] || cfg.wholeTarget))
  }

  /** The verdict for a name without any line or marker. */
  function Unseen(cfg: Config, alone: bool, status: ProcessOutcome): TestVerdict {
    if status.TimedOut? then Timeout
    else if status != ProcessOutcome.Finished(0) then (if alone then Fail else Fatal)
    else if cfg.wholeTarget then Pass
    else Fatal
  }

  /** The verdict that the answer is for the name. */
  function Verdict(cfg: Config, alone: bool, names: seq<Name>, response: Response, name: Name): TestVerdict {
    match response
    case RpcError => Fatal
    case CancelledQueueTimeout => InfraFailure
    case CancelledUnspecified => Omitted
    case MalformedResponse => InfraFailure
    case Completed(action) =>
      if TimesOut(cfg, action.markers) then Timeout
      else if !AllTolerated(cfg, names, action.markers) then InfraFailure
      else if ActionOom in action.markers then (if alone then Fail else Fatal)
      else if action.markers != [] then
        (if action.markers[|action.markers| - 1] == LogicalTimeout(0) then Timeout else Fail)
      else if name in action.observations then action.observations[name].status
      else Unseen(cfg, alone, action.status)
  }

  /** The answer shows the name: by a line, or by a marker in its place. */
  predicate Shows(cfg: Config, names: seq<Name>, response: Response, name: Name) {
    && response.Completed?
    && AllTolerated(cfg, names, response.action.markers)
    && ActionOom !in response.action.markers
    && (response.action.markers != [] || name in response.action.observations)
  }

  /** The attempt is what the answer says about the name: verdict, whether it is settled, times and place. */
  predicate Reads(
    cfg: Config, alone: bool, names: seq<Name>, response: Response, name: Name, attempt: Attempt)
  {
    && attempt.best.status == Verdict(cfg, alone, names, response, name)
    && (attempt.best.integrity == Complete <==> Settles(cfg, alone, names, response, name))
    && attempt.fromHarness == Shows(cfg, names, response, name)
    && attempt.caseDuration
       == (if Shows(cfg, names, response, name) && response.action.markers == []
           then response.action.observations[name].caseDuration else None)
    && (match response
        case Completed(action) =>
          && attempt.best.duration == Measured(action.executionTime)
          && attempt.execution == ExecutionOf(action.kind)
          && attempt.best.maxMemory == (if AllTolerated(cfg, names, action.markers) then action.maxMemory else None)
        case _ => attempt.best.duration == Unmeasured && attempt.best.maxMemory.None? && attempt.execution == Unknown)
  }

  lemma {:induction false} CompletedReads(
    cfg: Config, batched: bool, run: GroupRun, action: CompletedAction, name: Name)
    requires run.outcome == Judge(cfg, run.names, action)
    requires name in run.names && (cfg.wholeTarget ==> !batched)
    ensures Reads(
              cfg, !batched || |run.names| == 1, run.names, Completed(action), name, AttemptOf(cfg, batched, run, name))
  {
    hide FirstStop, Marked, StopsGroup;
    MarkersDecide(cfg, run.names, action);
    hide Tolerated;
    if AllTolerated(cfg, run.names, action.markers) {
      assert !TimesOut(cfg, action.markers);
      hide AllTolerated, TimesOut, Judge;
      ToleratedReads(cfg, batched, run, action, name);
    } else {
      StoppedReads(cfg, batched, run, action, name);
    }
  }

  lemma {:induction false} StoppedReads(
    cfg: Config, batched: bool, run: GroupRun, action: CompletedAction, name: Name)
    requires run.outcome == Judge(cfg, run.names, action) && run.outcome.GroupFailed?
    ensures var attempt := AttemptOf(cfg, batched, run, name);
            && attempt.best.duration == Measured(action.executionTime) && attempt.execution == ExecutionOf(action.kind)
            && attempt.best.maxMemory.None? && attempt.caseDuration.None? && !attempt.fromHarness
            && (attempt.best.status
                == if run.outcome.disposition == CompleteActionTimeout then Timeout else InfraFailure)
            && (attempt.best.integrity == Complete <==> run.outcome.disposition == CompleteActionTimeout)
  {
    hide FirstStop, Marked, StopsGroup;
  }

  lemma {:induction false} JudgedFields(cfg: Config, names: seq<Name>, action: CompletedAction)
    requires Judge(cfg, names, action).Observed?
    ensures var outcome := Judge(cfg, names, action);
            && outcome.observations == Marked(names, action.markers, action.observations)
            && outcome.raw == action.status
            && (outcome.actionOom <==> ActionOom in action.markers)
            && outcome.executionTime == action.executionTime && outcome.maxMemory == action.maxMemory
            && outcome.execution == ExecutionOf(action.kind)
  {
    hide FirstStop, Marked, StopsGroup;
  }

  lemma {:induction false} ToleratedReads(
    cfg: Config, batched: bool, run: GroupRun, action: CompletedAction, name: Name)
    requires run.outcome == Judge(cfg, run.names, action) && run.outcome.Observed?
    requires AllTolerated(cfg, run.names, action.markers) && !TimesOut(cfg, action.markers)
    requires name in run.names && (cfg.wholeTarget ==> !batched)
    ensures Reads(
              cfg, !batched || |run.names| == 1, run.names, Completed(action), name, AttemptOf(cfg, batched, run, name))
  {
    hide Marked, TimesOut;
    JudgedFields(cfg, run.names, action);
    hide Judge;
    var markers := action.markers;
    if cfg.granularity == Action {
      OomsMarkNothing(cfg, run.names, markers, action.observations);
    } else if markers == [] {
      NothingMarked(run.names, action.observations);
    } else {
      LastMarkerDecides(cfg, run.names, markers, action.observations);
      assert forall m :: m in markers ==> Tolerated(cfg, run.names, m);
      assert name == run.names[0];
    }
  }

  lemma {:induction false} NothingMarked(names: seq<Name>, observations: map<Name, Observation>)
    ensures Marked(names, [], observations) == observations
  {
  }

  /** The attempt of a listed name is what the last answer to its group says, or a refusal without any. */
  lemma {:induction false} AttemptReads(
    cfg: Config, oracle: Oracle, cursor: nat, firstIndex: nat, batched: bool, run: GroupRun, name: Name)
    requires ValidGroup(cfg, oracle, cursor, firstIndex, run)
    requires name in run.names && (cfg.wholeTarget ==> !batched)
    ensures var attempt := AttemptOf(cfg, batched, run, name);
            if run.requests == [] then
              attempt == Attempt(BestObs(Fatal, MissingTerminalResult, Unmeasured, None), None, Unknown, false)
            else
              Reads(
                cfg, !batched || |run.names| == 1, run.names, oracle(cursor + |run.requests| - 1), name, attempt)
  {
    hide Judge, MemoryMaxFor, CachingEnabled;
    if run.requests != [] {
      LastAnswerDecides(cfg, oracle, cursor, firstIndex, run);
      var response := oracle(cursor + |run.requests| - 1);
      if response.Completed? {
        CompletedReads(cfg, batched, run, response.action, name);
      }
    }
  }

  // ---------------------------------------------------------------- the attempts of a call

  /** The answer that decides the k-th group run. */
  function Deciding(oracle: Oracle, runs: seq<GroupRun>, k: nat): Response
    requires k < |runs| && runs[k].requests != []
  {
    oracle(RequestCount(runs[..k]) + |runs[k].requests| - 1)
  }

  /** The attempt is what the k-th group run, in a call with or without other members, says about the name. */
  ghost predicate ReadsAt(
    cfg: Config, batched: bool, oracle: Oracle, runs: seq<GroupRun>, k: nat, name: Name, attempt: Attempt)
    requires k < |runs|
  {
    if runs[k].requests == [] then
      attempt == Attempt(BestObs(Fatal, MissingTerminalResult, Unmeasured, None), None, Unknown, false)
    else
      Reads(cfg, !batched || |runs[k].names| == 1, runs[k].names, Deciding(oracle, runs, k), name, attempt)
  }

  /** The k-th group run was not refused, and its deciding answer settles the name. */
  ghost predicate SettledAt(cfg: Config, batched: bool, oracle: Oracle, runs: seq<GroupRun>, k: nat, name: Name)
    requires k < |runs|
  {
    && runs[k].requests != []
    && Settles(cfg, !batched || |runs[k].names| == 1, runs[k].names, Deciding(oracle, runs, k), name)
  }

  /** Every group run that lists the name was settled for it. */
  ghost predicate AlwaysSettled(cfg: Config, batched: bool, oracle: Oracle, runs: seq<GroupRun>, name: Name) {
    forall k :: 0 <= k < |runs| && name in runs[k].names ==> SettledAt(cfg, batched, oracle, runs, k, name)
  }

  lemma {:induction false} RunReads(
    cfg: Config, plan: Plan, oracle: Oracle, runs: seq<GroupRun>, k: nat, name: Name)
    requires IsRun(cfg, plan, oracle, runs) && k < |runs|
    requires name in runs[k].names && (cfg.wholeTarget ==> !plan.Batched())
    ensures var attempt := AttemptOf(cfg, plan.Batched(), runs[k], name);
            && ReadsAt(cfg, plan.Batched(), oracle, runs, k, name, attempt)
            && (attempt.best.integrity == Complete <==> SettledAt(cfg, plan.Batched(), oracle, runs, k, name))
  {
    hide AttemptOf, Reads, Next;
    FollowsAt(cfg, plan, oracle, runs, k);
    AttemptReads(
      cfg, oracle, RequestCount(runs[..k]), plan.firstIndex + k, plan.Batched(), runs[k], name);
    assert |runs[..k]| == k;
    if runs[k].requests != [] {
      ReadsIntegrity(
        cfg, !plan.Batched() || |runs[k].names| == 1, runs[k].names, Deciding(oracle, runs, k), name,
        AttemptOf(cfg, plan.Batched(), runs[k], name));
    }
  }

  lemma {:induction false} ReadsIntegrity(
    cfg: Config, alone: bool, names: seq<Name>, response: Response, name: Name, attempt: Attempt)
    requires Reads(cfg, alone, names, response, name, attempt)
    ensures attempt.best.integrity == Complete <==> Settles(cfg, alone, names, response, name)
  {
  }

  /**
   * In a per-test target the m-th attempt of a name is what the answer to the group run says that
   * lists the name for the m-th time.
   */
  lemma {:induction false} AttemptsReadInOrder(
    cfg: Config, plan: Plan, oracle: Oracle, runs: seq<GroupRun>, n: nat, m: nat, name: Name) returns (k: nat)
    requires !cfg.wholeTarget
    requires IsRun(cfg, plan, oracle, runs) && n <= |runs|
    requires m < |AttemptsOf(cfg, plan.Batched(), runs[..n], name)|
    ensures k < n && name in runs[k].names
    ensures Listings(runs[..k], name) <= m < Listings(runs[..k + 1], name)
    ensures ReadsAt(
              cfg, plan.Batched(), oracle, runs, k, name, AttemptsOf(cfg, plan.Batched(), runs[..n], name)[m])
  {
    hide IsRun, AttemptOf, Copies, ReadsAt, Listings;
    var before, last := AttemptsOf(cfg, plan.Batched(), runs[..n - 1], name), runs[n - 1];
    assert runs[..n][..n - 1] == runs[..n - 1];
    OneAttemptPerListing(cfg, plan.Batched(), runs[..n - 1], name);
    OneAttemptPerListing(cfg, plan.Batched(), runs[..n], name);
    CopiesCount(AttemptOf(cfg, plan.Batched(), last, name), Entries(cfg, last, name));
    if m < |before| {
      k := AttemptsReadInOrder(cfg, plan, oracle, runs, n - 1, m, name);
    } else {
      k := n - 1;
      assert name in multiset(last.names);
      RunReads(cfg, plan, oracle, runs, k, name);
    }
  }

  ghost predicate AllComplete(attempts: seq<Attempt>) {
    forall a :: a in attempts ==> a.best.integrity == Complete
  }

  lemma {:induction false} CopiesComplete(attempt: Attempt, count: nat)
    ensures AllComplete(Copies(attempt, count)) <==> count == 0 || attempt.best.integrity == Complete
  {
    CopiesCount(attempt, count);
    if count > 0 {
      assert Copies(attempt, count)[0] in Copies(attempt, count);
    }
  }

  lemma {:induction false} CompleteAppend(a: seq<Attempt>, b: seq<Attempt>)
    ensures AllComplete(a + b) <==> AllComplete(a) && AllComplete(b)
  {
    forall x
      ensures x in a + b <==> x in a || x in b
    {
    }
  }

  lemma {:induction false} AttemptsCompleteIff(
    cfg: Config, plan: Plan, oracle: Oracle, runs: seq<GroupRun>, k: nat, name: Name)
    requires !cfg.wholeTarget
    requires IsRun(cfg, plan, oracle, runs) && k <= |runs|
    ensures AllComplete(AttemptsOf(cfg, plan.Batched(), runs[..k], name))
            <==> forall j :: 0 <= j < k && name in runs[j].names ==>
                   SettledAt(cfg, plan.Batched(), oracle, runs, j, name)
  {
    hide IsRun, SettledAt, AttemptOf, AllComplete, Copies;
    if k == 0 {
      assert AllComplete([]) by { NoneIncomplete(); }
    } else {
      AttemptsCompleteIff(cfg, plan, oracle, runs, k - 1, name);
      var last := runs[k - 1];
      assert runs[..k][..k - 1] == runs[..k - 1];
      var attempt, count := AttemptOf(cfg, plan.Batched(), last, name), Entries(cfg, last, name);
      CopiesComplete(attempt, count);
      CompleteAppend(AttemptsOf(cfg, plan.Batched(), runs[..k - 1], name), Copies(attempt, count));
      if name in last.names {
        assert name in multiset(last.names);
        RunReads(cfg, plan, oracle, runs, k - 1, name);
      }
    }
  }

  lemma {:induction false} AllAttemptsCompleteIff(
    cfg: Config, plan: Plan, oracle: Oracle, runs: seq<GroupRun>, name: Name)
    requires !cfg.wholeTarget && IsRun(cfg, plan, oracle, runs)
    ensures AllComplete(AttemptsOf(cfg, plan.Batched(), runs, name))
            <==> AlwaysSettled(cfg, plan.Batched(), oracle, runs, name)
  {
    hide IsRun, SettledAt, AttemptsOf, AllComplete;
    AttemptsCompleteIff(cfg, plan, oracle, runs, |runs|, name);
    assert runs[..|runs|] == runs;
  }

  lemma {:induction false} NoneIncomplete()
    ensures AllComplete([])
  {
  }

  lemma {:induction false} CompleteIffAll(trail: seq<Attempt>)
    ensures OutcomeOf(trail).integrity == Complete <==> trail != [] && AllComplete(trail)
  {
    hide ClosedForm;
    if OutcomeOf(trail).integrity == Complete {
      CompleteMeansNoneIncomplete(trail);
    } else if trail != [] {
      StandingIsClosedForm(trail);
      IncompleteIsThere(trail, Standing(trail).value);
    }
  }

  lemma {:induction false} IncompleteIsThere(trail: seq<Attempt>, result: BestObs)
    requires trail != [] && ClosedForm(trail, result)
    ensures exists a :: a in trail && a.best == result
  {
    if i :| IncompleteAt(trail, i) {
      var k :| IncompleteAt(trail, k) && trail[k].best == result;
      assert trail[k] in trail;
    } else if i :| PassingAt(trail, i) {
      var k :| PassingAt(trail, k) && trail[k].best == result;
      assert trail[k] in trail;
    } else {
      assert trail[|trail| - 1] in trail;
    }
  }

  /** Buck2's answers to the isolated re-run behind the i-th result, if there is one. */
  function OracleAt(cfg: Config, plan: Plan, world: World, log: ActionLog, i: nat): Oracle {
    var own := OwnResults(cfg, plan, log.runs);
    if own <= i then world.single(i - own) else world.batch
  }

  lemma {:induction false} MemberIsListed(cfg: Config, plan: Plan, world: World, log: ActionLog, i: nat)
    requires !cfg.wholeTarget
    requires IsAction(cfg, plan, world, log) && i < |ReportOrder(cfg, plan, log.runs)|
    ensures AttemptsOf(cfg, plan.Batched(), log.runs, ReportOrder(cfg, plan, log.runs)[i]) != []
  {
    hide ReportOrder, Next, Follows;
    var name := ReportOrder(cfg, plan, log.runs)[i];
    EveryMemberIsReported(cfg, plan, log.runs);
    assert name in multiset(ReportOrder(cfg, plan, log.runs));
    FirstRunsAll(cfg, plan, world.batch, log.runs);
    OneAttemptPerListing(cfg, plan.Batched(), log.runs, name);
    ListedInFirst(log.runs, name);
  }

  lemma {:induction false} ListedInFirst(runs: seq<GroupRun>, name: Name)
    requires runs != [] && name in runs[0].names
    ensures Listings(runs, name) > 0
  {
    if |runs| == 1 {
      assert name in multiset(runs[0].names);
    } else {
      ListedInFirst(runs[..|runs| - 1], name);
    }
  }

  lemma {:induction false} AloneIsRun(cfg: Config, plan: Plan, world: World, log: ActionLog, i: nat)
    returns (call: Plan)
    requires IsAction(cfg, plan, world, log) && i < |ReportOrder(cfg, plan, log.runs)|
    requires OwnResults(cfg, plan, log.runs) <= i
    ensures !call.Batched() && IsRun(cfg, call, OracleAt(cfg, plan, world, log, i), AloneRuns(cfg, plan, log, i))
  {
    hide IsAction, ReportOrder, OwnResults, IsRun, Next, Trail, TrailAt;
    IsolatedTrail(cfg, plan, world, log, i);
    var j := i - OwnResults(cfg, plan, log.runs);
    call := IsolationPlan(cfg, plan, log.runs, Next(cfg, plan, log.runs).names, j);
    AloneIsSingle(cfg, plan, log.runs, Next(cfg, plan, log.runs).names, j);
    hide IsolationPlan;
  }

  lemma {:induction false} AloneIsSingle(cfg: Config, plan: Plan, runs: seq<GroupRun>, failing: seq<Name>, j: nat)
    requires j < |failing|
    ensures !IsolationPlan(cfg, plan, runs, failing, j).Batched()
  {
    hide Trail, Recorded;
  }

  /**
   * A result of a per-test target is complete exactly when every group run that lists its name, in
   * the batch and in its isolated re-run, got an answer that settles the name.
   */
  lemma {:induction false} CompleteIffSettled(cfg: Config, plan: Plan, world: World, log: ActionLog, i: nat)
    requires !cfg.wholeTarget
    requires plan.Fresh() && IsAction(cfg, plan, world, log)
    requires i < |ReportOrder(cfg, plan, log.runs)|
    ensures var name := ReportOrder(cfg, plan, log.runs)[i];
            OutcomeOf(TrailAt(cfg, plan, log, i)).integrity == Complete
            <==> && AlwaysSettled(cfg, |plan.members| > 1, world.batch, log.runs, name)
                 && AlwaysSettled(
                      cfg, false, OracleAt(cfg, plan, world, log, i), AloneRuns(cfg, plan, log, i), name)
  {
    assert IsRun(cfg, plan, world.batch, log.runs);
    hide IsRun, TrailAt, RecordAt, History, ReportOrder, AttemptsOf, AllComplete, IsCompleteRun, OwnResults, OracleAt;
    hide AlwaysSettled, Next, PassingAmong;
    var name, alone := ReportOrder(cfg, plan, log.runs)[i], AloneRuns(cfg, plan, log, i);
    HistoryIsBatchThenAlone(cfg, plan, world, log, i);
    MemberIsListed(cfg, plan, world, log, i);
    var batch, single := AttemptsOf(cfg, plan.Batched(), log.runs, name), AttemptsOf(cfg, false, alone, name);
    CompleteIffAll(batch + single);
    CompleteAppend(batch, single);
    AllAttemptsCompleteIff(cfg, plan, world.batch, log.runs, name);
    if OwnResults(cfg, plan, log.runs) <= i {
      var call := AloneIsRun(cfg, plan, world, log, i);
      AllAttemptsCompleteIff(cfg, call, OracleAt(cfg, plan, world, log, i), alone, name);
    } else {
      NoneAlone(cfg, name, OracleAt(cfg, plan, world, log, i));
    }
  }

  lemma {:induction false} NoneAlone(cfg: Config, name: Name, oracle: Oracle)
    ensures AllComplete(AttemptsOf(cfg, false, [], name)) && AlwaysSettled(cfg, false, oracle, [], name)
  {
  }

  // ---------------------------------------------------------------- targets run as a whole

  lemma {:induction false} UnitRunCompletes(
    cfg: Config, plan: Plan, oracle: Oracle, runs: seq<GroupRun>, k: nat, unit: Name)
    requires cfg.wholeTarget && IsUnit(unit) && WellFormed(plan) && plan.members == [unit]
    requires IsRun(cfg, plan, oracle, runs) && k < |runs|
    ensures AllComplete(Copies(AttemptOf(cfg, false, runs[k], unit), Entries(cfg, runs[k], unit)))
            <==> || LosesUnit(cfg, oracle, RequestCount(runs[..k]), runs[k], unit)
                 || SettledAt(cfg, false, oracle, runs, k, unit)
  {
    hide IsRun, SettledAt, LosesUnit, AttemptOf, Entries, AllComplete, Copies, ReadsAt;
    OnlyMemberRuns(cfg, plan, oracle, runs, k);
    FollowsAt(cfg, plan, oracle, runs, k);
    assert |runs[..k]| == k;
    GroupLosesIff(cfg, oracle, RequestCount(runs[..k]), plan.firstIndex + k, runs[k], unit);
    RunReads(cfg, plan, oracle, runs, k, unit);
    CopiesComplete(AttemptOf(cfg, false, runs[k], unit), Entries(cfg, runs[k], unit));
  }

  lemma {:induction false} UnitAttemptsCompleteIff(
    cfg: Config, plan: Plan, oracle: Oracle, runs: seq<GroupRun>, k: nat, unit: Name)
    requires cfg.wholeTarget && IsUnit(unit) && WellFormed(plan) && plan.members == [unit]
    requires IsRun(cfg, plan, oracle, runs) && k <= |runs|
    ensures AllComplete(AttemptsOf(cfg, false, runs[..k], unit))
            <==> forall j :: 0 <= j < k ==>
                   || LosesUnit(cfg, oracle, RequestCount(runs[..j]), runs[j], unit)
                   || SettledAt(cfg, false, oracle, runs, j, unit)
  {
    hide IsRun, SettledAt, LosesUnit, AttemptOf, Entries, AllComplete, Copies;
    if k == 0 {
      NoneIncomplete();
    } else {
      UnitAttemptsCompleteIff(cfg, plan, oracle, runs, k - 1, unit);
      assert runs[..k][..k - 1] == runs[..k - 1];
      UnitRunCompletes(cfg, plan, oracle, runs, k - 1, unit);
      CompleteAppend(
        AttemptsOf(cfg, false, runs[..k - 1], unit),
        Copies(AttemptOf(cfg, false, runs[k - 1], unit), Entries(cfg, runs[k - 1], unit)));
    }
  }

  /**
   * The result of a target that is run as a whole is complete exactly when some answer does not lose
   * the unit, and each such answer settles it.
   */
  lemma {:induction false} UnitCompleteIffSettled(
    cfg: Config, plan: Plan, oracle: Oracle, runs: seq<GroupRun>, unit: Name)
    requires cfg.wholeTarget && IsUnit(unit)
    requires plan.Fresh() && WellFormed(plan) && plan.members == [unit]
    requires IsRun(cfg, plan, oracle, runs)
    ensures OutcomeOf(Trail(cfg, plan, runs, unit)).integrity == Complete
            <==> && (exists k :: 0 <= k < |runs| && !LosesUnit(cfg, oracle, RequestCount(runs[..k]), runs[k], unit))
                 && (forall k :: 0 <= k < |runs| ==>
                       || LosesUnit(cfg, oracle, RequestCount(runs[..k]), runs[k], unit)
                       || SettledAt(cfg, false, oracle, runs, k, unit))
  {
    hide IsRun, SettledAt, LosesUnit, AttemptsOf, AllComplete, RequestCount;
    var attempts := AttemptsOf(cfg, false, runs, unit);
    UnitAttemptsCompleteIff(cfg, plan, oracle, runs, |runs|, unit);
    assert runs[..|runs|] == runs;
    TrailIsEmptyIff(cfg, plan, oracle, runs, unit);
    assert Trail(cfg, plan, runs, unit) == attempts by {
      assert [] + attempts == attempts;
    }
    CompleteIffAll(attempts);
  }
}
