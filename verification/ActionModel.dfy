/**
 * What one test action may do, stated over the log of its group runs.
 *
 * Buck2 is an oracle: the i-th `Execute2` of an action gets the response `oracle(i)`, whatever
 * that is. A log is the sequence of group runs of one action call; `IsRun` says which logs the
 * retry rules allow, and `Trail` projects a log to the attempts of one test name.
 */
module ActionModel {
  import opened Results

  const INFRA_MAX_ATTEMPTS: nat := 3
  const DOCTEST_RESULT_NAME: Name := "<doctests>"
  const BINARY_RESULT_NAME: Name := "<binary>"

  datatype Selection = All | Explicit(names: seq<Name>)

  datatype CgroupGranularity = LogicalTest | Action

  datatype CacheClass = Cacheable | Uncacheable

  datatype BatchFailurePolicy = FailAll | RerunPerTestToIsolate

  datatype MemoryOverride = MemoryOverride(target: string, test: Name, memoryMax: nat)

  /** A retry policy always grants the first attempt. */
  type RetryBudget = n: nat | 1 <= n witness 1

  datatype Config = Config(
    target: string,
    wholeTarget: bool,
    granularity: CgroupGranularity,
    defaultMemory: nat,
    overrides: seq<MemoryOverride>,
    maxAttempts: RetryBudget,
    tomlAttempts: nat,
    knownFlakes: set<Name>,
    cacheClass: CacheClass,
    defaultVariant: bool,
    stress: bool,
    bustUnseen: bool,
    unseen: set<Name>,
    policy: BatchFailurePolicy)

  // ---------------------------------------------------------------- Buck2's responses

  datatype Observation = Observation(status: TestVerdict, caseDuration: Option<nat>)

  datatype ResourceFailure =
    | LogicalTimeout(index: nat)
    | LogicalOom(index: nat)
    | ActionTimeout
    | ActionOom
    | Setup
    | MalformedMarker

  datatype CompletedAction = CompletedAction(
    status: ProcessOutcome,
    observations: map<Name, Observation>,
    markers: seq<ResourceFailure>,
    kind: ExecKind,
    executionTime: nat,
    maxMemory: Option<nat>)

  datatype Response =
    | RpcError
    | Completed(action: CompletedAction)
    | CancelledQueueTimeout
    | CancelledUnspecified
    | MalformedResponse

  type Oracle = nat -> Response

  /** The responses to a batch and, separately, to each of the singletons it is isolated into. */
  datatype World = World(batch: Oracle, single: nat -> Oracle)

  // ---------------------------------------------------------------- requests

  datatype Request = Request(selection: Selection, attemptIndex: nat, cachingEnabled: bool, memoryMax: nat)

  /** `TestExecutionCaching::resolve`, with the cache bust for tests that have no history. */
  predicate CachingEnabled(cfg: Config, names: seq<Name>, attemptIndex: nat) {
    && cfg.cacheClass == Cacheable
    && cfg.defaultVariant
    && !cfg.stress
    && attemptIndex == 0
    && !(cfg.bustUnseen && exists n :: n in names && n in cfg.unseen)
  }

  function MatchingOverrides(overrides: seq<MemoryOverride>, target: string, names: seq<Name>): seq<MemoryOverride> {
    if overrides == [] then []
    else
      (if overrides[0].target == target && overrides[0].test in names then [overrides[0]] else [])
      + MatchingOverrides(overrides[1..], target, names)
  }

  /** The memory limit of an action; None when an override does not name its single test. */
  function MemoryMaxFor(cfg: Config, names: seq<Name>): Option<nat> {
    var matches := MatchingOverrides(cfg.overrides, cfg.target, names);
    if |matches| == 0 then Some(cfg.defaultMemory)
    else if |matches| == 1 && |names| == 1 then Some(matches[0].memoryMax)
    else None
  }

  // ---------------------------------------------------------------- group outcomes

  datatype FailureDisposition = Incomplete | CompleteActionTimeout {
    function Integrity(): ResultIntegrity {
      if Incomplete? then MissingTerminalResult else Complete
    }
  }

  datatype GroupOutcome =
    | Observed(
        observations: map<Name, Observation>,
        raw: ProcessOutcome,
        actionOom: bool,
        executionTime: nat,
        maxMemory: Option<nat>,
        execution: AttemptExecution)
    | GroupFailed(
        status: TestVerdict,
        execution: AttemptExecution,
        duration: AttemptDuration,
        disposition: FailureDisposition)

  /** A marker that ends the group at once rather than adjusting its observations. */
  predicate StopsGroup(cfg: Config, names: seq<Name>, marker: ResourceFailure) {
    match marker
    case LogicalTimeout(index) => cfg.granularity != LogicalTest || |names| != 1 || index != 0
    case LogicalOom(index) => cfg.granularity != LogicalTest || |names| != 1 || index != 0
    case ActionTimeout => true
    case ActionOom => cfg.granularity != Action
    case Setup => true
    case MalformedMarker => true
  }

  function FirstStop(cfg: Config, names: seq<Name>, markers: seq<ResourceFailure>): (k: nat)
    ensures k <= |markers|
    ensures forall j :: 0 <= j < k ==> !StopsGroup(cfg, names, markers[j])
    ensures k < |markers| ==> StopsGroup(cfg, names, markers[k])
  {
    if markers == [] || StopsGroup(cfg, names, markers[0]) then 0
    else 1 + FirstStop(cfg, names, markers[1..])
  }

  function Stopped(cfg: Config, marker: ResourceFailure, action: CompletedAction): GroupOutcome {
    var timedOut := marker.ActionTimeout? && cfg.granularity == Action;
    GroupFailed(
      if timedOut then Timeout else InfraFailure,
      ExecutionOf(action.kind),
      Measured(action.executionTime),
      if timedOut then CompleteActionTimeout else Incomplete)
  }

  /** The observations once every logical marker has overwritten the single test's own. */
  function Marked(
      names: seq<Name>, markers: seq<ResourceFailure>, observations: map<Name, Observation>): map<Name, Observation>
  {
    if markers == [] || |names| == 0 then observations
    else
      var before := Marked(names, markers[..|markers| - 1], observations);
      match markers[|markers| - 1]
      case LogicalTimeout(_) => before[names[0] := Observation(Timeout, None)]
      case LogicalOom(_) => before[names[0] := Observation(Fail, None)]
      case _ => before
  }

  function Judge(cfg: Config, names: seq<Name>, action: CompletedAction): GroupOutcome {
    var k := FirstStop(cfg, names, action.markers);
    if k < |action.markers| then Stopped(cfg, action.markers[k], action)
    else
      Observed(
        Marked(names, action.markers, action.observations),
        action.status,
        ActionOom in action.markers,
        action.executionTime,
        action.maxMemory,
        ExecutionOf(action.kind))
  }

  function Unrun(status: TestVerdict): GroupOutcome {
    GroupFailed(status, Unknown, Unmeasured, Incomplete)
  }

  /** The outcome of a group whose last request got this response. */
  function Conclude(cfg: Config, names: seq<Name>, response: Response): GroupOutcome {
    match response
    case RpcError => Unrun(Fatal)
    case Completed(action) => Judge(cfg, names, action)
    case CancelledQueueTimeout => Unrun(InfraFailure)
    case CancelledUnspecified => Unrun(Omitted)
    case MalformedResponse => Unrun(InfraFailure)
  }

  datatype GroupRun = GroupRun(names: seq<Name>, selection: Selection, requests: seq<Request>, outcome: GroupOutcome) {
    /** The whole action hit its own time limit; this has a retry budget of its own. */
    predicate ActionTimedOut() {
      outcome.GroupFailed? && outcome.disposition == CompleteActionTimeout
    }
  }

  predicate Queued(oracle: Oracle, at: nat) {
    oracle(at).CancelledQueueTimeout?
  }

  /**
   * A group run as `run_group` may perform it: requests from `cursor` on, one after another while
   * Buck2 answers "queue timeout" and at most three, and the outcome read off the last response.
   */
  ghost predicate ValidGroup(cfg: Config, oracle: Oracle, cursor: nat, firstIndex: nat, run: GroupRun) {
    match MemoryMaxFor(cfg, run.names)
    case None => run.requests == [] && run.outcome == Unrun(Fatal)
    case Some(memoryMax) =>
      && 1 <= |run.requests| <= INFRA_MAX_ATTEMPTS
      && (forall i :: 0 <= i < |run.requests| ==>
            && run.requests[i]
                 == Request(run.selection, firstIndex + i, CachingEnabled(cfg, run.names, firstIndex + i), memoryMax)
            && (i < |run.requests| - 1 ==> Queued(oracle, cursor + i)))
      && (Queued(oracle, cursor + |run.requests| - 1) ==> |run.requests| == INFRA_MAX_ATTEMPTS)
      && run.outcome == Conclude(cfg, run.names, oracle(cursor + |run.requests| - 1))
  }

  // ---------------------------------------------------------------- attempts

  datatype BestObs = BestObs(
      status: TestVerdict, integrity: ResultIntegrity, duration: AttemptDuration, maxMemory: Option<nat>) {
    predicate Passing() {
      integrity == Complete && !status.IsFailure()
    }
  }

  datatype Attempt = Attempt(best: BestObs, caseDuration: Option<nat>, execution: AttemptExecution, fromHarness: bool)

  datatype AttemptObservation = AttemptObservation(
    status: TestVerdict, duration: AttemptDuration, caseDuration: Option<nat>, execution: AttemptExecution)

  datatype DbObservation = DbObservation(
    duration: nat, failed: bool, failureClass: Option<FailureClass>, environment: Environment)

  /** Verdict of a requested name for which the harness printed no terminal result. */
  function AbsentNameVerdict(raw: ProcessOutcome, wholeUnit: bool, singleton: bool): (verdict: TestVerdict)
    ensures !verdict.IsFailure() <==> wholeUnit && raw == Finished(0)
    ensures !verdict.IsFailure() ==> verdict == Pass
    ensures verdict == Timeout <==> raw.TimedOut?
    ensures verdict == Fail ==> singleton
  {
    if raw.TimedOut? then Timeout
    else if raw.exitCode == 0 then (if wholeUnit then Pass else Fatal)
    else if singleton then Fail
    else Fatal
  }

  /** A whole-unit run that printed per-test lines is recorded under the printed names. */
  predicate ReportsObservedNames(cfg: Config, run: GroupRun) {
    && run.outcome.Observed?
    && cfg.wholeTarget
    && |run.outcome.observations| != 0
    && |run.names| == 1
    && (run.names[0] == DOCTEST_RESULT_NAME || run.names[0] == BINARY_RESULT_NAME)
  }

  /** How many attempts the run records for the name: one for each time it is listed. */
  function Entries(cfg: Config, run: GroupRun, name: Name): nat {
    if ReportsObservedNames(cfg, run) then (if name in run.outcome.observations then 1 else 0)
    else multiset(run.names)[name]
  }

  function AttemptOf(cfg: Config, batched: bool, run: GroupRun, name: Name): Attempt {
    match run.outcome
    case GroupFailed(status, execution, duration, disposition) =>
      Attempt(BestObs(status, disposition.Integrity(), duration, None), None, execution, false)
    case Observed(observations, raw, actionOom, executionTime, maxMemory, execution) =>
      var recorded := if ReportsObservedNames(cfg, run) then |observations| else |run.names|;
      var singleton := !batched || recorded == 1;
      var measured := Measured(executionTime);
      if actionOom then
        var status := if singleton then Fail else Fatal;
        var integrity := if singleton then Complete else MissingTerminalResult;
        Attempt(BestObs(status, integrity, measured, maxMemory), None, execution, false)
      else if name in observations then
        var seen := observations[name];
        Attempt(BestObs(seen.status, Complete, measured, maxMemory), seen.caseDuration, execution, true)
      else
        var status := AbsentNameVerdict(raw, cfg.wholeTarget, singleton);
        var integrity := if cfg.wholeTarget then Complete else MissingTerminalResult;
        Attempt(BestObs(status, integrity, measured, maxMemory), None, execution, false)
  }

  function Copies<T>(item: T, count: nat): seq<T> {
    if count == 0 then [] else Copies(item, count - 1) + [item]
  }

  function AttemptsOf(cfg: Config, batched: bool, runs: seq<GroupRun>, name: Name): seq<Attempt> {
    if runs == [] then []
    else
      var last := runs[|runs| - 1];
      AttemptsOf(cfg, batched, runs[..|runs| - 1], name)
      + Copies(AttemptOf(cfg, batched, last, name), Entries(cfg, last, name))
  }

  /** `merge_best` for one name: an incomplete result wins and sticks, else the first pass does. */
  function Merge(existing: Option<BestObs>, incoming: BestObs): BestObs {
    if incoming.integrity == MissingTerminalResult then incoming
    else if existing.Some? && (existing.value.integrity == MissingTerminalResult || !existing.value.status.IsFailure())
    then existing.value
    else incoming
  }

  function Standing(trail: seq<Attempt>): Option<BestObs> {
    if trail == [] then None
    else Some(Merge(Standing(trail[..|trail| - 1]), trail[|trail| - 1].best))
  }

  function HistoryEntry(attempt: Attempt): AttemptObservation {
    AttemptObservation(attempt.best.status, attempt.best.duration, attempt.caseDuration, attempt.execution)
  }

  function History(trail: seq<Attempt>): seq<AttemptObservation> {
    if trail == [] then [] else History(trail[..|trail| - 1]) + [HistoryEntry(trail[|trail| - 1])]
  }

  /** Only an attempt the harness itself reported, in a physical run, is a duration sample. */
  predicate IsSample(attempt: Attempt) {
    attempt.fromHarness && attempt.execution.Physical? && attempt.best.duration.Measured?
  }

  function SampleOf(attempt: Attempt): DbObservation
    requires IsSample(attempt)
  {
    DbObservation(
      attempt.best.duration.elapsed,
      attempt.best.status.IsFailure(),
      FailureClassOf(attempt.best.status),
      attempt.execution.environment)
  }

  function Samples(trail: seq<Attempt>): seq<DbObservation> {
    if trail == [] then []
    else
      var last := trail[|trail| - 1];
      Samples(trail[..|trail| - 1]) + (if IsSample(last) then [SampleOf(last)] else [])
  }

  // ---------------------------------------------------------------- the retry rules

  /**
   * One call of `execute_test_action`: what it is asked to run and what it inherits. `prior` are
   * the attempts that count for the results, and `handedOn` those that the call has to report.
   */
  datatype Plan = Plan(
    members: seq<Name>,
    selection: Selection,
    firstIndex: nat,
    prior: map<Name, seq<Attempt>>,
    handedOn: map<Name, seq<Attempt>>)
  {
    predicate Batched() {
      |members| > 1
    }

    /** A call that inherits nothing. */
    predicate Fresh() {
      prior == map[] && handedOn == map[]
    }

    function PriorOf(name: Name): seq<Attempt> {
      if name in prior then prior[name] else []
    }

    function HandedOnOf(name: Name): seq<Attempt> {
      if name in handedOn then handedOn[name] else []
    }
  }

  /** The attempts that decide a name's result. */
  function Trail(cfg: Config, plan: Plan, runs: seq<GroupRun>, name: Name): seq<Attempt> {
    plan.PriorOf(name) + AttemptsOf(cfg, plan.Batched(), runs, name)
  }

  /** The attempts that are reported with a name. */
  function Recorded(cfg: Config, plan: Plan, runs: seq<GroupRun>, name: Name): seq<Attempt> {
    plan.HandedOnOf(name) + AttemptsOf(cfg, plan.Batched(), runs, name)
  }

  predicate Failing(trail: seq<Attempt>) {
    Standing(trail).None? || Standing(trail).value.status.IsFailure()
  }

  function FailingAmong(cfg: Config, plan: Plan, runs: seq<GroupRun>, names: seq<Name>): seq<Name> {
    if names == [] then []
    else
      var last := names[|names| - 1];
      FailingAmong(cfg, plan, runs, names[..|names| - 1])
      + (if Failing(Trail(cfg, plan, runs, last)) then [last] else [])
  }

  /** The larger of the two budgets for a test that is known to be flaky, else that of its target. */
  function AllowedAttempts(cfg: Config, name: Name): (allowed: nat)
    ensures cfg.maxAttempts <= allowed
    ensures name in cfg.knownFlakes ==> cfg.tomlAttempts <= allowed
    ensures allowed == cfg.maxAttempts || (name in cfg.knownFlakes && allowed == cfg.tomlAttempts)
  {
    var toml := if name in cfg.knownFlakes then cfg.tomlAttempts else 0;
    if cfg.maxAttempts < toml then toml else cfg.maxAttempts
  }

  /** The names whose own attempt budget exceeds the attempts already spent on failures. */
  function Retryable(cfg: Config, names: seq<Name>, spent: nat): seq<Name> {
    if names == [] then []
    else
      var last := names[|names| - 1];
      Retryable(cfg, names[..|names| - 1], spent)
      + (if spent + 1 < AllowedAttempts(cfg, last) then [last] else [])
  }

  /** Action timeouts so far. */
  function Timeouts(runs: seq<GroupRun>): nat {
    if runs == [] then 0
    else Timeouts(runs[..|runs| - 1]) + (if runs[|runs| - 1].ActionTimedOut() then 1 else 0)
  }

  /** Reruns so far that were charged to the failure budget rather than to an action timeout. */
  function FailureRetries(runs: seq<GroupRun>): nat {
    if |runs| <= 1 then 0
    else FailureRetries(runs[..|runs| - 1]) + (if runs[|runs| - 2].ActionTimedOut() then 0 else 1)
  }

  datatype Move = Rerun(names: seq<Name>) | Isolate(names: seq<Name>) | Stop

  /** What the action does after the group runs so far. */
  function Next(cfg: Config, plan: Plan, runs: seq<GroupRun>): Move {
    if runs == [] then Rerun(plan.members)
    else
      var failing := FailingAmong(cfg, plan, runs, plan.members);
      if failing == [] then Stop
      else if runs[|runs| - 1].ActionTimedOut() then
        if Timeouts(runs) < INFRA_MAX_ATTEMPTS then Rerun(failing) else Stop
      else
        var retryable := Retryable(cfg, failing, FailureRetries(runs));
        if retryable != [] then Rerun(retryable)
        else if plan.Batched() && cfg.policy == RerunPerTestToIsolate then Isolate(failing)
        else Stop
  }

  function RequestCount(runs: seq<GroupRun>): nat {
    if runs == [] then 0 else RequestCount(runs[..|runs| - 1]) + |runs[|runs| - 1].requests|
  }

  /** The group run that the rules ask for after `before`, performed as `run_group` may. */
  ghost predicate Follows(cfg: Config, plan: Plan, oracle: Oracle, before: seq<GroupRun>, run: GroupRun) {
    && Next(cfg, plan, before) == Rerun(run.names)
    && run.selection == (if FailureRetries(before + [run]) == 0 then plan.selection else Explicit(run.names))
    && ValidGroup(cfg, oracle, RequestCount(before), plan.firstIndex + |before|, run)
  }

  /** The logs the retry rules allow, up to any point of the action call. */
  ghost predicate IsRun(cfg: Config, plan: Plan, oracle: Oracle, runs: seq<GroupRun>) {
    forall k {:trigger Follows(cfg, plan, oracle, runs[..k], runs[k])} :: 0 <= k < |runs| ==>
      Follows(cfg, plan, oracle, runs[..k], runs[k])
  }

  ghost predicate IsCompleteRun(cfg: Config, plan: Plan, oracle: Oracle, runs: seq<GroupRun>) {
    runs != [] && IsRun(cfg, plan, oracle, runs) && !Next(cfg, plan, runs).Rerun?
  }

  /** A call asks for its members, and inherits only names that are still failing. */
  predicate WellFormed(plan: Plan) {
    && (plan.selection == All || plan.selection == Explicit(plan.members))
    && (forall n :: n in plan.members ==> Failing(plan.PriorOf(n)))
  }

  // ---------------------------------------------------------------- reported results

  datatype FinishedTest = FinishedTest(
    name: Name,
    repeatIndex: nat,
    outcome: BestObs,
    observations: seq<DbObservation>,
    history: seq<AttemptObservation>)

  const MISSING: BestObs := BestObs(Fatal, MissingTerminalResult, Unmeasured, None)

  function OutcomeOf(trail: seq<Attempt>): BestObs {
    var standing := Standing(trail);
    if standing.Some? then standing.value else MISSING
  }

  function Summarize(name: Name, repeatIndex: nat, trail: seq<Attempt>, record: seq<Attempt>): FinishedTest {
    FinishedTest(name, repeatIndex, OutcomeOf(trail), Samples(record), History(record))
  }

  /**
   * The call that re-runs the j-th failing member alone. It inherits that member's result; its
   * record is moved out of the batch, so a name that is listed twice hands it on only once.
   */
  function IsolationPlan(cfg: Config, plan: Plan, runs: seq<GroupRun>, failing: seq<Name>, j: nat): Plan
    requires j < |failing|
  {
    var name := failing[j];
    Plan(
      [name],
      Explicit([name]),
      plan.firstIndex + |runs|,
      map[name := Trail(cfg, plan, runs, name)],
      if name in failing[..j] then map[] else map[name := Recorded(cfg, plan, runs, name)])
  }

  /** What a call did: the group runs of the batch, and those of each member it isolated. */
  datatype ActionLog = ActionLog(runs: seq<GroupRun>, isolated: seq<seq<GroupRun>>)

  ghost predicate IsolatedAs(cfg: Config, plan: Plan, world: World, log: ActionLog, failing: seq<Name>, j: nat)
    requires j < |failing| && j < |log.isolated|
  {
    IsCompleteRun(cfg, IsolationPlan(cfg, plan, log.runs, failing, j), world.single(j), log.isolated[j])
  }

  /** A whole action call: the batch log, and a log for each member it isolates. */
  ghost predicate IsAction(cfg: Config, plan: Plan, world: World, log: ActionLog) {
    && IsCompleteRun(cfg, plan, world.batch, log.runs)
    && (match Next(cfg, plan, log.runs)
        case Isolate(failing) =>
          && |log.isolated| == |failing|
          && (forall j :: 0 <= j < |failing| ==> IsolatedAs(cfg, plan, world, log, failing, j))
        case _ => log.isolated == [])
  }

  /** The order of the results: members settled by the batch first, then the isolated ones. */
  function ReportOrder(cfg: Config, plan: Plan, runs: seq<GroupRun>): seq<Name> {
    match Next(cfg, plan, runs)
    case Isolate(failing) => PassingAmong(cfg, plan, runs, plan.members) + failing
    case _ => plan.members
  }

  /** How many of the results are the batch's own; the others come from isolated re-runs. */
  function OwnResults(cfg: Config, plan: Plan, runs: seq<GroupRun>): nat {
    match Next(cfg, plan, runs)
    case Isolate(_) => |PassingAmong(cfg, plan, runs, plan.members)|
    case _ => |plan.members|
  }

  /** The call and the log behind the i-th result. */
  function CallOf(cfg: Config, plan: Plan, log: ActionLog, i: nat): (Plan, seq<GroupRun>) {
    var own := OwnResults(cfg, plan, log.runs);
    if Next(cfg, plan, log.runs).Isolate? && own <= i < own + |Next(cfg, plan, log.runs).names|
      && i - own < |log.isolated|
    then (IsolationPlan(cfg, plan, log.runs, Next(cfg, plan, log.runs).names, i - own), log.isolated[i - own])
    else (plan, log.runs)
  }

  /** Every attempt that decides the i-th result, over the batch and an isolated re-run. */
  function TrailAt(cfg: Config, plan: Plan, log: ActionLog, i: nat): seq<Attempt>
    requires i < |ReportOrder(cfg, plan, log.runs)|
  {
    var (call, runs) := CallOf(cfg, plan, log, i);
    Trail(cfg, call, runs, ReportOrder(cfg, plan, log.runs)[i])
  }

  /** Every attempt reported with the i-th result; a settled name that is listed twice reports them once. */
  function RecordAt(cfg: Config, plan: Plan, log: ActionLog, i: nat): seq<Attempt>
    requires i < |ReportOrder(cfg, plan, log.runs)|
  {
    var order := ReportOrder(cfg, plan, log.runs);
    var (call, runs) := CallOf(cfg, plan, log, i);
    if i < OwnResults(cfg, plan, log.runs) && order[i] in order[..i] then []
    else Recorded(cfg, call, runs, order[i])
  }

  function PassingAmong(cfg: Config, plan: Plan, runs: seq<GroupRun>, names: seq<Name>): seq<Name> {
    if names == [] then []
    else
      var last := names[|names| - 1];
      PassingAmong(cfg, plan, runs, names[..|names| - 1])
      + (if Failing(Trail(cfg, plan, runs, last)) then [] else [last])
  }
}
