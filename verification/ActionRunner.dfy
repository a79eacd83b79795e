/** The action runner itself: the loops of `execute_test_action`, `run_group` and `isolate_failures`. */
module ActionRunner {
  import opened Results
  import opened ActionModel
  import ActionTheorems

  // ---------------------------------------------------------------- one group

  /** Whether any of the names has no history yet; such an action must not be served from a cache. */
  method HasUnseen(cfg: Config, names: seq<Name>) returns (found: bool)
    ensures found <==> cfg.bustUnseen && exists n :: n in names && n in cfg.unseen
  {
    found := false;
    if cfg.bustUnseen {
      for i := 0 to |names|
        invariant !found
        invariant forall j :: 0 <= j < i ==> names[j] !in cfg.unseen
      {
        if names[i] in cfg.unseen {
          found := true;
          break;
        }
      }
    }
  }

  lemma FirstStopIs(cfg: Config, names: seq<Name>, markers: seq<ResourceFailure>, k: nat)
    requires k < |markers| && StopsGroup(cfg, names, markers[k])
    requires forall j :: 0 <= j < k ==> !StopsGroup(cfg, names, markers[j])
    ensures FirstStop(cfg, names, markers) == k
  {
  }

  /** Walk the resource markers of a completed action, stopping at the first one that ends the group. */
  method JudgeCompleted(cfg: Config, names: seq<Name>, action: CompletedAction) returns (outcome: GroupOutcome)
    ensures outcome == Judge(cfg, names, action)
  {
    var observations := action.observations;
    var actionOom := false;
    var markers := action.markers;
    for i := 0 to |markers|
      invariant forall j :: 0 <= j < i ==> !StopsGroup(cfg, names, markers[j])
      invariant observations == Marked(names, markers[..i], action.observations)
      invariant actionOom <==> ActionOom in markers[..i]
    {
      assert markers[..i + 1][..i] == markers[..i];
      if StopsGroup(cfg, names, markers[i]) {
        FirstStopIs(cfg, names, markers, i);
        return Stopped(cfg, markers[i], action);
      }
      match markers[i] {
        case LogicalTimeout(_) => observations := observations[names[0] := Observation(Timeout, None)];
        case LogicalOom(_) => observations := observations[names[0] := Observation(Fail, None)];
        case ActionOom => actionOom := true;
        case _ =>
      }
    }
    assert markers[..|markers|] == markers;
    return Observed(
        observations, action.status, actionOom, action.executionTime, action.maxMemory, ExecutionOf(action.kind));
  }

  lemma GroupIsValid(cfg: Config, oracle: Oracle, cursor: nat, firstIndex: nat, run: GroupRun)
    requires MemoryMaxFor(cfg, run.names).Some?
    requires 1 <= |run.requests| <= INFRA_MAX_ATTEMPTS
    requires forall i :: 0 <= i < |run.requests| ==>
               run.requests[i] == Request(
                 run.selection, firstIndex + i, CachingEnabled(cfg, run.names, firstIndex + i),
                 MemoryMaxFor(cfg, run.names).value)
    requires forall at :: cursor <= at < cursor + |run.requests| - 1 ==> Queued(oracle, at)
    requires Queued(oracle, cursor + |run.requests| - 1) ==> |run.requests| == INFRA_MAX_ATTEMPTS
    requires run.outcome == Conclude(cfg, run.names, oracle(cursor + |run.requests| - 1))
    ensures ValidGroup(cfg, oracle, cursor, firstIndex, run)
  {
    hide MemoryMaxFor, Conclude, CachingEnabled;
  }

  /** Run one group once, with bounded retries of queue timeouts. */
  method RunGroup(cfg: Config, oracle: Oracle, cursor: nat, firstIndex: nat, selection: Selection, names: seq<Name>)
    returns (run: GroupRun)
    ensures run.names == names && run.selection == selection
    ensures ValidGroup(cfg, oracle, cursor, firstIndex, run)
  {
    var infraAttempt: nat := 0;
    var requests: seq<Request> := [];
    while true
      invariant infraAttempt == |requests| < INFRA_MAX_ATTEMPTS
      invariant requests != [] ==> MemoryMaxFor(cfg, names).Some?
      invariant forall i :: 0 <= i < |requests| ==>
                  && requests[i] == Request(
                       selection, firstIndex + i, CachingEnabled(cfg, names, firstIndex + i),
                       MemoryMaxFor(cfg, names).value)
      invariant forall at :: cursor <= at < cursor + infraAttempt ==> Queued(oracle, at)
      decreases INFRA_MAX_ATTEMPTS - infraAttempt
    {
      var attemptIndex := firstIndex + infraAttempt;
      var hasUnseen := HasUnseen(cfg, names);
      var caching := cfg.cacheClass == Cacheable && cfg.defaultVariant && !cfg.stress && attemptIndex == 0;
      if hasUnseen {
        caching := false;
      }
      var memoryMax := MemoryMaxFor(cfg, names);
      if memoryMax.None? {
        return GroupRun(names, selection, requests, Unrun(Fatal));
      }
      requests := requests + [Request(selection, attemptIndex, caching, memoryMax.value)];
      var response := oracle(cursor + infraAttempt);
      var outcome;
      match response {
        case Completed(action) =>
          outcome := JudgeCompleted(cfg, names, action);
        case CancelledQueueTimeout =>
          if infraAttempt + 1 < INFRA_MAX_ATTEMPTS {
            assert Queued(oracle, cursor + infraAttempt);
            infraAttempt := infraAttempt + 1;
            continue;
          }
          outcome := Unrun(InfraFailure);
        case CancelledUnspecified => outcome := Unrun(Omitted);
        case MalformedResponse => outcome := Unrun(InfraFailure);
        case RpcError => outcome := Unrun(Fatal);
      }
      run := GroupRun(names, selection, requests, outcome);
      GroupIsValid(cfg, oracle, cursor, firstIndex, run);
      return;
    }
  }

  // ---------------------------------------------------------------- per-name accumulation

  /** The maps an action keeps per test name; isolation hands one member's entries on. */
  datatype ActionState = ActionState(
    best: map<Name, BestObs>,
    attempts: map<Name, seq<DbObservation>>,
    history: map<Name, seq<AttemptObservation>>)

  function GetOr<V>(m: map<Name, seq<V>>, name: Name): seq<V> {
    if name in m then m[name] else []
  }

  /** The entries of a name are what the attempts that decide it and the attempts to report amount to. */
  ghost predicate TracksName(state: ActionState, name: Name, trail: seq<Attempt>, record: seq<Attempt>) {
    && (if name in state.best then Standing(trail) == Some(state.best[name]) else trail == [])
    && Samples(record) == GetOr(state.attempts, name)
    && History(record) == GetOr(state.history, name)
  }

  /** The maps hold, for every name, exactly what the attempts of the log so far amount to. */
  ghost predicate Tracks(state: ActionState, cfg: Config, plan: Plan, runs: seq<GroupRun>) {
    forall n: Name :: TracksName(state, n, Trail(cfg, plan, runs, n), Recorded(cfg, plan, runs, n))
  }

  function Lookup<V>(m: map<Name, V>, name: Name): Option<V> {
    if name in m then Some(m[name]) else None
  }

  /** Keep an incomplete result over everything, else an earlier pass over any later result. */
  method MergeBest(best: map<Name, BestObs>, name: Name, incoming: BestObs) returns (merged: map<Name, BestObs>)
    ensures merged == best[name := Merge(Lookup(best, name), incoming)]
  {
    merged := best;
    if incoming.integrity == MissingTerminalResult {
      merged := merged[name := incoming];
      return;
    }
    if name in best && best[name].integrity == MissingTerminalResult {
      return;
    }
    if name in best && !best[name].status.IsFailure() {
      return;
    }
    merged := merged[name := incoming];
  }

  lemma ExtendTrail(
    state: ActionState, next: ActionState, name: Name, trail: seq<Attempt>, record: seq<Attempt>, attempt: Attempt)
    requires next.best == state.best[name := Merge(Lookup(state.best, name), attempt.best)]
    requires next.history == state.history[name := GetOr(state.history, name) + [HistoryEntry(attempt)]]
    requires next.attempts ==
             if IsSample(attempt) then state.attempts[name := GetOr(state.attempts, name) + [SampleOf(attempt)]]
             else state.attempts
    requires TracksName(state, name, trail, record)
    ensures TracksName(next, name, trail + [attempt], record + [attempt])
  {
    assert (trail + [attempt])[..|trail|] == trail;
    assert (record + [attempt])[..|record|] == record;
  }

  method RecordAttempt(state: ActionState, name: Name, attempt: Attempt) returns (next: ActionState)
    ensures next.best == state.best[name := Merge(Lookup(state.best, name), attempt.best)]
    ensures next.history == state.history[name := GetOr(state.history, name) + [HistoryEntry(attempt)]]
    ensures next.attempts ==
             if IsSample(attempt) then state.attempts[name := GetOr(state.attempts, name) + [SampleOf(attempt)]]
             else state.attempts
  {
    var attempts := state.attempts;
    if IsSample(attempt) {
      attempts := attempts[name := GetOr(attempts, name) + [SampleOf(attempt)]];
    }
    var history := state.history[name := GetOr(state.history, name) + [HistoryEntry(attempt)]];
    var best := MergeBest(state.best, name, attempt.best);
    next := ActionState(best, attempts, history);
  }

  method KeysOf(observations: map<Name, Observation>) returns (names: seq<Name>)
    ensures Distinct(names)
    ensures |names| == |observations|
    ensures forall n :: n in names <==> n in observations
  {
    names := [];
    var rest := observations.Keys;
    while rest != {}
      invariant Distinct(names)
      invariant |names| + |rest| == |observations.Keys|
      invariant forall n :: n in observations <==> n in names || n in rest
      invariant forall n :: n in names ==> n !in rest
      decreases rest
    {
      var n :| n in rest;
      names := names + [n];
      rest := rest - {n};
    }
  }

  /** The attempts of `n` once the entry of every name in `done` has been added. */
  ghost function Extended(
    base: Name -> seq<Attempt>, entryOf: Name -> Attempt, done: seq<Name>, n: Name): seq<Attempt>
  {
    base(n) + Copies(entryOf(n), multiset(done)[n])
  }

  lemma {:induction false} ExtendedStep(
    base: Name -> seq<Attempt>, entryOf: Name -> Attempt, done: seq<Name>, name: Name, n: Name)
    ensures Extended(base, entryOf, done + [name], n) ==
            Extended(base, entryOf, done, n) + (if n == name then [entryOf(n)] else [])
  {
    assert multiset(done + [name])[n] == multiset(done)[n] + (if n == name then 1 else 0);
  }

  lemma RecordStep(
    previous: ActionState, next: ActionState,
    trailOf: Name -> seq<Attempt>, recordOf: Name -> seq<Attempt>, entryOf: Name -> Attempt, done: seq<Name>,
    name: Name)
    requires forall n: Name ::
               TracksName(previous, n, Extended(trailOf, entryOf, done, n), Extended(recordOf, entryOf, done, n))
    requires next.best == previous.best[name := Merge(Lookup(previous.best, name), entryOf(name).best)]
    requires next.history == previous.history[name := GetOr(previous.history, name) + [HistoryEntry(entryOf(name))]]
    requires next.attempts ==
             if IsSample(entryOf(name))
             then previous.attempts[name := GetOr(previous.attempts, name) + [SampleOf(entryOf(name))]]
             else previous.attempts
    ensures forall n: Name ::
              TracksName(
                next, n, Extended(trailOf, entryOf, done + [name], n),
                Extended(recordOf, entryOf, done + [name], n))
  {
    hide Extended;
    forall n: Name
      ensures TracksName(
                next, n, Extended(trailOf, entryOf, done + [name], n),
                Extended(recordOf, entryOf, done + [name], n))
    {
      var trail, record := Extended(trailOf, entryOf, done, n), Extended(recordOf, entryOf, done, n);
      assert TracksName(previous, n, trail, record);
      ExtendedStep(trailOf, entryOf, done, name, n);
      ExtendedStep(recordOf, entryOf, done, name, n);
      if n == name {
        ExtendTrail(previous, next, name, trail, record, entryOf(name));
      } else {
        assert trail + [] == trail && record + [] == record;
      }
    }
  }

  lemma {:induction false} DistinctCounts(names: seq<Name>, n: Name)
    requires Distinct(names)
    ensures multiset(names)[n] == if n in names then 1 else 0
  {
    if names != [] {
      var last := |names| - 1;
      assert names == names[..last] + [names[last]];
      DistinctCounts(names[..last], n);
    }
  }

  /** The names a group run records attempts for, each as often as it records one. */
  method RecordedNames(cfg: Config, run: GroupRun) returns (names: seq<Name>)
    ensures forall n :: multiset(names)[n] == Entries(cfg, run, n)
  {
    if !ReportsObservedNames(cfg, run) {
      return run.names;
    }
    names := KeysOf(run.outcome.observations);
    forall n: Name
      ensures multiset(names)[n] == Entries(cfg, run, n)
    {
      DistinctCounts(names, n);
    }
  }

  /** Record the outcome of one group run under every name it reports on. */
  method RecordRun(
    state: ActionState, cfg: Config, batched: bool, run: GroupRun,
    ghost trailOf: Name -> seq<Attempt>, ghost recordOf: Name -> seq<Attempt>, ghost entryOf: Name -> Attempt)
    returns (next: ActionState)
    requires forall n: Name :: TracksName(state, n, trailOf(n), recordOf(n))
    requires forall n: Name :: entryOf(n) == AttemptOf(cfg, batched, run, n)
    ensures forall n: Name ::
              TracksName(
                next, n, trailOf(n) + Copies(entryOf(n), Entries(cfg, run, n)),
                recordOf(n) + Copies(entryOf(n), Entries(cfg, run, n)))
  {
    hide AttemptOf, Entries, TracksName;
    var names := RecordedNames(cfg, run);
    next := state;
    forall n: Name
      ensures TracksName(next, n, Extended(trailOf, entryOf, [], n), Extended(recordOf, entryOf, [], n))
    {
      assert trailOf(n) + [] == trailOf(n) && recordOf(n) + [] == recordOf(n);
    }
    hide Extended;
    assert names[..0] == [];
    for i := 0 to |names|
      invariant forall n: Name ::
                  TracksName(
                    next, n, Extended(trailOf, entryOf, names[..i], n),
                    Extended(recordOf, entryOf, names[..i], n))
    {
      var name := names[i];
      ghost var previous := next;
      next := RecordAttempt(next, name, AttemptOf(cfg, batched, run, name));
      RecordStep(previous, next, trailOf, recordOf, entryOf, names[..i], name);
      assert names[..i + 1] == names[..i] + [name];
    }
    assert names[..|names|] == names;
    forall n: Name
      ensures TracksName(
                next, n, trailOf(n) + Copies(entryOf(n), Entries(cfg, run, n)),
                recordOf(n) + Copies(entryOf(n), Entries(cfg, run, n)))
    {
      assert TracksName(next, n, Extended(trailOf, entryOf, names, n), Extended(recordOf, entryOf, names, n));
      ExtendedIs(trailOf, entryOf, names, n);
      ExtendedIs(recordOf, entryOf, names, n);
    }
  }

  lemma {:induction false} ExtendedIs(base: Name -> seq<Attempt>, entryOf: Name -> Attempt, done: seq<Name>, n: Name)
    ensures Extended(base, entryOf, done, n) == base(n) + Copies(entryOf(n), multiset(done)[n])
  {
  }

  /** The members that are not settled by the results so far. */
  method StillFailing(
      state: ActionState, members: seq<Name>, ghost cfg: Config, ghost plan: Plan, ghost runs: seq<GroupRun>)
    returns (failing: seq<Name>)
    requires Tracks(state, cfg, plan, runs)
    ensures failing == FailingAmong(cfg, plan, runs, members)
  {
    failing := [];
    for i := 0 to |members|
      invariant failing == FailingAmong(cfg, plan, runs, members[..i])
    {
      var name := members[i];
      assert members[..i + 1][..i] == members[..i];
      assert TracksName(state, name, Trail(cfg, plan, runs, name), Recorded(cfg, plan, runs, name));
      if name !in state.best || state.best[name].status.IsFailure() {
        failing := failing + [name];
      }
    }
    assert members[..|members|] == members;
  }

  method RetryPending(cfg: Config, failing: seq<Name>, failureAttempt: nat) returns (pending: seq<Name>)
    ensures pending == Retryable(cfg, failing, failureAttempt)
  {
    pending := [];
    for i := 0 to |failing|
      invariant pending == Retryable(cfg, failing[..i], failureAttempt)
    {
      assert failing[..i + 1][..i] == failing[..i];
      if failureAttempt + 1 < AllowedAttempts(cfg, failing[i]) {
        pending := pending + [failing[i]];
      }
    }
    assert failing[..|failing|] == failing;
  }

  // ---------------------------------------------------------------- the retry loop

  /** Failure retries charged before the run that follows this log. */
  function Spent(runs: seq<GroupRun>): nat {
    if runs == [] then 0
    else FailureRetries(runs) + (if runs[|runs| - 1].ActionTimedOut() then 0 else 1)
  }

  lemma {:induction false} AppendCounts(runs: seq<GroupRun>, run: GroupRun)
    ensures (runs + [run])[..|runs|] == runs
    ensures RequestCount(runs + [run]) == RequestCount(runs) + |run.requests|
    ensures FailureRetries(runs + [run]) == Spent(runs)
    ensures Timeouts(runs + [run]) == Timeouts(runs) + (if run.ActionTimedOut() then 1 else 0)
  {
    assert (runs + [run])[..|runs|] == runs;
  }

  lemma {:induction false} AppendRun(cfg: Config, plan: Plan, oracle: Oracle, runs: seq<GroupRun>, run: GroupRun)
    requires IsRun(cfg, plan, oracle, runs)
    requires Follows(cfg, plan, oracle, runs, run)
    ensures IsRun(cfg, plan, oracle, runs + [run])
  {
    hide Follows;
    var extended := runs + [run];
    forall k | 0 <= k < |extended|
      ensures Follows(cfg, plan, oracle, extended[..k], extended[k])
    {
      if k < |runs| {
        assert extended[..k] == runs[..k] && extended[k] == runs[k];
      } else {
        assert extended[..k] == runs;
      }
    }
  }

  lemma {:induction false} AppendTrail(cfg: Config, plan: Plan, runs: seq<GroupRun>, run: GroupRun, name: Name)
    ensures var entries := Copies(AttemptOf(cfg, plan.Batched(), run, name), Entries(cfg, run, name));
            && Trail(cfg, plan, runs + [run], name) == Trail(cfg, plan, runs, name) + entries
            && Recorded(cfg, plan, runs + [run], name) == Recorded(cfg, plan, runs, name) + entries
  {
    hide AttemptOf, Entries, Copies;
    AppendCounts(runs, run);
  }

  lemma {:induction false} AppendTracks(
    state: ActionState, cfg: Config, plan: Plan, runs: seq<GroupRun>, run: GroupRun,
    trailOf: Name -> seq<Attempt>, recordOf: Name -> seq<Attempt>, entryOf: Name -> Attempt)
    requires forall n: Name :: trailOf(n) == Trail(cfg, plan, runs, n)
    requires forall n: Name :: recordOf(n) == Recorded(cfg, plan, runs, n)
    requires forall n: Name :: entryOf(n) == AttemptOf(cfg, plan.Batched(), run, n)
    requires forall n: Name ::
               TracksName(
                 state, n, trailOf(n) + Copies(entryOf(n), Entries(cfg, run, n)),
                 recordOf(n) + Copies(entryOf(n), Entries(cfg, run, n)))
    ensures Tracks(state, cfg, plan, runs + [run])
  {
    hide TracksName, Trail, Recorded, AttemptOf, Entries, Copies;
    forall n: Name
      ensures TracksName(state, n, Trail(cfg, plan, runs + [run], n), Recorded(cfg, plan, runs + [run], n))
    {
      AppendTrail(cfg, plan, runs, run, n);
      assert trailOf(n) == Trail(cfg, plan, runs, n) && recordOf(n) == Recorded(cfg, plan, runs, n);
    }
  }

  lemma {:induction false} RetryableWithinBudget(cfg: Config, names: seq<Name>, spent: nat, bound: nat)
    requires ActionTheorems.AllowsAtMost(cfg, names, bound)
    requires Retryable(cfg, names, spent) != []
    ensures spent + 1 < bound
  {
    ActionTheorems.RetryableIs(cfg, names, spent, Retryable(cfg, names, spent)[0]);
  }

  /** Run the pending group and record it; the maps and the log move on together. */
  method RunPending(
    cfg: Config, oracle: Oracle, cursor: nat, selection: Selection, pending: seq<Name>, batched: bool,
    attemptIndex: nat,
    state: ActionState, ghost plan: Plan, ghost runs: seq<GroupRun>)
    returns (next: ActionState, run: GroupRun)
    requires IsRun(cfg, plan, oracle, runs)
    requires Next(cfg, plan, runs) == Rerun(pending)
    requires selection == (if Spent(runs) == 0 then plan.selection else Explicit(pending))
    requires cursor == RequestCount(runs) && attemptIndex == plan.firstIndex + |runs|
    requires batched == plan.Batched()
    requires Tracks(state, cfg, plan, runs)
    ensures IsRun(cfg, plan, oracle, runs + [run])
    ensures Tracks(next, cfg, plan, runs + [run])
  {
    hide Next, ValidGroup, Trail, Recorded, AttemptOf, Entries, Copies, TracksName;
    run := RunGroup(cfg, oracle, cursor, attemptIndex, selection, pending);
    ghost var trailOf := (n: Name) => Trail(cfg, plan, runs, n);
    ghost var entryOf := (n: Name) => AttemptOf(cfg, batched, run, n);
    ghost var recordOf := (n: Name) => Recorded(cfg, plan, runs, n);
    next := RecordRun(state, cfg, batched, run, trailOf, recordOf, entryOf);
    AppendTracks(next, cfg, plan, runs, run, trailOf, recordOf, entryOf);
    AppendCounts(runs, run);
    AppendRun(cfg, plan, oracle, runs, run);
  }

  /** What follows the latest group run: stop, rerun some members, or isolate them. */
  method Decide(
    cfg: Config, members: seq<Name>, state: ActionState, latest: GroupRun, failureAttempt: nat,
    actionTimeoutAttempts: nat,
    ghost plan: Plan, ghost runs: seq<GroupRun>)
    returns (move: Move)
    requires runs != [] && latest == runs[|runs| - 1]
    requires members == plan.members
    requires failureAttempt == FailureRetries(runs)
    requires actionTimeoutAttempts == Timeouts(runs)
    requires Tracks(state, cfg, plan, runs)
    ensures move == Next(cfg, plan, runs)
    ensures move.Isolate? ==> |members| > 1 && move.names == FailingAmong(cfg, plan, runs, members)
    ensures move.Rerun? && !latest.ActionTimedOut() ==> failureAttempt + 1 < ActionTheorems.MaxAllowed(cfg, members)
    ensures move.Rerun? && latest.ActionTimedOut() ==> actionTimeoutAttempts < INFRA_MAX_ATTEMPTS
  {
    hide Trail, Failing, AllowedAttempts;
    ActionTheorems.FailingWithinBound(cfg, plan, runs, members);
    var failing := StillFailing(state, members, cfg, plan, runs);
    if failing == [] {
      return Stop;
    }
    if latest.ActionTimedOut() {
      if actionTimeoutAttempts < INFRA_MAX_ATTEMPTS {
        return Rerun(failing);
      }
      return Stop;
    }
    var retry := RetryPending(cfg, failing, failureAttempt);
    if retry != [] {
      RetryableWithinBudget(cfg, failing, failureAttempt, ActionTheorems.MaxAllowed(cfg, members));
      return Rerun(retry);
    }
    if |members| > 1 && cfg.policy == RerunPerTestToIsolate {
      return Isolate(failing);
    }
    return Stop;
  }

  lemma {:induction false} MembersTracked(state: ActionState, cfg: Config, plan: Plan, runs: seq<GroupRun>)
    requires Tracks(state, cfg, plan, runs)
    ensures forall n :: n in plan.members ==>
              TracksName(state, n, Trail(cfg, plan, runs, n), Recorded(cfg, plan, runs, n))
  {
    hide Trail, Recorded, TracksName;
  }

  lemma {:induction false} ActionStarts(cfg: Config, plan: Plan, oracle: Oracle)
    ensures IsRun(cfg, plan, oracle, [])
    ensures Next(cfg, plan, []) == Rerun(plan.members)
    ensures RequestCount([]) == Spent([]) == Timeouts([]) == 0
  {
  }

  lemma {:induction false} ActionStops(
    cfg: Config, plan: Plan, world: World, runs: seq<GroupRun>, repeatIndex: nat, finished: seq<FinishedTest>)
    requires runs != [] && IsRun(cfg, plan, world.batch, runs)
    requires Next(cfg, plan, runs) == Stop
    requires |finished| == |plan.members|
    requires forall i :: 0 <= i < |finished| ==>
               finished[i] == Summarize(
                 plan.members[i], repeatIndex, Trail(cfg, plan, runs, plan.members[i]),
                 FirstOnly(plan.members, i, Recorded(cfg, plan, runs, plan.members[i])))
    ensures IsAction(cfg, plan, world, ActionLog(runs, []))
    ensures Reports(cfg, plan, ActionLog(runs, []), repeatIndex, finished)
  {
    hide IsRun, Next, Trail, Recorded, Summarize;
  }

  /**
   * One action: run the pending members, retry what may be retried, and isolate what a batch
   * leaves failing. The log is one the retry rules allow, and each member's result is the summary
   * of exactly its own attempts in that log.
   */
  method ExecuteTestAction(
    cfg: Config, world: World, selection: Selection, members: seq<Name>, repeatIndex: nat, firstIndex: nat,
    prior: ActionState, ghost priorTrails: map<Name, seq<Attempt>>, ghost handedOn: map<Name, seq<Attempt>>)
    returns (finished: seq<FinishedTest>, log: ActionLog)
    requires Tracks(prior, cfg, Plan(members, selection, firstIndex, priorTrails, handedOn), [])
    ensures IsAction(cfg, Plan(members, selection, firstIndex, priorTrails, handedOn), world, log)
    ensures Reports(cfg, Plan(members, selection, firstIndex, priorTrails, handedOn), log, repeatIndex, finished)
    decreases |members|, 2
  {
    hide IsAction, Reports, IsRun, Next, Tracks, Trail, Recorded, Summarize;
    ghost var plan := Plan(members, selection, firstIndex, priorTrails, handedOn);
    ActionStarts(cfg, plan, world.batch);
    ghost var bound := ActionTheorems.MaxAllowed(cfg, members);
    var runs: seq<GroupRun> := [];
    var state := prior;
    var pending := members;
    var failureAttempt: nat := 0;
    var actionTimeoutAttempts: nat := 0;
    var executionAttempt: nat := 0;
    var cursor: nat := 0;
    while true
      invariant IsRun(cfg, plan, world.batch, runs)
      invariant Next(cfg, plan, runs) == Rerun(pending)
      invariant Tracks(state, cfg, plan, runs)
      invariant executionAttempt == |runs|
      invariant cursor == RequestCount(runs)
      invariant failureAttempt == Spent(runs) < bound
      invariant actionTimeoutAttempts == Timeouts(runs) < INFRA_MAX_ATTEMPTS
      decreases bound - failureAttempt + INFRA_MAX_ATTEMPTS - actionTimeoutAttempts
    {
      var current := if failureAttempt == 0 then selection else Explicit(pending);
      var run;
      state, run := RunPending(
        cfg, world.batch, cursor, current, pending, |members| > 1, firstIndex + executionAttempt, state, plan, runs);
      AppendCounts(runs, run);
      runs := runs + [run];
      cursor := cursor + |run.requests|;
      if run.ActionTimedOut() {
        actionTimeoutAttempts := actionTimeoutAttempts + 1;
      }
      var move := Decide(cfg, members, state, run, failureAttempt, actionTimeoutAttempts, plan, runs);
      match move {
        case Rerun(names) =>
          if !run.ActionTimedOut() {
            failureAttempt := failureAttempt + 1;
          }
          executionAttempt := executionAttempt + 1;
          pending := names;
        case Isolate(failing) =>
          finished, log := IsolateFailures(
            cfg, world, members, failing, state, repeatIndex, firstIndex + executionAttempt + 1, plan, runs);
          return;
        case Stop =>
          MembersTracked(state, cfg, plan, runs);
          finished := FinishAll(
            state, members, repeatIndex,
            (n: Name) => Trail(cfg, plan, runs, n), (n: Name) => Recorded(cfg, plan, runs, n));
          log := ActionLog(runs, []);
          ActionStops(cfg, plan, world, runs, repeatIndex, finished);
          return;
      }
    }
  }

  /** The results are the summaries of what decides and what records each of them, in report order. */
  ghost predicate Reports(cfg: Config, plan: Plan, log: ActionLog, repeatIndex: nat, finished: seq<FinishedTest>) {
    var order := ReportOrder(cfg, plan, log.runs);
    && |finished| == |order|
    && forall i :: 0 <= i < |order| ==>
         finished[i] == Summarize(order[i], repeatIndex, TrailAt(cfg, plan, log, i), RecordAt(cfg, plan, log, i))
  }

  /** What is left of a map once the entries of some names have been removed. */
  ghost predicate Drained<V(!new)>(before: map<Name, seq<V>>, gone: seq<Name>, rest: map<Name, seq<V>>) {
    forall n: Name :: GetOr(rest, n) == if n in gone then [] else GetOr(before, n)
  }

  lemma {:induction false} DrainNext<V(!new)>(before: map<Name, seq<V>>, gone: seq<Name>, rest: map<Name, seq<V>>,
      name: Name)
    requires Drained(before, gone, rest)
    ensures Drained(before, gone + [name], rest - {name})
  {
    forall n: Name
      ensures GetOr(rest - {name}, n) == if n in gone + [name] then [] else GetOr(before, n)
    {
      assert GetOr(rest, n) == if n in gone then [] else GetOr(before, n);
    }
  }

  lemma {:induction false} NothingDrained<V(!new)>(before: map<Name, seq<V>>)
    ensures Drained(before, [], before)
  {
  }

  /** A record goes to the first of the results that bear one name. */
  function FirstOnly<T>(names: seq<Name>, i: nat, record: seq<T>): seq<T>
    requires i < |names|
  {
    if names[i] in names[..i] then [] else record
  }

  /** Turn the accumulated maps into one result per name. */
  method FinishAll(
    state: ActionState, names: seq<Name>, repeatIndex: nat,
    ghost trailOf: Name -> seq<Attempt>, ghost recordOf: Name -> seq<Attempt>)
    returns (finished: seq<FinishedTest>)
    requires forall n :: n in names ==> TracksName(state, n, trailOf(n), recordOf(n))
    ensures |finished| == |names|
    ensures forall i :: 0 <= i < |names| ==>
              finished[i] == Summarize(
                names[i], repeatIndex, trailOf(names[i]), FirstOnly(names, i, recordOf(names[i])))
  {
    hide TracksName, Drained, Summarize, FirstOnly, GetOr;
    finished := [];
    var attempts, history := state.attempts, state.history;
    NothingDrained(attempts);
    NothingDrained(history);
    assert names[..0] == [];
    for i := 0 to |names|
      invariant |finished| == i
      invariant forall j :: 0 <= j < i ==>
                  finished[j] == Summarize(
                    names[j], repeatIndex, trailOf(names[j]), FirstOnly(names, j, recordOf(names[j])))
      invariant Drained(state.attempts, names[..i], attempts)
      invariant Drained(state.history, names[..i], history)
    {
      var name := names[i];
      assert TracksName(state, name, trailOf(name), recordOf(name));
      var outcome := if name in state.best then state.best[name] else MISSING;
      var single := FinishedTest(name, repeatIndex, outcome, GetOr(attempts, name), GetOr(history, name));
      FinishedIsSummary(state, attempts, history, names, i, repeatIndex, trailOf(name), recordOf(name));
      finished := finished + [single];
      DrainNext(state.attempts, names[..i], attempts, name);
      DrainNext(state.history, names[..i], history, name);
      assert names[..i + 1] == names[..i] + [name];
      attempts := attempts - {name};
      history := history - {name};
    }
  }

  lemma {:induction false} FinishedIsSummary(
    state: ActionState, attempts: map<Name, seq<DbObservation>>, history: map<Name, seq<AttemptObservation>>,
    names: seq<Name>, i: nat, repeatIndex: nat, trail: seq<Attempt>, record: seq<Attempt>)
    requires i < |names| && TracksName(state, names[i], trail, record)
    requires Drained(state.attempts, names[..i], attempts) && Drained(state.history, names[..i], history)
    ensures Summarize(names[i], repeatIndex, trail, FirstOnly(names, i, record)) ==
            FinishedTest(
              names[i], repeatIndex, if names[i] in state.best then state.best[names[i]] else MISSING,
              GetOr(attempts, names[i]), GetOr(history, names[i]))
  {
    assert GetOr(attempts, names[i]) == if names[i] in names[..i] then [] else GetOr(state.attempts, names[i]);
    assert GetOr(history, names[i]) == if names[i] in names[..i] then [] else GetOr(state.history, names[i]);
  }

  method Settled(state: ActionState, members: seq<Name>, ghost cfg: Config, ghost plan: Plan, ghost runs: seq<GroupRun>)
    returns (passing: seq<Name>)
    requires Tracks(state, cfg, plan, runs)
    ensures passing == PassingAmong(cfg, plan, runs, members)
  {
    passing := [];
    for i := 0 to |members|
      invariant passing == PassingAmong(cfg, plan, runs, members[..i])
    {
      var name := members[i];
      assert members[..i + 1][..i] == members[..i];
      assert TracksName(state, name, Trail(cfg, plan, runs, name), Recorded(cfg, plan, runs, name));
      if name in state.best && !state.best[name].status.IsFailure() {
        passing := passing + [name];
      }
    }
    assert members[..|members|] == members;
  }

  function Only<V>(m: map<Name, V>, name: Name): map<Name, V> {
    if name in m then map[name := m[name]] else map[]
  }

  lemma {:induction false} InheritsTrail(
    state: ActionState, attempts: map<Name, seq<DbObservation>>, history: map<Name, seq<AttemptObservation>>,
    cfg: Config, plan: Plan, runs: seq<GroupRun>, failing: seq<Name>, j: nat)
    requires j < |failing|
    requires Tracks(state, cfg, plan, runs)
    requires Drained(state.attempts, failing[..j], attempts) && Drained(state.history, failing[..j], history)
    ensures Tracks(
              ActionState(Only(state.best, failing[j]), Only(attempts, failing[j]), Only(history, failing[j])),
              cfg, IsolationPlan(cfg, plan, runs, failing, j), [])
  {
    hide Trail, Recorded, TracksName, Drained, Only;
    var name := failing[j];
    var prior := ActionState(Only(state.best, name), Only(attempts, name), Only(history, name));
    var alone := IsolationPlan(cfg, plan, runs, failing, j);
    var trail, record := Trail(cfg, plan, runs, name), Recorded(cfg, plan, runs, name);
    assert TracksName(state, name, trail, record);
    forall n: Name
      ensures TracksName(prior, n, Trail(cfg, alone, [], n), Recorded(cfg, alone, [], n))
    {
      NothingAdded(cfg, alone, n);
      OnlyTracks(state, attempts, history, failing, j, trail, record, n);
    }
  }

  lemma {:induction false} OnlyTracks(
    state: ActionState, attempts: map<Name, seq<DbObservation>>, history: map<Name, seq<AttemptObservation>>,
    failing: seq<Name>, j: nat, trail: seq<Attempt>, record: seq<Attempt>, n: Name)
    requires j < |failing| && TracksName(state, failing[j], trail, record)
    requires Drained(state.attempts, failing[..j], attempts) && Drained(state.history, failing[..j], history)
    ensures TracksName(
              ActionState(Only(state.best, failing[j]), Only(attempts, failing[j]), Only(history, failing[j])), n,
              if n == failing[j] then trail else [], if n == failing[j] then FirstOnly(failing, j, record) else [])
  {
    hide Standing;
    var name := failing[j];
    assert GetOr(attempts, name) == if name in failing[..j] then [] else GetOr(state.attempts, name);
    assert GetOr(history, name) == if name in failing[..j] then [] else GetOr(state.history, name);
  }

  lemma {:induction false} NothingAdded(cfg: Config, plan: Plan, name: Name)
    ensures Trail(cfg, plan, [], name) == plan.PriorOf(name)
    ensures Recorded(cfg, plan, [], name) == plan.HandedOnOf(name)
  {
  }

  /** One member re-run alone: a complete run of its isolation plan, and the summary of its attempts. */
  ghost predicate IsolatedResult(
    cfg: Config, plan: Plan, world: World, runs: seq<GroupRun>, failing: seq<Name>, j: nat, repeatIndex: nat,
    alone: seq<GroupRun>, single: FinishedTest)
    requires j < |failing|
  {
    var call := IsolationPlan(cfg, plan, runs, failing, j);
    && IsCompleteRun(cfg, call, world.single(j), alone)
    && single == Summarize(
         failing[j], repeatIndex, Trail(cfg, call, alone, failing[j]), Recorded(cfg, call, alone, failing[j]))
  }

  lemma {:induction false} SingletonAction(
    cfg: Config, plan: Plan, world: World, log: ActionLog, repeatIndex: nat, finished: seq<FinishedTest>)
    requires |plan.members| == 1
    requires IsAction(cfg, plan, world, log) && Reports(cfg, plan, log, repeatIndex, finished)
    ensures IsCompleteRun(cfg, plan, world.batch, log.runs)
    ensures var name := plan.members[0];
            finished == [
              Summarize(name, repeatIndex, Trail(cfg, plan, log.runs, name), Recorded(cfg, plan, log.runs, name))]
  {
    hide Trail, Recorded, Summarize, IsCompleteRun;
    var name := plan.members[0];
    assert !Next(cfg, plan, log.runs).Isolate?;
    assert ReportOrder(cfg, plan, log.runs) == [name];
    assert TrailAt(cfg, plan, log, 0) == Trail(cfg, plan, log.runs, name);
    assert RecordAt(cfg, plan, log, 0) == Recorded(cfg, plan, log.runs, name);
  }

  /** Re-run one failing member as an action of its own. */
  method IsolateOne(
    cfg: Config, world: World, failing: seq<Name>, j: nat, prior: ActionState, repeatIndex: nat, firstIndex: nat,
    ghost plan: Plan, ghost runs: seq<GroupRun>)
    returns (single: seq<FinishedTest>, alone: seq<GroupRun>)
    requires |plan.members| > 1 && j < |failing|
    requires Tracks(prior, cfg, IsolationPlan(cfg, plan, runs, failing, j), [])
    requires firstIndex == plan.firstIndex + |runs|
    ensures |single| == 1 && IsolatedResult(cfg, plan, world, runs, failing, j, repeatIndex, alone, single[0])
    decreases |plan.members|, 0
  {
    hide IsAction, Reports, IsCompleteRun, Tracks, Trail, Recorded;
    var name := failing[j];
    ghost var call := IsolationPlan(cfg, plan, runs, failing, j);
    var log;
    var isolatedWorld := World(world.single(j), world.single);
    single, log := ExecuteTestAction(
      cfg, isolatedWorld, Explicit([name]), [name], repeatIndex, firstIndex, prior, call.prior, call.handedOn);
    SingletonAction(cfg, call, isolatedWorld, log, repeatIndex, single);
    alone := log.runs;
  }

  lemma {:induction false} IsolationConcludes(
    cfg: Config, plan: Plan, world: World, runs: seq<GroupRun>, passing: seq<Name>, failing: seq<Name>,
    isolated: seq<seq<GroupRun>>, repeatIndex: nat, settled: seq<FinishedTest>, singles: seq<FinishedTest>)
    requires IsCompleteRun(cfg, plan, world.batch, runs)
    requires Next(cfg, plan, runs) == Isolate(failing)
    requires passing == PassingAmong(cfg, plan, runs, plan.members)
    requires |isolated| == |singles| == |failing|
    requires forall j :: 0 <= j < |failing| ==>
               IsolatedResult(cfg, plan, world, runs, failing, j, repeatIndex, isolated[j], singles[j])
    requires |settled| == |passing|
    requires forall j :: 0 <= j < |passing| ==>
               settled[j] == Summarize(
                 passing[j], repeatIndex, Trail(cfg, plan, runs, passing[j]),
                 FirstOnly(passing, j, Recorded(cfg, plan, runs, passing[j])))
    ensures IsAction(cfg, plan, world, ActionLog(runs, isolated))
    ensures Reports(cfg, plan, ActionLog(runs, isolated), repeatIndex, settled + singles)
  {
    hide IsCompleteRun, Trail, Recorded, Summarize, IsolationPlan, Next, PassingAmong;
    var log := ActionLog(runs, isolated);
    var order := passing + failing;
    assert ReportOrder(cfg, plan, runs) == order && OwnResults(cfg, plan, runs) == |passing|;
    forall j | 0 <= j < |failing|
      ensures IsolatedAs(cfg, plan, world, log, failing, j)
    {
      assert IsolatedResult(cfg, plan, world, runs, failing, j, repeatIndex, isolated[j], singles[j]);
    }
    forall i | 0 <= i < |order|
      ensures (settled + singles)[i] ==
              Summarize(order[i], repeatIndex, TrailAt(cfg, plan, log, i), RecordAt(cfg, plan, log, i))
    {
      if i < |passing| {
        assert order[..i] == passing[..i];
      } else {
        var j := i - |passing|;
        assert IsolatedResult(cfg, plan, world, runs, failing, j, repeatIndex, isolated[j], singles[j]);
        assert CallOf(cfg, plan, log, i) == (IsolationPlan(cfg, plan, runs, failing, j), isolated[j]);
      }
    }
  }

  /**
   * Report the settled members from the batch, and re-run each failing member as its own action,
   * handing it the batch's entries for that member so that an incomplete result stays absorbing.
   */
  method IsolateFailures(
    cfg: Config, world: World, members: seq<Name>, failing: seq<Name>, state: ActionState,
    repeatIndex: nat, firstIndex: nat, ghost plan: Plan, runs: seq<GroupRun>)
    returns (finished: seq<FinishedTest>, log: ActionLog)
    requires plan.members == members
    requires |members| > 1
    requires IsCompleteRun(cfg, plan, world.batch, runs)
    requires Next(cfg, plan, runs) == Isolate(failing)
    requires Tracks(state, cfg, plan, runs)
    requires firstIndex == plan.firstIndex + |runs|
    ensures IsAction(cfg, plan, world, log) && log.runs == runs
    ensures Reports(cfg, plan, log, repeatIndex, finished)
    decreases |members|, 1
  {
    hide IsAction, Reports, IsolatedResult, Trail, Recorded, PassingAmong, Next, IsCompleteRun;
    hide Tracks, TracksName, Summarize, IsolationPlan, Drained;
    MembersTracked(state, cfg, plan, runs);
    var passing := Settled(state, members, cfg, plan, runs);
    forall n | n in passing
      ensures n in plan.members
    {
      ActionTheorems.PassingAmongIs(cfg, plan, runs, plan.members, n);
    }
    var settled := FinishAll(
      state, passing, repeatIndex, (n: Name) => Trail(cfg, plan, runs, n), (n: Name) => Recorded(cfg, plan, runs, n));
    var singles: seq<FinishedTest> := [];
    var isolated: seq<seq<GroupRun>> := [];
    var attempts, history := state.attempts, state.history;
    NothingDrained(attempts);
    NothingDrained(history);
    assert failing[..0] == [];
    for i := 0 to |failing|
      invariant |isolated| == |singles| == i
      invariant forall j :: 0 <= j < i ==>
                  IsolatedResult(cfg, plan, world, runs, failing, j, repeatIndex, isolated[j], singles[j])
      invariant Drained(state.attempts, failing[..i], attempts)
      invariant Drained(state.history, failing[..i], history)
    {
      var name := failing[i];
      var prior := ActionState(Only(state.best, name), Only(attempts, name), Only(history, name));
      InheritsTrail(state, attempts, history, cfg, plan, runs, failing, i);
      DrainNext(state.attempts, failing[..i], attempts, name);
      DrainNext(state.history, failing[..i], history, name);
      assert failing[..i + 1] == failing[..i] + [name];
      attempts := attempts - {name};
      history := history - {name};
      var single, alone;
      single, alone := IsolateOne(cfg, world, failing, i, prior, repeatIndex, firstIndex, plan, runs);
      singles := singles + single;
      isolated := isolated + [alone];
    }
    IsolationConcludes(cfg, plan, world, runs, passing, failing, isolated, repeatIndex, settled, singles);
    log := ActionLog(runs, isolated);
    finished := settled + singles;
  }
}
