/** What every log allowed by the retry rules satisfies. */
module ActionTheorems {
  import opened Results
  import opened ActionModel

  // ---------------------------------------------------------------- logs grow at the end

  lemma {:induction false} PrefixIsRun(cfg: Config, plan: Plan, oracle: Oracle, runs: seq<GroupRun>, k: nat)
    requires IsRun(cfg, plan, oracle, runs)
    requires k <= |runs|
    ensures IsRun(cfg, plan, oracle, runs[..k])
  {
    hide Follows;
    assert forall j :: 0 <= j < k ==> runs[..k][..j] == runs[..j];
  }

  // ---------------------------------------------------------------- narrowing

  lemma {:induction false} FailingAmongIs(cfg: Config, plan: Plan, runs: seq<GroupRun>, names: seq<Name>, name: Name)
    ensures name in FailingAmong(cfg, plan, runs, names) <==> name in names && Failing(Trail(cfg, plan, runs, name))
  {
    hide Trail, Failing;
    if names != [] {
      FailingAmongIs(cfg, plan, runs, names[..|names| - 1], name);
      assert names == names[..|names| - 1] + [names[|names| - 1]];
    }
  }

  lemma {:induction false} PassingAmongIs(cfg: Config, plan: Plan, runs: seq<GroupRun>, names: seq<Name>, name: Name)
    ensures name in PassingAmong(cfg, plan, runs, names) <==> name in names && !Failing(Trail(cfg, plan, runs, name))
  {
    hide Trail, Failing;
    if names != [] {
      PassingAmongIs(cfg, plan, runs, names[..|names| - 1], name);
      assert names == names[..|names| - 1] + [names[|names| - 1]];
    }
  }

  lemma {:induction false} RetryableIs(cfg: Config, names: seq<Name>, spent: nat, name: Name)
    ensures name in Retryable(cfg, names, spent) <==> name in names && spent + 1 < AllowedAttempts(cfg, name)
  {
    hide AllowedAttempts;
    if names != [] {
      RetryableIs(cfg, names[..|names| - 1], spent, name);
      assert names == names[..|names| - 1] + [names[|names| - 1]];
    }
  }

  /** A rerun names only members that are still failing. */
  lemma {:induction false} RerunsFailing(cfg: Config, plan: Plan, runs: seq<GroupRun>, name: Name)
    requires runs != []
    requires Next(cfg, plan, runs).Rerun? && name in Next(cfg, plan, runs).names
    ensures name in plan.members && Failing(Trail(cfg, plan, runs, name))
    ensures !runs[|runs| - 1].ActionTimedOut() ==> FailureRetries(runs) + 1 < AllowedAttempts(cfg, name)
  {
    hide Trail, Failing, AllowedAttempts;
    var failing := FailingAmong(cfg, plan, runs, plan.members);
    FailingAmongIs(cfg, plan, runs, plan.members, name);
    RetryableIs(cfg, failing, FailureRetries(runs), name);
  }

  // ---------------------------------------------------------------- the final result of a name

  predicate IncompleteAt(trail: seq<Attempt>, i: int) {
    0 <= i < |trail| && trail[i].best.integrity == MissingTerminalResult
  }

  predicate PassingAt(trail: seq<Attempt>, i: int) {
    0 <= i < |trail| && trail[i].best.Passing()
  }

  /** The last incomplete attempt if there is one, else the first pass, else the last attempt. */
  ghost predicate ClosedForm(trail: seq<Attempt>, result: BestObs)
    requires trail != []
  {
    if exists i :: IncompleteAt(trail, i) then
      exists i :: IncompleteAt(trail, i) && trail[i].best == result && forall j :: i < j ==> !IncompleteAt(trail, j)
    else if exists i :: PassingAt(trail, i) then
      exists i :: PassingAt(trail, i) && trail[i].best == result && forall j :: j < i ==> !PassingAt(trail, j)
    else
      trail[|trail| - 1].best == result
  }

  lemma {:induction false} StandingIsClosedForm(trail: seq<Attempt>)
    requires trail != []
    ensures Standing(trail).Some? && ClosedForm(trail, Standing(trail).value)
  {
    var before, last := trail[..|trail| - 1], |trail| - 1;
    forall i | 0 <= i < last
      ensures IncompleteAt(trail, i) <==> IncompleteAt(before, i)
      ensures PassingAt(trail, i) <==> PassingAt(before, i)
    {
    }
    if trail[last].best.integrity == MissingTerminalResult {
      assert IncompleteAt(trail, last);
    } else if before == [] {
      assert forall i :: !IncompleteAt(trail, i);
      if trail[last].best.Passing() {
        assert PassingAt(trail, last);
      }
    } else {
      StandingIsClosedForm(before);
      assert !IncompleteAt(trail, last);
      if i :| IncompleteAt(before, i) {
        var k :|
          && IncompleteAt(before, k) && before[k].best == Standing(before).value
          && forall j :: k < j ==> !IncompleteAt(before, j);
        assert IncompleteAt(trail, k);
        forall j | k < j
          ensures !IncompleteAt(trail, j)
        {
          assert j < last ==> !IncompleteAt(before, j);
        }
      } else if i :| PassingAt(before, i) {
        assert forall i :: !IncompleteAt(trail, i);
        var k :|
          && PassingAt(before, k) && before[k].best == Standing(before).value
          && forall j :: j < k ==> !PassingAt(before, j);
        assert PassingAt(trail, k);
        assert forall j :: j < k ==> !PassingAt(trail, j);
      } else {
        assert forall i :: !IncompleteAt(trail, i);
        var previous := before[|before| - 1].best;
        assert !PassingAt(before, |before| - 1) && !IncompleteAt(before, |before| - 1);
        if trail[last].best.Passing() {
          assert PassingAt(trail, last);
          assert forall j :: j < last ==> !PassingAt(trail, j);
        }
      }
    }
  }

  /** A name is reported as passing exactly when no attempt was incomplete and some attempt passed. */
  lemma {:induction false} PassesIff(trail: seq<Attempt>)
    ensures OutcomeOf(trail).Passing() <==> (forall i :: !IncompleteAt(trail, i)) && (exists i :: PassingAt(trail, i))
  {
    if trail != [] {
      StandingIsClosedForm(trail);
      var last := |trail| - 1;
      if !(exists i :: IncompleteAt(trail, i)) && !(exists i :: PassingAt(trail, i)) {
        assert !IncompleteAt(trail, last) && !PassingAt(trail, last);
      }
    }
  }

  /** Incompleteness is absorbing: a complete result has only complete attempts behind it. */
  lemma {:induction false} CompleteMeansNoneIncomplete(trail: seq<Attempt>)
    requires OutcomeOf(trail).integrity == Complete
    ensures forall a :: a in trail ==> a.best.integrity == Complete
  {
    if trail != [] {
      StandingIsClosedForm(trail);
      forall a | a in trail
        ensures a.best.integrity == Complete
      {
        var i :| 0 <= i < |trail| && trail[i] == a;
        assert !IncompleteAt(trail, i);
      }
    }
  }

  // ---------------------------------------------------------------- selections

  lemma {:induction false} AllFailing(cfg: Config, plan: Plan, runs: seq<GroupRun>, names: seq<Name>)
    requires forall n :: n in names ==> Failing(Trail(cfg, plan, runs, n))
    ensures FailingAmong(cfg, plan, runs, names) == names
  {
    hide Trail, Failing;
    if names != [] {
      AllFailing(cfg, plan, runs, names[..|names| - 1]);
      assert names == names[..|names| - 1] + [names[|names| - 1]];
    }
  }

  lemma {:induction false} TrailGrows(cfg: Config, plan: Plan, runs: seq<GroupRun>, name: Name)
    requires runs != []
    ensures var before, last := runs[..|runs| - 1], runs[|runs| - 1];
            Trail(cfg, plan, runs, name) ==
              Trail(cfg, plan, before, name)
              + Copies(AttemptOf(cfg, plan.Batched(), last, name), Entries(cfg, last, name))
  {
    hide Copies, Entries;
  }

  lemma {:induction false} StandingGrows(trail: seq<Attempt>, attempt: Attempt)
    ensures Standing(trail + [attempt]) == Some(Merge(Standing(trail), attempt.best))
  {
    assert (trail + [attempt])[..|trail|] == trail;
  }

  ghost predicate AllTimedOut(runs: seq<GroupRun>) {
    forall run :: run in runs ==> run.ActionTimedOut()
  }

  lemma {:induction false} ConcludedTimeout(cfg: Config, names: seq<Name>, response: Response)
    ensures var outcome := Conclude(cfg, names, response);
            outcome.GroupFailed? && outcome.disposition == CompleteActionTimeout ==> outcome.status == Timeout
  {
    hide Marked, FirstStop;
  }

  lemma {:induction false} TimedOutFails(cfg: Config, oracle: Oracle, cursor: nat, firstIndex: nat, run: GroupRun)
    requires ValidGroup(cfg, oracle, cursor, firstIndex, run)
    requires run.ActionTimedOut()
    ensures run.outcome.status == Timeout
  {
    hide Conclude, CachingEnabled, MemoryMaxFor;
    if MemoryMaxFor(cfg, run.names).Some? {
      ConcludedTimeout(cfg, run.names, oracle(cursor + |run.requests| - 1));
    }
  }

  lemma {:induction false} TimeoutKeepsFailing(
      cfg: Config, batched: bool, run: GroupRun, trail: seq<Attempt>, name: Name)
    requires run.ActionTimedOut() && run.outcome.status == Timeout
    requires Failing(trail)
    ensures Failing(trail + [AttemptOf(cfg, batched, run, name)])
  {
    StandingGrows(trail, AttemptOf(cfg, batched, run, name));
  }

  lemma {:induction false} TimeoutsKeepFailing(
      cfg: Config, batched: bool, run: GroupRun, trail: seq<Attempt>, name: Name, count: nat)
    requires run.ActionTimedOut() && run.outcome.status == Timeout
    requires Failing(trail)
    ensures Failing(trail + Copies(AttemptOf(cfg, batched, run, name), count))
  {
    hide Failing, AttemptOf;
    var attempt := AttemptOf(cfg, batched, run, name);
    if count == 0 {
      assert trail + Copies(attempt, 0) == trail;
    } else {
      TimeoutsKeepFailing(cfg, batched, run, trail, name, count - 1);
      TimeoutKeepsFailing(cfg, batched, run, trail + Copies(attempt, count - 1), name);
      assert trail + Copies(attempt, count) == (trail + Copies(attempt, count - 1)) + [attempt];
    }
  }

  lemma {:induction false} TimeoutRerunsAll(cfg: Config, plan: Plan, runs: seq<GroupRun>)
    requires runs != [] && runs[|runs| - 1].ActionTimedOut()
    requires forall n :: n in plan.members ==> Failing(Trail(cfg, plan, runs, n))
    ensures Next(cfg, plan, runs).Rerun? ==> Next(cfg, plan, runs).names == plan.members
  {
    AllFailing(cfg, plan, runs, plan.members);
  }

  lemma {:induction false} TimeoutKeepsMembers(cfg: Config, plan: Plan, runs: seq<GroupRun>)
    requires runs != []
    requires runs[|runs| - 1].ActionTimedOut() && runs[|runs| - 1].outcome.status == Timeout
    requires runs[|runs| - 1].names == plan.members
    requires forall n :: n in plan.members ==> Failing(Trail(cfg, plan, runs[..|runs| - 1], n))
    ensures forall n :: n in plan.members ==> Failing(Trail(cfg, plan, runs, n))
  {
    var before, last := runs[..|runs| - 1], runs[|runs| - 1];
    forall n | n in plan.members
      ensures Failing(Trail(cfg, plan, runs, n))
    {
      TrailGrows(cfg, plan, runs, n);
      TimeoutsKeepFailing(cfg, plan.Batched(), last, Trail(cfg, plan, before, n), n, Entries(cfg, last, n));
    }
  }

  ghost predicate EveryMemberPending(cfg: Config, plan: Plan, runs: seq<GroupRun>) {
    && (forall n :: n in plan.members ==> Failing(Trail(cfg, plan, runs, n)))
    && (Next(cfg, plan, runs).Rerun? ==> Next(cfg, plan, runs).names == plan.members)
  }

  lemma {:induction false} NothingRunYet(cfg: Config, plan: Plan)
    requires WellFormed(plan)
    ensures EveryMemberPending(cfg, plan, [])
  {
    forall n | n in plan.members
      ensures Failing(Trail(cfg, plan, [], n))
    {
      assert Trail(cfg, plan, [], n) == plan.PriorOf(n);
    }
  }

  lemma {:induction false} TimeoutStep(
      cfg: Config, plan: Plan, oracle: Oracle, before: seq<GroupRun>, runs: seq<GroupRun>)
    requires runs != [] && before == runs[..|runs| - 1]
    requires EveryMemberPending(cfg, plan, before)
    requires Follows(cfg, plan, oracle, before, runs[|runs| - 1])
    requires runs[|runs| - 1].ActionTimedOut()
    ensures EveryMemberPending(cfg, plan, runs)
  {
    hide ValidGroup, Trail, Failing, FailingAmong, Retryable;
    TimedOutFails(cfg, oracle, RequestCount(before), plan.firstIndex + |before|, runs[|runs| - 1]);
    TimeoutKeepsMembers(cfg, plan, runs);
    hide Next;
    TimeoutRerunsAll(cfg, plan, runs);
  }

  /** Action timeouts alone never narrow the action: everything is still failing and pending. */
  lemma {:induction false} TimeoutsKeepEveryMember(cfg: Config, plan: Plan, oracle: Oracle, runs: seq<GroupRun>)
    requires WellFormed(plan)
    requires IsRun(cfg, plan, oracle, runs)
    requires AllTimedOut(runs)
    ensures EveryMemberPending(cfg, plan, runs)
  {
    if runs == [] {
      NothingRunYet(cfg, plan);
    } else {
      hide EveryMemberPending, Follows;
      var before, last := runs[..|runs| - 1], |runs| - 1;
      PrefixIsRun(cfg, plan, oracle, runs, last);
      assert forall run :: run in before ==> run in runs;
      assert runs[last] in runs && Follows(cfg, plan, oracle, before, runs[last]);
      TimeoutsKeepEveryMember(cfg, plan, oracle, before);
      TimeoutStep(cfg, plan, oracle, before, runs);
    }
  }

  lemma {:induction false} NoFailureRetryMeansTimeouts(runs: seq<GroupRun>)
    requires runs != [] && FailureRetries(runs) == 0
    ensures AllTimedOut(runs[..|runs| - 1])
  {
    if |runs| > 1 {
      var before := runs[..|runs| - 1];
      var latest := before[|before| - 1];
      assert latest == runs[|runs| - 2];
      assert FailureRetries(runs) == FailureRetries(before) + (if latest.ActionTimedOut() then 0 else 1);
      hide FailureRetries;
      NoFailureRetryMeansTimeouts(before);
      assert before == before[..|before| - 1] + [latest];
    }
  }

  /** The selection sent to Buck2 always denotes exactly the names that are pending. */
  lemma {:induction false} SelectionDenotesPending(cfg: Config, plan: Plan, oracle: Oracle, runs: seq<GroupRun>, k: nat)
    requires WellFormed(plan)
    requires IsRun(cfg, plan, oracle, runs)
    requires k < |runs|
    ensures match runs[k].selection
            case All => plan.selection == All && runs[k].names == plan.members
            case Explicit(names) => names == runs[k].names
    ensures forall r :: r in runs[k].requests ==> r.selection == runs[k].selection
  {
    PrefixIsRun(cfg, plan, oracle, runs, k);
    assert Follows(cfg, plan, oracle, runs[..k], runs[k]);
    var upTo := runs[..k] + [runs[k]];
    if FailureRetries(upTo) == 0 {
      NoFailureRetryMeansTimeouts(upTo);
      assert upTo[..k] == runs[..k];
      TimeoutsKeepEveryMember(cfg, plan, oracle, runs[..k]);
    }
  }

  lemma {:induction false} IsolatesAllFailing(cfg: Config, plan: Plan, runs: seq<GroupRun>)
    requires Next(cfg, plan, runs).Isolate?
    ensures Next(cfg, plan, runs).names == FailingAmong(cfg, plan, runs, plan.members)
  {
    hide FailingAmong, Retryable, Timeouts, FailureRetries;
  }

  lemma {:induction false} IsolatedIsFailing(cfg: Config, plan: Plan, runs: seq<GroupRun>, j: nat)
    requires Next(cfg, plan, runs).Isolate? && j < |Next(cfg, plan, runs).names|
    ensures var name := Next(cfg, plan, runs).names[j]; name in plan.members && Failing(Trail(cfg, plan, runs, name))
  {
    hide Trail, Failing, Next;
    IsolatesAllFailing(cfg, plan, runs);
    var name := Next(cfg, plan, runs).names[j];
    assert name in Next(cfg, plan, runs).names;
    FailingAmongIs(cfg, plan, runs, plan.members, name);
  }

  /** The selections of a log denote exactly the names that its groups run. */
  ghost predicate SelectionsDenote(plan: Plan, runs: seq<GroupRun>) {
    forall k :: 0 <= k < |runs| ==>
      && (match runs[k].selection
          case All => plan.selection == All && runs[k].names == plan.members
          case Explicit(names) => names == runs[k].names)
      && (forall r :: r in runs[k].requests ==> r.selection == runs[k].selection)
  }

  lemma {:induction false} RunSelectionsDenote(cfg: Config, plan: Plan, oracle: Oracle, runs: seq<GroupRun>)
    requires WellFormed(plan) && IsRun(cfg, plan, oracle, runs)
    ensures SelectionsDenote(plan, runs)
  {
    hide IsRun, WellFormed;
    forall k | 0 <= k < |runs|
      ensures match runs[k].selection
              case All => plan.selection == All && runs[k].names == plan.members
              case Explicit(names) => names == runs[k].names
      ensures forall r :: r in runs[k].requests ==> r.selection == runs[k].selection
    {
      SelectionDenotesPending(cfg, plan, oracle, runs, k);
    }
  }

  /**
   * Over a whole action, isolated re-runs included: every isolated call starts from a failing name
   * and every request's selection denotes exactly the names its group runs, a single one when
   * isolated.
   */
  lemma {:induction false} ActionSelectionsDenote(cfg: Config, plan: Plan, world: World, log: ActionLog)
    requires WellFormed(plan) && IsAction(cfg, plan, world, log)
    ensures SelectionsDenote(plan, log.runs)
    ensures Next(cfg, plan, log.runs).Isolate? ==>
              var failing := Next(cfg, plan, log.runs).names;
              && |log.isolated| == |failing|
              && forall j :: 0 <= j < |failing| ==>
                   && WellFormed(IsolationPlan(cfg, plan, log.runs, failing, j))
                   && SelectionsDenote(IsolationPlan(cfg, plan, log.runs, failing, j), log.isolated[j])
                   && forall k :: 0 <= k < |log.isolated[j]| ==> log.isolated[j][k].selection == Explicit([failing[j]])
  {
    hide IsRun, WellFormed, Next, SelectionsDenote;
    RunSelectionsDenote(cfg, plan, world.batch, log.runs);
    if Next(cfg, plan, log.runs).Isolate? {
      var failing := Next(cfg, plan, log.runs).names;
      forall j | 0 <= j < |failing|
        ensures WellFormed(IsolationPlan(cfg, plan, log.runs, failing, j))
        ensures SelectionsDenote(IsolationPlan(cfg, plan, log.runs, failing, j), log.isolated[j])
        ensures forall k :: 0 <= k < |log.isolated[j]| ==> log.isolated[j][k].selection == Explicit([failing[j]])
      {
        var alone := IsolationPlan(cfg, plan, log.runs, failing, j);
        assert IsolatedAs(cfg, plan, world, log, failing, j);
        IsolatedIsFailing(cfg, plan, log.runs, j);
        AloneIsWellFormed(cfg, plan, log.runs, failing, j);
        RunSelectionsDenote(cfg, alone, world.single(j), log.isolated[j]);
        forall k | 0 <= k < |log.isolated[j]|
          ensures log.isolated[j][k].selection == Explicit([failing[j]])
        {
          RunsSingleton(cfg, alone, world.single(j), log.isolated[j], k);
        }
      }
    }
  }

  lemma {:induction false} AloneIsWellFormed(cfg: Config, plan: Plan, runs: seq<GroupRun>, failing: seq<Name>, j: nat)
    requires j < |failing| && Failing(Trail(cfg, plan, runs, failing[j]))
    ensures WellFormed(IsolationPlan(cfg, plan, runs, failing, j))
  {
    hide Trail, Failing;
  }

  lemma {:induction false} FailingIsShorter(cfg: Config, plan: Plan, runs: seq<GroupRun>, names: seq<Name>)
    ensures |FailingAmong(cfg, plan, runs, names)| <= |names|
  {
    hide Trail, Failing;
    if names != [] {
      FailingIsShorter(cfg, plan, runs, names[..|names| - 1]);
    }
  }

  lemma {:induction false} RetryableIsShorter(cfg: Config, names: seq<Name>, spent: nat)
    ensures |Retryable(cfg, names, spent)| <= |names|
  {
    hide AllowedAttempts;
    if names != [] {
      RetryableIsShorter(cfg, names[..|names| - 1], spent);
    }
  }

  lemma {:induction false} RerunIsNonEmpty(cfg: Config, plan: Plan, runs: seq<GroupRun>)
    requires runs != [] && Next(cfg, plan, runs).Rerun?
    ensures 1 <= |Next(cfg, plan, runs).names| <= |plan.members|
  {
    hide Trail, Failing, AllowedAttempts;
    FailingIsShorter(cfg, plan, runs, plan.members);
    RetryableIsShorter(cfg, FailingAmong(cfg, plan, runs, plan.members), FailureRetries(runs));
  }

  lemma {:induction false} FollowsAt(cfg: Config, plan: Plan, oracle: Oracle, runs: seq<GroupRun>, k: nat)
    requires IsRun(cfg, plan, oracle, runs) && k < |runs|
    ensures Follows(cfg, plan, oracle, runs[..k], runs[k])
  {
    hide Follows;
  }

  lemma {:induction false} OnlyMemberRuns(cfg: Config, plan: Plan, oracle: Oracle, runs: seq<GroupRun>, k: nat)
    requires WellFormed(plan) && |plan.members| == 1
    requires IsRun(cfg, plan, oracle, runs) && k < |runs|
    ensures runs[k].names == plan.members
  {
    hide IsRun, WellFormed, Next, ValidGroup;
    if k == 0 {
      FirstRunsAll(cfg, plan, oracle, runs);
    } else {
      FollowsAt(cfg, plan, oracle, runs, k);
      RerunIsNonEmpty(cfg, plan, runs[..k]);
      assert runs[k].names[0] in runs[k].names;
      PendingIsFailing(cfg, plan, oracle, runs, k, runs[k].names[0]);
    }
  }

  lemma {:induction false} RunsSingleton(cfg: Config, plan: Plan, oracle: Oracle, runs: seq<GroupRun>, k: nat)
    requires WellFormed(plan) && |plan.members| == 1 && plan.selection == Explicit(plan.members)
    requires IsRun(cfg, plan, oracle, runs) && k < |runs|
    ensures runs[k].names == plan.members && runs[k].selection == Explicit(plan.members)
  {
    hide IsRun, WellFormed;
    SelectionDenotesPending(cfg, plan, oracle, runs, k);
    OnlyMemberRuns(cfg, plan, oracle, runs, k);
  }

  // ---------------------------------------------------------------- settled names are left alone

  lemma {:induction false} PendingIsFailing(
      cfg: Config, plan: Plan, oracle: Oracle, runs: seq<GroupRun>, k: nat, name: Name)
    requires WellFormed(plan)
    requires IsRun(cfg, plan, oracle, runs)
    requires k < |runs| && name in runs[k].names
    ensures name in plan.members && Failing(Trail(cfg, plan, runs[..k], name))
  {
    hide Trail, Failing, ValidGroup;
    assert Follows(cfg, plan, oracle, runs[..k], runs[k]);
    if k == 0 {
      assert runs[..k] == [];
      NothingRunYet(cfg, plan);
    } else {
      RerunsFailing(cfg, plan, runs[..k], name);
    }
  }

  lemma {:induction false} UntouchedTrail(cfg: Config, plan: Plan, runs: seq<GroupRun>, k: nat, name: Name)
    requires !cfg.wholeTarget
    requires k <= |runs|
    requires forall j :: k <= j < |runs| && name in runs[j].names ==> Failing(Trail(cfg, plan, runs[..j], name))
    requires !Failing(Trail(cfg, plan, runs[..k], name))
    ensures Trail(cfg, plan, runs, name) == Trail(cfg, plan, runs[..k], name)
    ensures forall j :: k <= j < |runs| ==> name !in runs[j].names
    decreases |runs|
  {
    hide Failing, Trail, AttemptOf;
    if k == |runs| {
      assert runs[..k] == runs;
    } else {
      var before, last := runs[..|runs| - 1], |runs| - 1;
      assert forall j :: 0 <= j <= last ==> before[..j] == runs[..j];
      UntouchedTrail(cfg, plan, before, k, name);
      TrailGrows(cfg, plan, runs, name);
      assert forall j :: k <= j < last ==> runs[j] == before[j];
      assert name !in runs[last].names;
      assert Entries(cfg, runs[last], name) == 0;
    }
  }

  lemma {:induction false} SettledOnlyMemberStops(cfg: Config, plan: Plan, runs: seq<GroupRun>, name: Name)
    requires |plan.members| <= 1 && name in plan.members && runs != []
    requires !Failing(Trail(cfg, plan, runs, name))
    ensures Next(cfg, plan, runs) == Stop
  {
    hide Trail, Failing;
    assert plan.members == [name];
    NobodyFails(cfg, plan, runs, plan.members);
  }

  /**
   * Once a member is settled no later group runs it, and its result never changes again. A target
   * run as a whole has the one member that stands for it.
   */
  lemma {:induction false} SettledStaysSettled(
      cfg: Config, plan: Plan, oracle: Oracle, runs: seq<GroupRun>, k: nat, name: Name)
    requires WellFormed(plan) && name in plan.members
    requires cfg.wholeTarget ==> |plan.members| <= 1
    requires IsRun(cfg, plan, oracle, runs)
    requires k <= |runs|
    requires !Failing(Trail(cfg, plan, runs[..k], name))
    ensures forall j :: k <= j < |runs| ==> name !in runs[j].names
    ensures Trail(cfg, plan, runs, name) == Trail(cfg, plan, runs[..k], name)
  {
    hide Trail, Failing, Next, IsRun, WellFormed;
    if cfg.wholeTarget {
      assert runs[..0] == [];
      NothingRunYet(cfg, plan);
      if k < |runs| {
        SettledOnlyMemberStops(cfg, plan, runs[..k], name);
        RerunFollows(cfg, plan, oracle, runs, k);
      }
      assert runs[..|runs|] == runs;
    } else {
      forall j | k <= j < |runs| && name in runs[j].names
        ensures Failing(Trail(cfg, plan, runs[..j], name))
      {
        PendingIsFailing(cfg, plan, oracle, runs, j, name);
      }
      UntouchedTrail(cfg, plan, runs, k, name);
    }
  }

  // ---------------------------------------------------------------- budgets

  predicate AllowsAtMost(cfg: Config, names: seq<Name>, bound: nat) {
    1 <= bound && forall n :: n in names ==> AllowedAttempts(cfg, n) <= bound
  }

  lemma {:induction false} RunsAreCharged(runs: seq<GroupRun>)
    requires runs != []
    ensures |runs| == 1 + FailureRetries(runs) + Timeouts(runs[..|runs| - 1])
  {
    if |runs| > 1 {
      RunsAreCharged(runs[..|runs| - 1]);
    }
  }

  lemma {:induction false} BudgetStep(
    cfg: Config, plan: Plan, oracle: Oracle, before: seq<GroupRun>, runs: seq<GroupRun>, bound: nat)
    requires |runs| > 1 && before == runs[..|runs| - 1]
    requires Next(cfg, plan, before).Rerun?
    requires AllowsAtMost(cfg, plan.members, bound)
    requires FailureRetries(before) < bound && Timeouts(before[..|before| - 1]) < INFRA_MAX_ATTEMPTS
    ensures FailureRetries(runs) < bound
    ensures Timeouts(before) < INFRA_MAX_ATTEMPTS
  {
    hide Trail, Failing, AllowedAttempts;
    if !before[|before| - 1].ActionTimedOut() {
      var name := Next(cfg, plan, before).names[0];
      RerunsFailing(cfg, plan, before, name);
    }
  }

  lemma {:induction false} BudgetsHold(cfg: Config, plan: Plan, oracle: Oracle, runs: seq<GroupRun>, bound: nat)
    requires IsRun(cfg, plan, oracle, runs)
    requires AllowsAtMost(cfg, plan.members, bound)
    requires runs != []
    ensures FailureRetries(runs) < bound
    ensures Timeouts(runs[..|runs| - 1]) < INFRA_MAX_ATTEMPTS
  {
    hide Next, ValidGroup, AllowsAtMost;
    if |runs| > 1 {
      var before := runs[..|runs| - 1];
      PrefixIsRun(cfg, plan, oracle, runs, |before|);
      assert Follows(cfg, plan, oracle, before, runs[|before|]);
      BudgetsHold(cfg, plan, oracle, before, bound);
      BudgetStep(cfg, plan, oracle, before, runs, bound);
    } else {
      assert FailureRetries(runs) == 0 && Timeouts(runs[..|runs| - 1]) == 0;
      PositiveBound(cfg, plan.members, bound);
    }
  }

  /** Whatever is still failing is within the largest budget of the members. */
  lemma {:induction false} FailingWithinBound(cfg: Config, plan: Plan, runs: seq<GroupRun>, members: seq<Name>)
    ensures AllowsAtMost(cfg, FailingAmong(cfg, plan, runs, members), MaxAllowed(cfg, members))
  {
    hide Trail, Failing, AllowedAttempts;
    forall n | n in FailingAmong(cfg, plan, runs, members)
      ensures AllowedAttempts(cfg, n) <= MaxAllowed(cfg, members)
    {
      FailingAmongIs(cfg, plan, runs, members, n);
    }
  }

  lemma {:induction false} PositiveBound(cfg: Config, names: seq<Name>, bound: nat)
    requires AllowsAtMost(cfg, names, bound)
    ensures 1 <= bound
  {
  }

  /** With at most `bound` attempts per name, an action call makes at most `bound + 2` group runs. */
  lemma {:induction false} GroupRunBound(cfg: Config, plan: Plan, oracle: Oracle, runs: seq<GroupRun>, bound: nat)
    requires IsRun(cfg, plan, oracle, runs)
    requires AllowsAtMost(cfg, plan.members, bound)
    ensures |runs| <= bound + 2
  {
    if runs != [] {
      RunsAreCharged(runs);
      BudgetsHold(cfg, plan, oracle, runs, bound);
    }
  }

  lemma {:induction false} FewRequests(cfg: Config, plan: Plan, oracle: Oracle, runs: seq<GroupRun>, k: nat)
    requires IsRun(cfg, plan, oracle, runs)
    requires k < |runs|
    ensures |runs[k].requests| <= INFRA_MAX_ATTEMPTS
  {
    hide Next, Conclude, CachingEnabled, MemoryMaxFor;
    assert Follows(cfg, plan, oracle, runs[..k], runs[k]);
  }

  lemma {:induction false} IsolatedIsMember(cfg: Config, plan: Plan, world: World, log: ActionLog, j: nat)
    requires IsAction(cfg, plan, world, log)
    requires j < |log.isolated|
    ensures Next(cfg, plan, log.runs).Isolate? && |log.isolated| == |Next(cfg, plan, log.runs).names| <= |plan.members|
    ensures var failing := Next(cfg, plan, log.runs).names;
            && failing[j] in plan.members
            && IsCompleteRun(cfg, IsolationPlan(cfg, plan, log.runs, failing, j), world.single(j), log.isolated[j])
  {
    hide IsCompleteRun, Next;
    var failing := Next(cfg, plan, log.runs).names;
    IsolatesAllFailing(cfg, plan, log.runs);
    FailingIsShorter(cfg, plan, log.runs, plan.members);
    IsolatedIsFailing(cfg, plan, log.runs, j);
    assert IsolatedAs(cfg, plan, world, log, failing, j);
  }

  lemma {:induction false} MemberWithinBound(cfg: Config, names: seq<Name>, name: Name, bound: nat)
    requires AllowsAtMost(cfg, names, bound) && name in names
    ensures AllowsAtMost(cfg, [name], bound)
  {
  }

  lemma {:induction false} RequestBound(cfg: Config, plan: Plan, oracle: Oracle, runs: seq<GroupRun>)
    requires IsRun(cfg, plan, oracle, runs)
    ensures RequestCount(runs) <= INFRA_MAX_ATTEMPTS * |runs|
  {
    hide Next;
    if runs != [] {
      var last := |runs| - 1;
      PrefixIsRun(cfg, plan, oracle, runs, last);
      assert Follows(cfg, plan, oracle, runs[..last], runs[last]);
      RequestBound(cfg, plan, oracle, runs[..last]);
    }
  }

  /** The Execute2 calls of the isolated re-runs. */
  function IsolatedRequestCount(isolated: seq<seq<GroupRun>>): nat {
    if isolated == [] then 0
    else IsolatedRequestCount(isolated[..|isolated| - 1]) + RequestCount(isolated[|isolated| - 1])
  }

  lemma {:induction false} IsolatedRunBound(cfg: Config, plan: Plan, world: World, log: ActionLog, j: nat, bound: nat)
    requires IsAction(cfg, plan, world, log)
    requires AllowsAtMost(cfg, plan.members, bound)
    requires j < |log.isolated|
    ensures |log.isolated[j]| <= bound + 2
    ensures RequestCount(log.isolated[j]) <= INFRA_MAX_ATTEMPTS * (bound + 2)
  {
    hide IsAction, Next, IsRun, AllowsAtMost;
    IsolatedIsMember(cfg, plan, world, log, j);
    var failing := Next(cfg, plan, log.runs).names;
    var alone := IsolationPlan(cfg, plan, log.runs, failing, j);
    MemberWithinBound(cfg, plan.members, failing[j], bound);
    GroupRunBound(cfg, alone, world.single(j), log.isolated[j], bound);
    RequestBound(cfg, alone, world.single(j), log.isolated[j]);
  }

  lemma {:induction false} IsolatedRequestBound(isolated: seq<seq<GroupRun>>, each: nat)
    requires forall j :: 0 <= j < |isolated| ==> RequestCount(isolated[j]) <= each
    ensures IsolatedRequestCount(isolated) <= each * |isolated|
  {
    hide RequestCount;
    if isolated != [] {
      IsolatedRequestBound(isolated[..|isolated| - 1], each);
      assert each * (|isolated| - 1) + each == each * |isolated|;
    }
  }

  /** A batch of k members, isolation included, makes at most 3(A+2)(1+k) Execute2 calls. */
  lemma {:induction false} Execute2Bound(cfg: Config, plan: Plan, world: World, log: ActionLog, bound: nat)
    requires IsAction(cfg, plan, world, log)
    requires AllowsAtMost(cfg, plan.members, bound)
    ensures RequestCount(log.runs) + IsolatedRequestCount(log.isolated)
            <= INFRA_MAX_ATTEMPTS * (bound + 2) * (1 + |plan.members|)
  {
    hide Next, IsRun, AllowsAtMost, RequestCount, IsolatedRequestCount, IsolatedAs;
    var each := INFRA_MAX_ATTEMPTS * (bound + 2);
    GroupRunBound(cfg, plan, world.batch, log.runs, bound);
    RequestBound(cfg, plan, world.batch, log.runs);
    forall j | 0 <= j < |log.isolated|
      ensures RequestCount(log.isolated[j]) <= each
    {
      IsolatedRunBound(cfg, plan, world, log, j, bound);
    }
    IsolatedRequestBound(log.isolated, each);
    if log.isolated != [] {
      IsolatedIsMember(cfg, plan, world, log, 0);
    }
    ProductGrows(each, |log.isolated|, |plan.members|);
  }

  lemma {:induction false} ProductGrows(each: nat, few: nat, many: nat)
    requires few <= many
    ensures each + each * few <= each * (1 + many)
  {
    assert each * few <= each * many;
  }

  /** How many groups of the log ran the name. */
  function RunsWith(runs: seq<GroupRun>, name: Name): nat {
    if runs == [] then 0
    else RunsWith(runs[..|runs| - 1], name) + (if name in runs[|runs| - 1].names then 1 else 0)
  }

  /** Groups of a name, against action timeouts and the name's own budget. */
  predicate ChargedWithin(cfg: Config, runs: seq<GroupRun>, name: Name)
    requires runs != []
  {
    var spent, allowed := FailureRetries(runs) + 1, AllowedAttempts(cfg, name);
    RunsWith(runs, name) <= Timeouts(runs[..|runs| - 1]) + (if spent < allowed then spent else allowed)
  }

  lemma {:induction false} ChargeStep(cfg: Config, plan: Plan, before: seq<GroupRun>, runs: seq<GroupRun>, name: Name)
    requires |runs| > 1 && before == runs[..|runs| - 1]
    requires Next(cfg, plan, before) == Rerun(runs[|runs| - 1].names)
    requires ChargedWithin(cfg, before, name)
    ensures ChargedWithin(cfg, runs, name)
  {
    hide Trail, Failing;
    if name in runs[|runs| - 1].names {
      RerunsFailing(cfg, plan, before, name);
    }
  }

  lemma {:induction false} NameIsCharged(cfg: Config, plan: Plan, oracle: Oracle, runs: seq<GroupRun>, name: Name)
    requires IsRun(cfg, plan, oracle, runs)
    requires runs != []
    ensures ChargedWithin(cfg, runs, name)
  {
    hide Next, ValidGroup;
    if |runs| > 1 {
      var before := runs[..|runs| - 1];
      PrefixIsRun(cfg, plan, oracle, runs, |before|);
      assert Follows(cfg, plan, oracle, before, runs[|before|]);
      NameIsCharged(cfg, plan, oracle, before, name);
      ChargeStep(cfg, plan, before, runs, name);
    } else {
      assert RunsWith(runs[..0], name) == 0;
    }
  }

  /** Each name is run in at most two more groups than its own attempt budget. */
  lemma {:induction false} NameRunBound(cfg: Config, plan: Plan, oracle: Oracle, runs: seq<GroupRun>, name: Name)
    requires IsRun(cfg, plan, oracle, runs)
    ensures RunsWith(runs, name) <= AllowedAttempts(cfg, name) + 2
  {
    if runs != [] {
      NameIsCharged(cfg, plan, oracle, runs, name);
      var bound := MaxAllowed(cfg, plan.members);
      BudgetsHold(cfg, plan, oracle, runs, bound);
    }
  }

  /** An action gives up on a failing member only when a budget is used up, and then a batch isolates it. */
  lemma {:induction false} FailingIsExhausted(cfg: Config, plan: Plan, oracle: Oracle, runs: seq<GroupRun>, name: Name)
    requires IsCompleteRun(cfg, plan, oracle, runs)
    requires name in plan.members && Failing(Trail(cfg, plan, runs, name))
    ensures runs[|runs| - 1].ActionTimedOut() ==> Timeouts(runs) >= 3
    ensures !runs[|runs| - 1].ActionTimedOut() ==> FailureRetries(runs) + 1 >= AllowedAttempts(cfg, name)
    ensures !runs[|runs| - 1].ActionTimedOut() && plan.Batched() && cfg.policy == RerunPerTestToIsolate ==>
              Next(cfg, plan, runs).Isolate? && name in Next(cfg, plan, runs).names
  {
    hide Trail, Failing, AllowedAttempts, IsRun;
    var failing := FailingAmong(cfg, plan, runs, plan.members);
    FailingAmongIs(cfg, plan, runs, plan.members, name);
    RetryableIs(cfg, failing, FailureRetries(runs), name);
  }

  lemma {:induction false} RetriesWithoutTimeouts(runs: seq<GroupRun>)
    requires runs != [] && forall run :: run in runs ==> !run.ActionTimedOut()
    ensures FailureRetries(runs) == |runs| - 1
  {
    if |runs| > 1 {
      var before := runs[..|runs| - 1];
      assert forall run :: run in before ==> run in runs;
      assert before[|before| - 1] in before;
      RetriesWithoutTimeouts(before);
    }
  }

  lemma {:induction false} FailingIsRerun(
      cfg: Config, plan: Plan, oracle: Oracle, runs: seq<GroupRun>, k: nat, name: Name)
    requires IsRun(cfg, plan, oracle, runs) && 0 < k < |runs|
    requires forall run :: run in runs ==> !run.ActionTimedOut()
    requires name in plan.members && Failing(Trail(cfg, plan, runs[..k], name))
    ensures name in runs[k].names <==> k < AllowedAttempts(cfg, name)
  {
    hide Trail, Failing, AllowedAttempts, ValidGroup;
    var before := runs[..k];
    assert Follows(cfg, plan, oracle, before, runs[k]);
    assert forall run :: run in before ==> run in runs;
    RetriesWithoutTimeouts(before);
    assert before[k - 1] in before;
    FailingAmongIs(cfg, plan, before, plan.members, name);
    RetryableIs(cfg, FailingAmong(cfg, plan, before, plan.members), FailureRetries(before), name);
  }

  lemma {:induction false} RunsOfFailing(
      cfg: Config, plan: Plan, oracle: Oracle, runs: seq<GroupRun>, k: nat, name: Name)
    requires IsRun(cfg, plan, oracle, runs) && k <= |runs|
    requires forall run :: run in runs ==> !run.ActionTimedOut()
    requires name in plan.members
    requires forall j :: 0 <= j <= |runs| ==> Failing(Trail(cfg, plan, runs[..j], name))
    ensures RunsWith(runs[..k], name) == if k < AllowedAttempts(cfg, name) then k else AllowedAttempts(cfg, name)
  {
    hide Trail, Failing, ValidGroup, IsRun, Next;
    if k == 0 {
      assert runs[..0] == [];
    } else {
      RunsOfFailing(cfg, plan, oracle, runs, k - 1, name);
      assert runs[..k][..k - 1] == runs[..k - 1];
      if k == 1 {
        FirstRunsAll(cfg, plan, oracle, runs);
      } else {
        FailingIsRerun(cfg, plan, oracle, runs, k - 1, name);
      }
    }
  }

  lemma {:induction false} FirstRunsAll(cfg: Config, plan: Plan, oracle: Oracle, runs: seq<GroupRun>)
    requires IsRun(cfg, plan, oracle, runs) && runs != []
    ensures runs[0].names == plan.members
  {
    assert runs[..0] == [];
    assert Follows(cfg, plan, oracle, runs[..0], runs[0]);
  }

  /** Without action timeouts a member that never passes is run exactly as often as its budget allows. */
  lemma {:induction false} FailingUsesItsBudget(
      cfg: Config, plan: Plan, oracle: Oracle, runs: seq<GroupRun>, name: Name)
    requires WellFormed(plan)
    requires cfg.wholeTarget ==> |plan.members| <= 1
    requires IsCompleteRun(cfg, plan, oracle, runs)
    requires forall run :: run in runs ==> !run.ActionTimedOut()
    requires name in plan.members && Failing(Trail(cfg, plan, runs, name))
    ensures RunsWith(runs, name) == AllowedAttempts(cfg, name)
    ensures RunsWith(runs, name)
            == if name in cfg.knownFlakes && cfg.maxAttempts < cfg.tomlAttempts then cfg.tomlAttempts
               else cfg.maxAttempts
  {
    hide Trail, Failing, Next, IsRun, WellFormed;
    forall j | 0 <= j <= |runs|
      ensures Failing(Trail(cfg, plan, runs[..j], name))
    {
      if !Failing(Trail(cfg, plan, runs[..j], name)) {
        SettledStaysSettled(cfg, plan, oracle, runs, j, name);
      }
    }
    RunsOfFailing(cfg, plan, oracle, runs, |runs|, name);
    assert runs[..|runs|] == runs;
    assert runs[|runs| - 1] in runs;
    RetriesWithoutTimeouts(runs);
    FailingIsExhausted(cfg, plan, oracle, runs, name);
  }

  function MaxAllowed(cfg: Config, names: seq<Name>): (bound: nat)
    ensures AllowsAtMost(cfg, names, bound)
  {
    if names == [] then 1
    else
      var rest := MaxAllowed(cfg, names[1..]);
      var first := AllowedAttempts(cfg, names[0]);
      if rest < first then first else rest
  }

  // ---------------------------------------------------------------- caching

  /** Where a cache may serve an action at all. */
  predicate MayCache(cfg: Config, members: seq<Name>) {
    && cfg.cacheClass == Cacheable
    && cfg.defaultVariant
    && !cfg.stress
    && (cfg.bustUnseen ==> forall n :: n in members ==> n !in cfg.unseen)
  }

  lemma {:induction false} CachedRequestIsFirst(
      cfg: Config, plan: Plan, oracle: Oracle, runs: seq<GroupRun>, k: nat, i: nat)
    requires IsRun(cfg, plan, oracle, runs)
    requires k < |runs| && i < |runs[k].requests|
    ensures runs[k].requests[i].attemptIndex == plan.firstIndex + k + i
    ensures runs[k].requests[i].cachingEnabled <==> plan.firstIndex == k == i == 0 && MayCache(cfg, plan.members)
  {
    hide MemoryMaxFor, Conclude, Queued;
    assert Follows(cfg, plan, oracle, runs[..k], runs[k]);
    if k == 0 {
      FirstRunsAll(cfg, plan, oracle, runs);
    }
  }

  /**
   * Only the very first Execute2 of a whole action, isolation included, may use the cache, and it
   * does exactly for a cacheable target in its default variant without stress whose tests have all
   * been seen if the others are to be run afresh. The attempts are numbered through.
   */
  lemma {:induction false} OnlyFirstRequestIsCached(cfg: Config, plan: Plan, world: World, log: ActionLog)
    requires IsAction(cfg, plan, world, log)
    ensures forall k, i | 0 <= k < |log.runs| && 0 <= i < |log.runs[k].requests| ::
              && (log.runs[k].requests[i].cachingEnabled
                  <==> plan.firstIndex == k == i == 0 && MayCache(cfg, plan.members))
              && log.runs[k].requests[i].attemptIndex == plan.firstIndex + k + i
    ensures forall j, k | 0 <= j < |log.isolated| && 0 <= k < |log.isolated[j]| ::
              forall i | 0 <= i < |log.isolated[j][k].requests| ::
                && !log.isolated[j][k].requests[i].cachingEnabled
                && log.isolated[j][k].requests[i].attemptIndex == plan.firstIndex + |log.runs| + k + i
  {
    hide MayCache;
    forall k, i | 0 <= k < |log.runs| && 0 <= i < |log.runs[k].requests|
      ensures && (log.runs[k].requests[i].cachingEnabled
                  <==> plan.firstIndex == k == i == 0 && MayCache(cfg, plan.members))
              && log.runs[k].requests[i].attemptIndex == plan.firstIndex + k + i
    {
      CachedRequestIsFirst(cfg, plan, world.batch, log.runs, k, i);
    }
    forall j, k, i | 0 <= j < |log.isolated| && 0 <= k < |log.isolated[j]| && 0 <= i < |log.isolated[j][k].requests|
      ensures && !log.isolated[j][k].requests[i].cachingEnabled
              && log.isolated[j][k].requests[i].attemptIndex == plan.firstIndex + |log.runs| + k + i
    {
      IsolatedIsMember(cfg, plan, world, log, j);
      var failing := Next(cfg, plan, log.runs).names;
      CachedRequestIsFirst(
        cfg, IsolationPlan(cfg, plan, log.runs, failing, j), world.single(j), log.isolated[j], k, i);
    }
  }

  // ---------------------------------------------------------------- memory limits

  predicate Overrides(o: MemoryOverride, target: string, name: Name) {
    o.target == target && o.test == name
  }

  /** The command line refuses a second override for the same test. */
  ghost predicate UniqueOverrides(overrides: seq<MemoryOverride>) {
    forall i, j :: 0 <= i < j < |overrides| ==> !Overrides(overrides[i], overrides[j].target, overrides[j].test)
  }

  lemma {:induction false} MatchesOfSingleton(overrides: seq<MemoryOverride>, target: string, name: Name)
    ensures var matches := MatchingOverrides(overrides, target, [name]);
            && (matches == [] <==> forall o :: o in overrides ==> !Overrides(o, target, name))
            && (matches != [] ==> matches[0] in overrides && Overrides(matches[0], target, name))
  {
    if overrides != [] {
      MatchesOfSingleton(overrides[1..], target, name);
      assert overrides == [overrides[0]] + overrides[1..];
      assert Overrides(overrides[0], target, name) <==> overrides[0].target == target && overrides[0].test in [name];
    }
  }

  lemma {:induction false} UniqueMatch(overrides: seq<MemoryOverride>, target: string, name: Name)
    requires UniqueOverrides(overrides)
    ensures |MatchingOverrides(overrides, target, [name])| <= 1
  {
    if overrides != [] {
      var rest := overrides[1..];
      forall i, j | 0 <= i < j < |rest|
        ensures !Overrides(rest[i], rest[j].target, rest[j].test)
      {
        assert rest[i] == overrides[i + 1] && rest[j] == overrides[j + 1];
      }
      UniqueMatch(rest, target, name);
      if Overrides(overrides[0], target, name) {
        forall o | o in rest
          ensures !Overrides(o, target, name)
        {
          var j :| 0 <= j < |rest| && rest[j] == o;
          assert rest[j] == overrides[j + 1];
          assert !Overrides(overrides[0], overrides[j + 1].target, overrides[j + 1].test);
        }
        MatchesOfSingleton(rest, target, name);
      }
    }
  }

  /** A test that runs alone always has a limit: its own override's if there is one, else the default. */
  lemma {:induction false} SingletonHasItsLimit(cfg: Config, name: Name)
    requires UniqueOverrides(cfg.overrides)
    ensures MemoryMaxFor(cfg, [name]).Some?
    ensures forall o :: o in cfg.overrides && Overrides(o, cfg.target, name) ==>
            MemoryMaxFor(cfg, [name]).value == o.memoryMax
    ensures (forall o :: o in cfg.overrides ==> !Overrides(o, cfg.target, name)) ==>
              MemoryMaxFor(cfg, [name]).value == cfg.defaultMemory
  {
    hide MatchingOverrides;
    MatchesOfSingleton(cfg.overrides, cfg.target, name);
    UniqueMatch(cfg.overrides, cfg.target, name);
    var matches := MatchingOverrides(cfg.overrides, cfg.target, [name]);
    forall o | o in cfg.overrides && Overrides(o, cfg.target, name)
      ensures o == matches[0]
    {
      var i :| 0 <= i < |cfg.overrides| && cfg.overrides[i] == o;
      var j :| 0 <= j < |cfg.overrides| && cfg.overrides[j] == matches[0];
    }
  }

  lemma {:induction false} NothingMatchesIff(overrides: seq<MemoryOverride>, target: string, names: seq<Name>)
    ensures MatchingOverrides(overrides, target, names) == []
            <==> forall o :: o in overrides ==> o.target != target || o.test !in names
  {
    if overrides != [] {
      NothingMatchesIff(overrides[1..], target, names);
      assert overrides == [overrides[0]] + overrides[1..];
    }
  }

  /**
   * Tests that run together have the default limit, and are refused if one of them has an override.
   */
  lemma {:induction false} BatchHasDefaultLimit(cfg: Config, names: seq<Name>)
    requires |names| != 1
    ensures MemoryMaxFor(cfg, names)
            == if exists o :: o in cfg.overrides && o.target == cfg.target && o.test in names then None
               else Some(cfg.defaultMemory)
  {
    hide MatchingOverrides;
    NothingMatchesIff(cfg.overrides, cfg.target, names);
  }

  /** Every request carries the limit of the names that its group runs, and a group without one sends none. */
  lemma {:induction false} RequestsCarryLimit(cfg: Config, plan: Plan, oracle: Oracle, runs: seq<GroupRun>, k: nat)
    requires IsRun(cfg, plan, oracle, runs) && k < |runs|
    ensures runs[k].requests == [] <==> MemoryMaxFor(cfg, runs[k].names).None?
    ensures forall r :: r in runs[k].requests ==> MemoryMaxFor(cfg, runs[k].names) == Some(r.memoryMax)
  {
    hide MemoryMaxFor, CachingEnabled, Conclude;
    FollowsAt(cfg, plan, oracle, runs, k);
  }

  // ---------------------------------------------------------------- no attempt lost or doubled

  /** How often the groups of the log list the name. */
  function Listings(runs: seq<GroupRun>, name: Name): nat {
    if runs == [] then 0 else Listings(runs[..|runs| - 1], name) + multiset(runs[|runs| - 1].names)[name]
  }

  lemma {:induction false} CopiesCount<T>(item: T, count: nat)
    ensures |Copies(item, count)| == count
    ensures forall i :: 0 <= i < count ==> Copies(item, count)[i] == item
  {
    if count > 0 {
      CopiesCount(item, count - 1);
    }
  }

  lemma {:induction false} OneAttemptPerListing(cfg: Config, batched: bool, runs: seq<GroupRun>, name: Name)
    requires !cfg.wholeTarget
    ensures |AttemptsOf(cfg, batched, runs, name)| == Listings(runs, name)
  {
    hide AttemptOf, Copies;
    if runs != [] {
      var last := runs[|runs| - 1];
      OneAttemptPerListing(cfg, batched, runs[..|runs| - 1], name);
      CopiesCount(AttemptOf(cfg, batched, last, name), Entries(cfg, last, name));
    }
  }

  /** The reported history is the trail, entry by entry and in order. */
  lemma {:induction false} HistoryFollowsTrail(trail: seq<Attempt>)
    ensures |History(trail)| == |trail|
    ensures forall i :: 0 <= i < |trail| ==> History(trail)[i] == HistoryEntry(trail[i])
  {
    if trail != [] {
      HistoryFollowsTrail(trail[..|trail| - 1]);
    }
  }

  /** The isolated group runs behind the i-th result. */
  function AloneRuns(cfg: Config, plan: Plan, log: ActionLog, i: nat): seq<GroupRun> {
    var own := OwnResults(cfg, plan, log.runs);
    if own <= i && i - own < |log.isolated| then log.isolated[i - own] else []
  }

  lemma {:induction false} OrderSplits(cfg: Config, plan: Plan, runs: seq<GroupRun>, i: nat)
    requires i < |ReportOrder(cfg, plan, runs)|
    requires OwnResults(cfg, plan, runs) <= i
    ensures var own := OwnResults(cfg, plan, runs);
            && Next(cfg, plan, runs).Isolate?
            && i - own < |Next(cfg, plan, runs).names|
            && ReportOrder(cfg, plan, runs)[i] == Next(cfg, plan, runs).names[i - own]
            && (ReportOrder(cfg, plan, runs)[i] in ReportOrder(cfg, plan, runs)[..i]
                <==> Next(cfg, plan, runs).names[i - own] in Next(cfg, plan, runs).names[..i - own])
  {
    hide Trail, Failing, Next, PassingAmong;
    var own := OwnResults(cfg, plan, runs);
    var failing := Next(cfg, plan, runs).names;
    var passing := PassingAmong(cfg, plan, runs, plan.members);
    var name := failing[i - own];
    assert ReportOrder(cfg, plan, runs) == passing + failing;
    assert (passing + failing)[..i] == passing + failing[..i - own];
    IsolatedIsFailing(cfg, plan, runs, i - own);
    PassingAmongIs(cfg, plan, runs, plan.members, name);
  }

  /**
   * A fresh action's result is decided by the batch attempts of its name followed by those of its
   * isolated re-run, and reports them entry by entry, the batch's with the name's first result.
   */
  lemma {:induction false} HistoryIsBatchThenAlone(cfg: Config, plan: Plan, world: World, log: ActionLog, i: nat)
    requires plan.Fresh() && IsAction(cfg, plan, world, log)
    requires i < |ReportOrder(cfg, plan, log.runs)|
    ensures var order := ReportOrder(cfg, plan, log.runs);
            var batch := AttemptsOf(cfg, plan.Batched(), log.runs, order[i]);
            var alone := AttemptsOf(cfg, false, AloneRuns(cfg, plan, log, i), order[i]);
            && TrailAt(cfg, plan, log, i) == batch + alone
            && RecordAt(cfg, plan, log, i) == (if order[i] in order[..i] then [] else batch) + alone
            && |History(RecordAt(cfg, plan, log, i))| == |RecordAt(cfg, plan, log, i)|
            && forall k :: 0 <= k < |RecordAt(cfg, plan, log, i)| ==>
                 History(RecordAt(cfg, plan, log, i))[k] == HistoryEntry(RecordAt(cfg, plan, log, i)[k])
  {
    hide AttemptsOf, History, Next, PassingAmong, IsCompleteRun;
    var order, own := ReportOrder(cfg, plan, log.runs), OwnResults(cfg, plan, log.runs);
    var batch := AttemptsOf(cfg, plan.Batched(), log.runs, order[i]);
    HistoryFollowsTrail(RecordAt(cfg, plan, log, i));
    assert [] + batch == batch;
    if own <= i {
      OrderSplits(cfg, plan, log.runs, i);
    } else {
      assert AttemptsOf(cfg, false, [], order[i]) == [] by { NoAttempts(cfg, order[i]); }
      assert AloneRuns(cfg, plan, log, i) == [];
      assert batch + [] == batch;
    }
  }

  lemma {:induction false} NoAttempts(cfg: Config, name: Name)
    ensures AttemptsOf(cfg, false, [], name) == []
  {
  }

  /** In a per-test target a name's history has one entry for each time a group listed it. */
  lemma {:induction false} HistoryCountsRuns(cfg: Config, plan: Plan, world: World, log: ActionLog, i: nat)
    requires !cfg.wholeTarget
    requires plan.Fresh() && IsAction(cfg, plan, world, log)
    requires i < |ReportOrder(cfg, plan, log.runs)|
    ensures var order := ReportOrder(cfg, plan, log.runs);
            |History(RecordAt(cfg, plan, log, i))|
            == (if order[i] in order[..i] then 0 else Listings(log.runs, order[i]))
               + Listings(AloneRuns(cfg, plan, log, i), order[i])
  {
    hide AttemptsOf, History, IsAction, RecordAt, TrailAt, ReportOrder, Listings, AloneRuns;
    HistoryIsBatchThenAlone(cfg, plan, world, log, i);
    var name := ReportOrder(cfg, plan, log.runs)[i];
    OneAttemptPerListing(cfg, plan.Batched(), log.runs, name);
    OneAttemptPerListing(cfg, false, AloneRuns(cfg, plan, log, i), name);
  }

  /** The positions of the attempts that are samples, in order. */
  function SamplePositions(trail: seq<Attempt>): seq<nat> {
    if trail == [] then []
    else
      var last := |trail| - 1;
      SamplePositions(trail[..last]) + (if IsSample(trail[last]) then [last] else [])
  }

  /** The positions pick increasing samples of the trail, and these are their observations. */
  ghost predicate Picks(trail: seq<Attempt>, at: seq<nat>, samples: seq<DbObservation>) {
    && |samples| == |at|
    && (forall i :: 0 <= i < |at| ==> at[i] < |trail| && IsSample(trail[at[i]]) && samples[i] == SampleOf(trail[at[i]]))
    && (forall i, j :: 0 <= i < j < |at| ==> at[i] < at[j])
  }

  lemma {:induction false} PicksMore(trail: seq<Attempt>, at: seq<nat>, samples: seq<DbObservation>)
    requires trail != [] && Picks(trail[..|trail| - 1], at, samples)
    ensures Picks(trail, at, samples)
    ensures IsSample(trail[|trail| - 1]) ==> Picks(trail, at + [|trail| - 1], samples + [SampleOf(trail[|trail| - 1])])
  {
    hide IsSample, SampleOf;
  }

  /** The database observations are exactly the harness-reported physical attempts, in order. */
  lemma {:induction false} SamplesAreSubsequence(trail: seq<Attempt>)
    ensures Picks(trail, SamplePositions(trail), Samples(trail))
    ensures forall k :: 0 <= k < |trail| && IsSample(trail[k]) ==> k in SamplePositions(trail)
  {
    hide IsSample, SampleOf, Picks;
    if trail == [] {
      assert Picks([], [], []) by { PicksNothing(); }
    } else {
      var last := |trail| - 1;
      SamplesAreSubsequence(trail[..last]);
      PicksMore(trail, SamplePositions(trail[..last]), Samples(trail[..last]));
      forall k | 0 <= k < |trail| && IsSample(trail[k])
        ensures k in SamplePositions(trail)
      {
        if k < last {
          assert trail[..last][k] == trail[k];
        }
      }
      assert SamplePositions(trail[..last]) + [] == SamplePositions(trail[..last]);
      assert Samples(trail[..last]) + [] == Samples(trail[..last]);
    }
  }

  lemma {:induction false} PicksNothing()
    ensures Picks([], [], [])
  {
  }

  lemma {:induction false} LastAmong(cfg: Config, plan: Plan, runs: seq<GroupRun>, names: seq<Name>)
    requires names != []
    ensures var rest, last := names[..|names| - 1], names[|names| - 1];
            && multiset(names) == multiset(rest) + multiset{last}
            && multiset(PassingAmong(cfg, plan, runs, names)) + multiset(FailingAmong(cfg, plan, runs, names))
               == multiset(PassingAmong(cfg, plan, runs, rest)) + multiset(FailingAmong(cfg, plan, runs, rest))
                  + multiset{last}
  {
    hide Trail, Failing;
    var rest, last := names[..|names| - 1], names[|names| - 1];
    assert names == rest + [last];
    if Failing(Trail(cfg, plan, runs, last)) {
      assert PassingAmong(cfg, plan, runs, names) == PassingAmong(cfg, plan, runs, rest);
      assert FailingAmong(cfg, plan, runs, names) == FailingAmong(cfg, plan, runs, rest) + [last];
    } else {
      assert PassingAmong(cfg, plan, runs, names) == PassingAmong(cfg, plan, runs, rest) + [last];
      assert FailingAmong(cfg, plan, runs, names) == FailingAmong(cfg, plan, runs, rest);
    }
  }

  lemma {:induction false} SplitAmong(cfg: Config, plan: Plan, runs: seq<GroupRun>, names: seq<Name>)
    ensures multiset(PassingAmong(cfg, plan, runs, names)) + multiset(FailingAmong(cfg, plan, runs, names))
            == multiset(names)
  {
    if names != [] {
      hide Trail, Failing, PassingAmong, FailingAmong;
      LastAmong(cfg, plan, runs, names);
      SplitAmong(cfg, plan, runs, names[..|names| - 1]);
    }
  }

  /** Every member is reported exactly once, whether or not the batch is isolated. */
  lemma {:induction false} EveryMemberIsReported(cfg: Config, plan: Plan, runs: seq<GroupRun>)
    ensures multiset(ReportOrder(cfg, plan, runs)) == multiset(plan.members)
  {
    if Next(cfg, plan, runs).Isolate? {
      IsolatesAllFailing(cfg, plan, runs);
      SplitAmong(cfg, plan, runs, plan.members);
    }
  }

  // ---------------------------------------------------------------- passes have evidence

  /** A response that establishes the status for the name: its own line, or exit 0 of a whole unit. */
  predicate Establishes(cfg: Config, response: Response, name: Name, status: TestVerdict) {
    && response.Completed?
    && var action := response.action;
       || (name in action.observations && action.observations[name].status == status)
       || (cfg.wholeTarget && action.status == Finished(0) && status == Pass)
  }

  /** One of the first `count` responses establishes the status. */
  ghost predicate HasEvidence(cfg: Config, oracle: Oracle, count: nat, name: Name, status: TestVerdict) {
    exists i: nat :: i < count && Establishes(cfg, oracle(i), name, status)
  }

  /** Markers only ever replace an observation by a failure. */
  lemma {:induction false} MarkersNeverPass(
      names: seq<Name>, markers: seq<ResourceFailure>, observations: map<Name, Observation>, name: Name)
    ensures var marked := Marked(names, markers, observations);
            name in marked && !marked[name].status.IsFailure()
            ==> name in observations && observations[name] == marked[name]
  {
    if markers != [] && |names| != 0 {
      MarkersNeverPass(names, markers[..|markers| - 1], observations, name);
    }
  }

  lemma {:induction false} JudgedPassIsEstablished(
      cfg: Config, batched: bool, run: GroupRun, action: CompletedAction, name: Name)
    requires run.outcome == Judge(cfg, run.names, action)
    requires Entries(cfg, run, name) > 0 && AttemptOf(cfg, batched, run, name).best.Passing()
    ensures Establishes(cfg, Completed(action), name, AttemptOf(cfg, batched, run, name).best.status)
  {
    MarkersNeverPass(run.names, action.markers, action.observations, name);
  }

  /** The run's outcome was read off the first `count` responses of this oracle. */
  ghost predicate Answered(cfg: Config, oracle: Oracle, count: nat, run: GroupRun) {
    exists cursor: nat, firstIndex: nat ::
      ValidGroup(cfg, oracle, cursor, firstIndex, run) && cursor + |run.requests| <= count
  }

  lemma {:induction false} RequestsUpTo(runs: seq<GroupRun>, k: nat)
    requires k < |runs|
    ensures RequestCount(runs[..k]) + |runs[k].requests| <= RequestCount(runs)
  {
    var before := runs[..|runs| - 1];
    if k == |before| {
      assert runs[..k] == before;
    } else {
      assert before[..k] == runs[..k];
      RequestsUpTo(before, k);
    }
  }

  lemma {:induction false} RunIsAnswered(cfg: Config, plan: Plan, oracle: Oracle, runs: seq<GroupRun>, k: nat)
    requires IsRun(cfg, plan, oracle, runs)
    requires k < |runs|
    ensures Answered(cfg, oracle, RequestCount(runs), runs[k])
  {
    hide Next, Conclude, MemoryMaxFor;
    assert Follows(cfg, plan, oracle, runs[..k], runs[k]);
    RequestsUpTo(runs, k);
  }

  lemma {:induction false} RunsAreAnswered(cfg: Config, plan: Plan, oracle: Oracle, runs: seq<GroupRun>)
    requires IsRun(cfg, plan, oracle, runs)
    ensures forall run :: run in runs ==> Answered(cfg, oracle, RequestCount(runs), run)
  {
    forall k | 0 <= k < |runs|
      ensures Answered(cfg, oracle, RequestCount(runs), runs[k])
    {
      RunIsAnswered(cfg, plan, oracle, runs, k);
    }
  }

  lemma {:induction false} OnlyCompletedPasses(
      cfg: Config, batched: bool, run: GroupRun, response: Response, name: Name)
    requires run.outcome == Conclude(cfg, run.names, response)
    requires AttemptOf(cfg, batched, run, name).best.Passing()
    ensures response.Completed?
  {
    hide Judge;
  }

  lemma {:induction false} PassingRunHasEvidence(
      cfg: Config, oracle: Oracle, count: nat, batched: bool, run: GroupRun, name: Name)
    requires Answered(cfg, oracle, count, run)
    requires Entries(cfg, run, name) > 0 && AttemptOf(cfg, batched, run, name).best.Passing()
    ensures HasEvidence(cfg, oracle, count, name, AttemptOf(cfg, batched, run, name).best.status)
  {
    hide ValidGroup, AttemptOf, Entries, Judge, Establishes;
    var cursor: nat, firstIndex: nat :|
      ValidGroup(cfg, oracle, cursor, firstIndex, run) && cursor + |run.requests| <= count;
    RefusedFails(cfg, oracle, cursor, firstIndex, batched, run, name);
    LastAnswerDecides(cfg, oracle, cursor, firstIndex, run);
    var i := cursor + |run.requests| - 1;
    OnlyCompletedPasses(cfg, batched, run, oracle(i), name);
    JudgedPassIsEstablished(cfg, batched, run, oracle(i).action, name);
  }

  lemma {:induction false} RefusedFails(
    cfg: Config, oracle: Oracle, cursor: nat, firstIndex: nat, batched: bool, run: GroupRun, name: Name)
    requires ValidGroup(cfg, oracle, cursor, firstIndex, run)
    ensures run.requests == [] ==> !AttemptOf(cfg, batched, run, name).best.Passing()
  {
    hide MemoryMaxFor, Conclude, CachingEnabled;
  }

  lemma {:induction false} AttemptComesFromRun(
      cfg: Config, batched: bool, runs: seq<GroupRun>, name: Name, i: nat) returns (k: nat)
    requires i < |AttemptsOf(cfg, batched, runs, name)|
    ensures k < |runs| && Entries(cfg, runs[k], name) > 0
    ensures AttemptOf(cfg, batched, runs[k], name) == AttemptsOf(cfg, batched, runs, name)[i]
  {
    hide AttemptOf, Copies, Entries;
    var before, last := AttemptsOf(cfg, batched, runs[..|runs| - 1], name), runs[|runs| - 1];
    CopiesCount(AttemptOf(cfg, batched, last, name), Entries(cfg, last, name));
    if i < |before| {
      k := AttemptComesFromRun(cfg, batched, runs[..|runs| - 1], name, i);
    } else {
      k := |runs| - 1;
    }
  }

  lemma {:induction false} EntryComesFromRun(
      cfg: Config, plan: Plan, runs: seq<GroupRun>, name: Name, i: nat) returns (k: nat)
    requires |plan.PriorOf(name)| <= i < |Trail(cfg, plan, runs, name)|
    ensures k < |runs| && Entries(cfg, runs[k], name) > 0
    ensures AttemptOf(cfg, plan.Batched(), runs[k], name) == Trail(cfg, plan, runs, name)[i]
  {
    k := AttemptComesFromRun(cfg, plan.Batched(), runs, name, i - |plan.PriorOf(name)|);
  }

  lemma {:induction false} PassingEntryHasEvidence(
    cfg: Config, plan: Plan, oracle: Oracle, count: nat, runs: seq<GroupRun>, name: Name, i: nat)
    requires forall run :: run in runs ==> Answered(cfg, oracle, count, run)
    requires |plan.PriorOf(name)| <= i < |Trail(cfg, plan, runs, name)|
    requires Trail(cfg, plan, runs, name)[i].best.Passing()
    ensures HasEvidence(cfg, oracle, count, name, Trail(cfg, plan, runs, name)[i].best.status)
  {
    var k := EntryComesFromRun(cfg, plan, runs, name, i);
    PassingRunHasEvidence(cfg, oracle, count, plan.Batched(), runs[k], name);
  }

  /** Some response to the batch, or to the isolated re-run behind the i-th result, establishes the status. */
  ghost predicate HasEvidenceAt(
    cfg: Config, plan: Plan, world: World, log: ActionLog, i: nat, name: Name, status: TestVerdict)
  {
    var own := OwnResults(cfg, plan, log.runs);
    || HasEvidence(cfg, world.batch, RequestCount(log.runs), name, status)
    || (own <= i && i - own < |log.isolated|
        && HasEvidence(cfg, world.single(i - own), RequestCount(log.isolated[i - own]), name, status))
  }

  /** A result of the batch's own is decided by the batch. */
  lemma {:induction false} OwnTrail(cfg: Config, plan: Plan, log: ActionLog, i: nat)
    requires i < |ReportOrder(cfg, plan, log.runs)| && i < OwnResults(cfg, plan, log.runs)
    ensures TrailAt(cfg, plan, log, i) == Trail(cfg, plan, log.runs, ReportOrder(cfg, plan, log.runs)[i])
  {
    hide Next, PassingAmong, Trail;
  }

  /** The result of an isolated member is decided by its own re-run, which inherits the batch's attempts. */
  lemma {:induction false} IsolatedTrail(cfg: Config, plan: Plan, world: World, log: ActionLog, i: nat)
    requires IsAction(cfg, plan, world, log)
    requires i < |ReportOrder(cfg, plan, log.runs)| && OwnResults(cfg, plan, log.runs) <= i
    ensures var own, name := OwnResults(cfg, plan, log.runs), ReportOrder(cfg, plan, log.runs)[i];
            && Next(cfg, plan, log.runs).Isolate?
            && i - own < |log.isolated| == |Next(cfg, plan, log.runs).names|
            && name == Next(cfg, plan, log.runs).names[i - own]
            && var alone := IsolationPlan(cfg, plan, log.runs, Next(cfg, plan, log.runs).names, i - own);
               && alone.PriorOf(name) == Trail(cfg, plan, log.runs, name)
               && IsCompleteRun(cfg, alone, world.single(i - own), log.isolated[i - own])
               && TrailAt(cfg, plan, log, i) == Trail(cfg, alone, log.isolated[i - own], name)
  {
    hide AttemptsOf, Next, PassingAmong, IsCompleteRun;
    OrderSplits(cfg, plan, log.runs, i);
    var j := i - OwnResults(cfg, plan, log.runs);
    assert IsolatedAs(cfg, plan, world, log, Next(cfg, plan, log.runs).names, j);
  }

  lemma {:induction false} EntryHasEvidence(cfg: Config, plan: Plan, world: World, log: ActionLog, i: nat, k: nat)
    requires plan.Fresh() && IsAction(cfg, plan, world, log)
    requires i < |ReportOrder(cfg, plan, log.runs)|
    requires k < |TrailAt(cfg, plan, log, i)| && TrailAt(cfg, plan, log, i)[k].best.Passing()
    ensures HasEvidenceAt(
              cfg, plan, world, log, i, ReportOrder(cfg, plan, log.runs)[i], TrailAt(cfg, plan, log, i)[k].best.status)
  {
    assert IsRun(cfg, plan, world.batch, log.runs);
    RunsAreAnswered(cfg, plan, world.batch, log.runs);
    hide IsAction, TrailAt, ReportOrder, OwnResults, AttemptsOf, HasEvidence, Answered, Next, IsRun, RequestCount;
    var name, own := ReportOrder(cfg, plan, log.runs)[i], OwnResults(cfg, plan, log.runs);
    if own <= i {
      IsolatedTrail(cfg, plan, world, log, i);
      var alone := IsolationPlan(cfg, plan, log.runs, Next(cfg, plan, log.runs).names, i - own);
      hide IsolationPlan;
      RunsAreAnswered(cfg, alone, world.single(i - own), log.isolated[i - own]);
      if |alone.PriorOf(name)| <= k {
        PassingEntryHasEvidence(
          cfg, alone, world.single(i - own), RequestCount(log.isolated[i - own]), log.isolated[i - own], name, k);
      } else {
        PassingEntryHasEvidence(cfg, plan, world.batch, RequestCount(log.runs), log.runs, name, k);
      }
    } else {
      OwnTrail(cfg, plan, log, i);
      PassingEntryHasEvidence(cfg, plan, world.batch, RequestCount(log.runs), log.runs, name, k);
    }
  }

  /**
   * No result is green without evidence: a passing report means that no attempt of the name was
   * incomplete, and that some response to this action established exactly the reported status.
   */
  lemma {:induction false} PassHasEvidence(cfg: Config, plan: Plan, world: World, log: ActionLog, i: nat)
    requires plan.Fresh() && IsAction(cfg, plan, world, log)
    requires i < |ReportOrder(cfg, plan, log.runs)|
    requires OutcomeOf(TrailAt(cfg, plan, log, i)).Passing()
    ensures forall a :: a in TrailAt(cfg, plan, log, i) ==> a.best.integrity == Complete
    ensures HasEvidenceAt(
              cfg, plan, world, log, i, ReportOrder(cfg, plan, log.runs)[i],
              OutcomeOf(TrailAt(cfg, plan, log, i)).status)
  {
    hide IsAction, TrailAt, ReportOrder, HasEvidenceAt;
    var trail := TrailAt(cfg, plan, log, i);
    PassesIff(trail);
    CompleteMeansNoneIncomplete(trail);
    StandingIsClosedForm(trail);
    assert forall k :: !IncompleteAt(trail, k);
    var k :| PassingAt(trail, k) && trail[k].best == OutcomeOf(trail);
    EntryHasEvidence(cfg, plan, world, log, i, k);
  }

  // ---------------------------------------------------------------- no failure out of nothing

  /** The harness printed a line for every member, and none of them is a failure. */
  predicate ShowsAll(action: CompletedAction, members: seq<Name>) {
    forall n :: n in members ==> n in action.observations && !action.observations[n].status.IsFailure()
  }

  /** A target that is run as a whole printed no line, as custom binaries never do, and exited with 0. */
  predicate ExitsClean(cfg: Config, action: CompletedAction) {
    cfg.wholeTarget && action.observations == map[] && action.status == ProcessOutcome.Finished(0)
  }

  /** A response without a marker that clears all members, by their lines or by the exit code of a whole unit. */
  predicate Clean(cfg: Config, response: Response, members: seq<Name>) {
    && response.Completed?
    && response.action.markers == []
    && (ShowsAll(response.action, members) || ExitsClean(cfg, response.action))
  }

  /** The status that the action gives a name that it clears. */
  function ShownStatus(action: CompletedAction, name: Name): TestVerdict {
    if name in action.observations then action.observations[name].status else Pass
  }

  lemma {:induction false} CleanGroup(cfg: Config, oracle: Oracle, cursor: nat, firstIndex: nat, run: GroupRun)
    requires ValidGroup(cfg, oracle, cursor, firstIndex, run)
    requires MemoryMaxFor(cfg, run.names).Some?
    requires Clean(cfg, oracle(cursor), run.names)
    ensures |run.requests| == 1
    ensures run.outcome.Observed? && !run.outcome.actionOom
            && run.outcome.observations == oracle(cursor).action.observations
            && run.outcome.raw == oracle(cursor).action.status
  {
    hide MemoryMaxFor, CachingEnabled;
    if |run.requests| > 1 {
      RetriedWasQueued(cfg, oracle, cursor, firstIndex, run, 0);
    }
  }

  lemma {:induction false} PassStands(attempt: Attempt, count: nat)
    requires attempt.best.Passing() && count > 0
    ensures Standing(Copies(attempt, count)) == Some(attempt.best)
  {
    StandingGrows(Copies(attempt, count - 1), attempt);
    if count > 1 {
      PassStands(attempt, count - 1);
    } else {
      assert Copies(attempt, 0) == [];
    }
  }

  lemma {:induction false} CleanAttempt(cfg: Config, plan: Plan, oracle: Oracle, run: GroupRun, name: Name)
    requires plan.Fresh()
    requires ValidGroup(cfg, oracle, 0, plan.firstIndex, run)
    requires MemoryMaxFor(cfg, run.names).Some?
    requires Clean(cfg, oracle(0), run.names)
    requires name in run.names
    ensures var trail := Trail(cfg, plan, [run], name);
            && !Failing(trail)
            && OutcomeOf(trail).integrity == Complete
            && OutcomeOf(trail).status == ShownStatus(oracle(0).action, name)
  {
    CleanGroup(cfg, oracle, 0, plan.firstIndex, run);
    hide ValidGroup, MemoryMaxFor, Copies, Standing;
    var attempt, count := AttemptOf(cfg, plan.Batched(), run, name), Entries(cfg, run, name);
    TrailGrows(cfg, plan, [run], name);
    assert [run][..0] == [];
    assert Trail(cfg, plan, [], name) == [];
    assert [] + Copies(attempt, count) == Copies(attempt, count);
    assert name in multiset(run.names);
    PassStands(attempt, count);
    assert attempt.best.Passing();
  }

  lemma {:induction false} NobodyFails(cfg: Config, plan: Plan, runs: seq<GroupRun>, names: seq<Name>)
    requires forall n :: n in names ==> !Failing(Trail(cfg, plan, runs, n))
    ensures FailingAmong(cfg, plan, runs, names) == []
  {
    hide Trail, Failing;
    if names != [] {
      NobodyFails(cfg, plan, runs, names[..|names| - 1]);
    }
  }

  /** If the first response clears every member, one request is all, and each member is reported as shown. */
  lemma {:induction false} NoFalseRed(cfg: Config, plan: Plan, world: World, log: ActionLog, i: nat)
    requires plan.Fresh() && IsAction(cfg, plan, world, log)
    requires MemoryMaxFor(cfg, plan.members).Some?
    requires Clean(cfg, world.batch(0), plan.members)
    requires i < |plan.members|
    ensures |log.runs| == 1 && |log.runs[0].requests| == 1 && log.isolated == []
    ensures ReportOrder(cfg, plan, log.runs) == plan.members
    ensures var outcome := OutcomeOf(TrailAt(cfg, plan, log, i));
            outcome.Passing() && outcome.status == ShownStatus(world.batch(0).action, plan.members[i])
  {
    hide Trail, Failing, ValidGroup, MemoryMaxFor;
    var first := log.runs[0];
    assert Follows(cfg, plan, world.batch, log.runs[..0], first);
    assert log.runs[..0] == [] && log.runs[..1] == [first];
    CleanGroup(cfg, world.batch, 0, plan.firstIndex, first);
    forall n | n in plan.members
      ensures !Failing(Trail(cfg, plan, [first], n))
    {
      CleanAttempt(cfg, plan, world.batch, first, n);
    }
    NobodyFails(cfg, plan, [first], plan.members);
    assert Next(cfg, plan, [first]).Stop?;
    if |log.runs| > 1 {
      RerunFollows(cfg, plan, world.batch, log.runs, 1);
    }
    assert log.runs == [first];
    CleanAttempt(cfg, plan, world.batch, first, plan.members[i]);
  }

  // ---------------------------------------------------------------- where completeness stops

  predicate IsUnit(name: Name) {
    name == DOCTEST_RESULT_NAME || name == BINARY_RESULT_NAME
  }

  /** A response that prints per-test lines, is stopped by no marker, and has no line for the unit itself. */
  predicate Loses(cfg: Config, unit: Name, response: Response) {
    && response.Completed?
    && FirstStop(cfg, [unit], response.action.markers) == |response.action.markers|
    && var seen := Marked([unit], response.action.markers, response.action.observations);
       |seen| != 0 && unit !in seen
  }

  /** How often a group asks whose first request is number `cursor`: again only after a queue timeout. */
  function Asked(oracle: Oracle, cursor: nat): nat {
    if !Queued(oracle, cursor) then 1
    else if !Queued(oracle, cursor + 1) then 2
    else 3
  }

  /** The number of the first request of the k-th group, counting from zero. */
  function Cursor(oracle: Oracle, k: nat): nat {
    if k == 0 then 0 else Cursor(oracle, k - 1) + Asked(oracle, Cursor(oracle, k - 1))
  }

  /** The answer that decides the k-th group loses the unit. */
  predicate LosesAt(cfg: Config, oracle: Oracle, unit: Name, k: nat) {
    Loses(cfg, unit, oracle(Cursor(oracle, k) + Asked(oracle, Cursor(oracle, k)) - 1))
  }

  /** Buck2 gets asked, and each answer that decides one of the allowed attempts loses the unit. */
  ghost predicate AnswersLose(cfg: Config, oracle: Oracle, unit: Name) {
    && MemoryMaxFor(cfg, [unit]).Some?
    && forall k: nat :: k < AllowedAttempts(cfg, unit) ==> LosesAt(cfg, oracle, unit, k)
  }

  lemma {:induction false} GroupAsks(cfg: Config, oracle: Oracle, cursor: nat, firstIndex: nat, run: GroupRun)
    requires ValidGroup(cfg, oracle, cursor, firstIndex, run) && MemoryMaxFor(cfg, run.names).Some?
    ensures |run.requests| == Asked(oracle, cursor)
  {
    hide MemoryMaxFor, CachingEnabled, Conclude;
    if |run.requests| > 1 {
      RetriedWasQueued(cfg, oracle, cursor, firstIndex, run, 0);
    }
    if |run.requests| > 2 {
      RetriedWasQueued(cfg, oracle, cursor, firstIndex, run, 1);
    }
  }

  lemma {:induction false} RequestsAreAsked(
    cfg: Config, plan: Plan, oracle: Oracle, runs: seq<GroupRun>, unit: Name, k: nat)
    requires WellFormed(plan) && plan.members == [unit] && MemoryMaxFor(cfg, [unit]).Some?
    requires IsRun(cfg, plan, oracle, runs) && k <= |runs|
    ensures RequestCount(runs[..k]) == Cursor(oracle, k)
  {
    hide IsRun, WellFormed, Next, ValidGroup, Asked, MemoryMaxFor;
    if k > 0 {
      var last := k - 1;
      RequestsAreAsked(cfg, plan, oracle, runs, unit, last);
      FollowsAt(cfg, plan, oracle, runs, last);
      OnlyMemberRuns(cfg, plan, oracle, runs, last);
      GroupAsks(cfg, oracle, RequestCount(runs[..last]), plan.firstIndex + last, runs[last]);
      assert runs[..k][..last] == runs[..last];
    }
  }

  /** The group got to ask Buck2, and its last answer loses the unit. */
  predicate LosesUnit(cfg: Config, oracle: Oracle, cursor: nat, run: GroupRun, unit: Name) {
    run.requests != [] && Loses(cfg, unit, oracle(cursor + |run.requests| - 1))
  }

  lemma {:induction false} LosesUnitIff(
    cfg: Config, plan: Plan, oracle: Oracle, runs: seq<GroupRun>, unit: Name, k: nat)
    requires WellFormed(plan) && plan.members == [unit]
    requires IsRun(cfg, plan, oracle, runs) && k < |runs|
    ensures LosesUnit(cfg, oracle, RequestCount(runs[..k]), runs[k], unit)
            <==> MemoryMaxFor(cfg, [unit]).Some? && LosesAt(cfg, oracle, unit, k)
  {
    hide IsRun, WellFormed, Next, Loses, Asked, CachingEnabled, Conclude, MemoryMaxFor, RequestCount, Cursor;
    FollowsAt(cfg, plan, oracle, runs, k);
    OnlyMemberRuns(cfg, plan, oracle, runs, k);
    if MemoryMaxFor(cfg, [unit]).Some? {
      RequestsAreAsked(cfg, plan, oracle, runs, unit, k);
      GroupAsks(cfg, oracle, RequestCount(runs[..k]), plan.firstIndex + k, runs[k]);
    }
  }

  lemma {:induction false} GroupLosesIff(
      cfg: Config, oracle: Oracle, cursor: nat, firstIndex: nat, run: GroupRun, unit: Name)
    requires cfg.wholeTarget && IsUnit(unit)
    requires ValidGroup(cfg, oracle, cursor, firstIndex, run) && run.names == [unit]
    ensures Entries(cfg, run, unit) == (if LosesUnit(cfg, oracle, cursor, run, unit) then 0 else 1)
  {
    hide MemoryMaxFor, CachingEnabled, Marked, FirstStop;
    assert multiset([unit])[unit] == 1;
    if run.requests != [] {
      var response := oracle(cursor + |run.requests| - 1);
      assert run.outcome == Conclude(cfg, run.names, response);
      assert response.Completed? && FirstStop(cfg, run.names, response.action.markers) == |response.action.markers| <==>
             run.outcome.Observed?;
    }
  }

  lemma {:induction false} TrailIsEmptyIff(cfg: Config, plan: Plan, oracle: Oracle, runs: seq<GroupRun>, unit: Name)
    requires plan.Fresh() && WellFormed(plan) && plan.members == [unit]
    requires cfg.wholeTarget && IsUnit(unit)
    requires IsRun(cfg, plan, oracle, runs)
    ensures Trail(cfg, plan, runs, unit) == []
            <==> forall k :: 0 <= k < |runs| ==> LosesUnit(cfg, oracle, RequestCount(runs[..k]), runs[k], unit)
  {
    hide IsRun, WellFormed, Trail, LosesUnit, Copies, Entries, AttemptOf, Next, ValidGroup, RequestCount;
    if runs == [] {
      assert Trail(cfg, plan, [], unit) == [] by { FreshTrail(cfg, plan, unit); }
    } else {
      var last := |runs| - 1;
      var before := runs[..last];
      PrefixIsRun(cfg, plan, oracle, runs, last);
      TrailIsEmptyIff(cfg, plan, oracle, before, unit);
      TrailGrows(cfg, plan, runs, unit);
      CopiesCount(AttemptOf(cfg, plan.Batched(), runs[last], unit), Entries(cfg, runs[last], unit));
      OnlyMemberRuns(cfg, plan, oracle, runs, last);
      FollowsAt(cfg, plan, oracle, runs, last);
      GroupLosesIff(cfg, oracle, RequestCount(before), plan.firstIndex + last, runs[last], unit);
      assert forall k :: 0 <= k < last ==> before[..k] == runs[..k] && before[k] == runs[k];
    }
  }

  lemma {:induction false} FreshTrail(cfg: Config, plan: Plan, name: Name)
    requires plan.Fresh()
    ensures Trail(cfg, plan, [], name) == []
  {
  }

  /** While every answer so far has lost the unit, only allowed attempts have been made. */
  lemma {:induction false} LosingKeepsToBudget(
    cfg: Config, plan: Plan, oracle: Oracle, runs: seq<GroupRun>, unit: Name, k: nat)
    requires WellFormed(plan) && plan.members == [unit]
    requires IsRun(cfg, plan, oracle, runs) && k < |runs|
    requires forall j :: 0 <= j < k ==> LosesUnit(cfg, oracle, RequestCount(runs[..j]), runs[j], unit)
    ensures k < AllowedAttempts(cfg, unit)
  {
    hide IsRun, WellFormed, Next, LosesUnit, RequestCount, Trail, Failing;
    if k > 0 {
      forall run | run in runs[..k]
        ensures !run.ActionTimedOut()
      {
        var j :| 0 <= j < k && runs[j] == run;
        LosingIsObserved(cfg, plan, oracle, runs, j, unit);
      }
      RetriesWithoutTimeouts(runs[..k]);
      RerunFollows(cfg, plan, oracle, runs, k);
      OnlyMemberRuns(cfg, plan, oracle, runs, k);
      FollowsAt(cfg, plan, oracle, runs, k);
      assert runs[..k][k - 1] in runs[..k];
      RerunsFailing(cfg, plan, runs[..k], unit);
    }
  }

  lemma {:induction false} AnswersLoseEveryRun(
    cfg: Config, plan: Plan, oracle: Oracle, runs: seq<GroupRun>, unit: Name, k: nat)
    requires WellFormed(plan) && plan.members == [unit]
    requires IsRun(cfg, plan, oracle, runs) && k <= |runs|
    requires AnswersLose(cfg, oracle, unit)
    ensures forall j :: 0 <= j < k ==> LosesUnit(cfg, oracle, RequestCount(runs[..j]), runs[j], unit)
  {
    hide IsRun, WellFormed, LosesUnit, LosesAt, RequestCount, AllowedAttempts, MemoryMaxFor;
    if k > 0 {
      AnswersLoseEveryRun(cfg, plan, oracle, runs, unit, k - 1);
      LosingKeepsToBudget(cfg, plan, oracle, runs, unit, k - 1);
      LosesUnitIff(cfg, plan, oracle, runs, unit, k - 1);
    }
  }

  /** A lost unit has been asked for as often as it may be. */
  lemma {:induction false} LostUsesItsBudget(
    cfg: Config, plan: Plan, oracle: Oracle, runs: seq<GroupRun>, unit: Name)
    requires plan.Fresh() && WellFormed(plan) && plan.members == [unit]
    requires cfg.wholeTarget && IsUnit(unit)
    requires IsCompleteRun(cfg, plan, oracle, runs)
    requires Trail(cfg, plan, runs, unit) == []
    ensures |runs| == AllowedAttempts(cfg, unit)
  {
    hide IsRun, WellFormed, Trail, LosesUnit, Next, RequestCount, AllowedAttempts;
    TrailIsEmptyIff(cfg, plan, oracle, runs, unit);
    forall run | run in runs
      ensures !run.ActionTimedOut()
    {
      var k :| 0 <= k < |runs| && runs[k] == run;
      LosingIsObserved(cfg, plan, oracle, runs, k, unit);
    }
    FailingUsesItsBudget(cfg, plan, oracle, runs, unit);
    AlwaysListed(cfg, plan, oracle, runs, |runs|, unit);
    assert runs[..|runs|] == runs;
  }

  /**
   * A target that is run as a whole loses its own result exactly when Buck2 is asked and each
   * answer that decides one of its allowed attempts prints lines for other names only. It is then
   * reported as missing, after using up all these attempts.
   */
  lemma {:induction false} WholeUnitIsLostIff(cfg: Config, plan: Plan, oracle: Oracle, runs: seq<GroupRun>, unit: Name)
    requires plan.Fresh() && WellFormed(plan) && plan.members == [unit]
    requires cfg.wholeTarget && IsUnit(unit)
    requires IsCompleteRun(cfg, plan, oracle, runs)
    ensures OutcomeOf(Trail(cfg, plan, runs, unit)) == MISSING && History(Trail(cfg, plan, runs, unit)) == []
            <==> AnswersLose(cfg, oracle, unit)
    ensures AnswersLose(cfg, oracle, unit) ==> |runs| == AllowedAttempts(cfg, unit)
  {
    hide IsRun, WellFormed, Trail, LosesUnit, LosesAt, Next, RequestCount, AllowedAttempts, MemoryMaxFor;
    var trail := Trail(cfg, plan, runs, unit);
    TrailIsEmptyIff(cfg, plan, oracle, runs, unit);
    HistoryFollowsTrail(trail);
    if AnswersLose(cfg, oracle, unit) {
      AnswersLoseEveryRun(cfg, plan, oracle, runs, unit, |runs|);
    }
    if trail == [] {
      LostUsesItsBudget(cfg, plan, oracle, runs, unit);
      forall k: nat | k < |runs|
        ensures MemoryMaxFor(cfg, [unit]).Some? && LosesAt(cfg, oracle, unit, k)
      {
        LosesUnitIff(cfg, plan, oracle, runs, unit, k);
      }
      LosesUnitIff(cfg, plan, oracle, runs, unit, 0);
    }
  }

  lemma {:induction false} LosingIsObserved(
      cfg: Config, plan: Plan, oracle: Oracle, runs: seq<GroupRun>, k: nat, unit: Name)
    requires IsRun(cfg, plan, oracle, runs) && k < |runs|
    requires WellFormed(plan) && plan.members == [unit]
    requires LosesUnit(cfg, oracle, RequestCount(runs[..k]), runs[k], unit)
    ensures !runs[k].ActionTimedOut()
  {
    hide Next, IsRun, WellFormed, RequestCount, ValidGroup, Loses, Conclude;
    FollowsAt(cfg, plan, oracle, runs, k);
    OnlyMemberRuns(cfg, plan, oracle, runs, k);
    var cursor := RequestCount(runs[..k]);
    LastAnswerDecides(cfg, oracle, cursor, plan.firstIndex + k, runs[k]);
    LosingAnswerIsObserved(cfg, unit, oracle(cursor + |runs[k].requests| - 1));
  }

  lemma {:induction false} LastAnswerDecides(cfg: Config, oracle: Oracle, cursor: nat, firstIndex: nat, run: GroupRun)
    requires ValidGroup(cfg, oracle, cursor, firstIndex, run) && run.requests != []
    ensures run.outcome == Conclude(cfg, run.names, oracle(cursor + |run.requests| - 1))
  {
    hide MemoryMaxFor, CachingEnabled, Conclude;
  }

  lemma {:induction false} LosingAnswerIsObserved(cfg: Config, unit: Name, response: Response)
    requires Loses(cfg, unit, response)
    ensures Conclude(cfg, [unit], response).Observed?
  {
    hide FirstStop, Marked;
  }

  lemma {:induction false} AlwaysListed(
      cfg: Config, plan: Plan, oracle: Oracle, runs: seq<GroupRun>, k: nat, unit: Name)
    requires WellFormed(plan) && plan.members == [unit]
    requires IsRun(cfg, plan, oracle, runs) && k <= |runs|
    ensures RunsWith(runs[..k], unit) == k
  {
    hide IsRun, WellFormed;
    if k > 0 {
      AlwaysListed(cfg, plan, oracle, runs, k - 1, unit);
      assert runs[..k][..k - 1] == runs[..k - 1];
      OnlyMemberRuns(cfg, plan, oracle, runs, k - 1);
    }
  }

  /** For one: whenever Buck2 answers with exit 0 and one passing test, the unit itself is missing. */
  lemma {:induction false} PassingDoctestIsLost(cfg: Config, plan: Plan, oracle: Oracle, runs: seq<GroupRun>)
    requires plan.Fresh() && WellFormed(plan) && plan.members == [DOCTEST_RESULT_NAME]
    requires cfg.wholeTarget && cfg.overrides == []
    requires forall i: nat :: oracle(i) == PassingDoctest()
    requires IsCompleteRun(cfg, plan, oracle, runs)
    ensures OutcomeOf(Trail(cfg, plan, runs, DOCTEST_RESULT_NAME)) == MISSING
  {
    hide IsCompleteRun, WellFormed, Trail, Loses;
    DoctestLoses(cfg);
    assert forall k: nat :: LosesAt(cfg, oracle, DOCTEST_RESULT_NAME, k);
    WholeUnitIsLostIff(cfg, plan, oracle, runs, DOCTEST_RESULT_NAME);
  }

  function PassingDoctest(): Response {
    Completed(
      CompletedAction(
        ProcessOutcome.Finished(0), map["m::t" := Observation(Pass, None)], [], Local, 0, None))
  }

  lemma {:induction false} DoctestLoses(cfg: Config)
    ensures Loses(cfg, DOCTEST_RESULT_NAME, PassingDoctest())
  {
    var seen: map<Name, Observation> := map["m::t" := Observation(Pass, None)];
    assert "m::t" in seen;
    assert DOCTEST_RESULT_NAME[0] != "m::t"[0];
  }

  // ---------------------------------------------------------------- the rules leave no choice

  lemma {:induction false} RetriedWasQueued(
      cfg: Config, oracle: Oracle, cursor: nat, firstIndex: nat, run: GroupRun, i: nat)
    requires ValidGroup(cfg, oracle, cursor, firstIndex, run)
    requires i < |run.requests| - 1
    ensures Queued(oracle, cursor + i)
  {
    hide Conclude, CachingEnabled;
    var request := run.requests[i];
  }

  lemma {:induction false} RerunFollows(cfg: Config, plan: Plan, oracle: Oracle, runs: seq<GroupRun>, k: nat)
    requires IsRun(cfg, plan, oracle, runs)
    requires k < |runs|
    ensures Next(cfg, plan, runs[..k]).Rerun?
  {
    hide Next, ValidGroup;
    assert Follows(cfg, plan, oracle, runs[..k], runs[k]);
  }

  lemma {:induction false} GroupIsDetermined(
      cfg: Config, oracle: Oracle, cursor: nat, firstIndex: nat, a: GroupRun, b: GroupRun)
    requires ValidGroup(cfg, oracle, cursor, firstIndex, a) && ValidGroup(cfg, oracle, cursor, firstIndex, b)
    requires a.names == b.names && a.selection == b.selection
    ensures a == b
  {
    hide Conclude, CachingEnabled, MemoryMaxFor;
    if MemoryMaxFor(cfg, a.names).Some? {
      if |a.requests| < |b.requests| {
        RetriedWasQueued(cfg, oracle, cursor, firstIndex, b, |a.requests| - 1);
      } else if |b.requests| < |a.requests| {
        RetriedWasQueued(cfg, oracle, cursor, firstIndex, a, |b.requests| - 1);
      }
      assert a.requests == b.requests;
    }
  }

  lemma {:induction false} SamePrefix(
      cfg: Config, plan: Plan, oracle: Oracle, a: seq<GroupRun>, b: seq<GroupRun>, k: nat)
    requires IsRun(cfg, plan, oracle, a) && IsRun(cfg, plan, oracle, b)
    requires k <= |a| && k <= |b|
    ensures a[..k] == b[..k]
  {
    hide Next, ValidGroup;
    if k > 0 {
      var last := k - 1;
      SamePrefix(cfg, plan, oracle, a, b, last);
      assert Follows(cfg, plan, oracle, a[..last], a[last]) && Follows(cfg, plan, oracle, b[..last], b[last]);
      OnlyLengthCounts(a[..last], a[last], b[last]);
      GroupIsDetermined(cfg, oracle, RequestCount(a[..last]), plan.firstIndex + last, a[last], b[last]);
      assert a[..k] == a[..last] + [a[last]] && b[..k] == b[..last] + [b[last]];
    }
  }

  lemma {:induction false} OnlyLengthCounts(before: seq<GroupRun>, a: GroupRun, b: GroupRun)
    ensures FailureRetries(before + [a]) == FailureRetries(before + [b])
  {
    assert (before + [a])[..|before|] == before == (before + [b])[..|before|];
  }

  /** Buck2's answers decide the whole log: a plan has exactly one complete run per oracle. */
  lemma {:induction false} RunIsDetermined(cfg: Config, plan: Plan, oracle: Oracle, a: seq<GroupRun>, b: seq<GroupRun>)
    requires IsCompleteRun(cfg, plan, oracle, a) && IsCompleteRun(cfg, plan, oracle, b)
    ensures a == b
  {
    hide Next, ValidGroup;
    var k := if |a| < |b| then |a| else |b|;
    SamePrefix(cfg, plan, oracle, a, b, k);
    assert a[..|a|] == a && b[..|b|] == b;
    if |a| < |b| {
      RerunFollows(cfg, plan, oracle, b, k);
    } else if |b| < |a| {
      RerunFollows(cfg, plan, oracle, a, k);
    }
  }

  /** So the results of an action, isolation included, are a function of Buck2's answers. */
  lemma {:induction false} ActionIsDetermined(cfg: Config, plan: Plan, world: World, a: ActionLog, b: ActionLog)
    requires IsAction(cfg, plan, world, a) && IsAction(cfg, plan, world, b)
    ensures a == b
  {
    hide Next, IsCompleteRun;
    RunIsDetermined(cfg, plan, world.batch, a.runs, b.runs);
    if Next(cfg, plan, a.runs).Isolate? {
      var failing := Next(cfg, plan, a.runs).names;
      forall j | 0 <= j < |failing|
        ensures a.isolated[j] == b.isolated[j]
      {
        assert IsolatedAs(cfg, plan, world, a, failing, j) && IsolatedAs(cfg, plan, world, b, failing, j);
        RunIsDetermined(
          cfg, IsolationPlan(cfg, plan, a.runs, failing, j), world.single(j), a.isolated[j], b.isolated[j]);
      }
      assert a.isolated == b.isolated;
    }
  }
}
