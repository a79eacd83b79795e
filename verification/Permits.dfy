/**
 * The two-level permit protocol: per-target semaphore, then global semaphore, then the RPC.
 *
 * Every action, and every singleton that isolation re-runs, is an actor. Actors interleave in any
 * order; the two kinds of semaphore serve their waiters first in, first out.
 */
module Permits {
  import opened Results
  import opened Sequences
  import opened ActionModel

  datatype Phase =
    | Idle
    | WaitTarget
    | Preparing
    | WaitGlobal
    | InFlight
    | Answered
    | Deciding
    | Joining(first: nat, count: nat)
    | Done

  /**
   * `reruns` group runs and, in the current group, `retries` queue-timeout retries are left;
   * `members` may still be isolated, each with `singleReruns` group runs after its first.
   */
  datatype Actor = Actor(target: nat, phase: Phase, reruns: nat, retries: nat, members: nat, singleReruns: nat)

  datatype Limits = Limits(global: nat, perTarget: nat)

  datatype State = State(actors: seq<Actor>, globalQueue: seq<nat>, targetQueues: seq<seq<nat>>)

  // ---------------------------------------------------------------- who holds and who waits

  datatype Role = HoldsTarget(target: nat) | HoldsGlobal | WaitsForTarget(target: nat) | WaitsForGlobal

  predicate Plays(actor: Actor, role: Role) {
    match role
    case HoldsTarget(target) =>
      && actor.target == target
      && (actor.phase.Preparing? || actor.phase.WaitGlobal? || actor.phase.InFlight? || actor.phase.Answered?)
    case HoldsGlobal => actor.phase.InFlight?
    case WaitsForTarget(target) => actor.target == target && actor.phase.WaitTarget?
    case WaitsForGlobal => actor.phase.WaitGlobal?
  }

  function Who(actors: seq<Actor>, role: Role): set<nat> {
    set i: nat | i < |actors| && Plays(actors[i], role)
  }

  lemma {:induction false} WhoUpdated(actors: seq<Actor>, i: nat, actor: Actor, role: Role)
    requires i < |actors|
    ensures Who(actors[i := actor], role) == if Plays(actor, role) then Who(actors, role) + {i}
            else Who(actors, role) - {i}
  {
    hide Plays;
  }

  lemma {:induction false} WhoSpawned(actors: seq<Actor>, children: seq<Actor>, role: Role)
    requires forall child :: child in children ==> child.phase.Idle?
    ensures Who(actors + children, role) == Who(actors, role)
  {
    var all := actors + children;
    forall i: nat
      ensures i in Who(all, role) <==> i in Who(actors, role)
    {
      if |actors| <= i < |all| {
        assert all[i] in children;
      }
    }
  }

  // ---------------------------------------------------------------- steps

  datatype Verdict = Retry | Finish | IsolateSome(count: nat)

  datatype Step =
    | JoinTarget(actor: nat)
    | GrantTarget(target: nat)
    | JoinGlobal(actor: nat)
    | Refuse(actor: nat)
    | GrantGlobal
    | Answer(actor: nat)
    | Release(actor: nat, queueTimeout: bool)
    | Decide(actor: nat, verdict: Verdict)
    | Resume(actor: nat)

  predicate In(state: State, i: nat, phase: Phase) {
    i < |state.actors| && state.actors[i].phase == phase
  }

  predicate Finished(state: State, i: nat) {
    i < |state.actors| && state.actors[i].phase.Done?
  }

  predicate Allows(actor: Actor, verdict: Verdict) {
    match verdict
    case Retry => actor.reruns > 0
    case Finish => true
    case IsolateSome(count) => 1 <= count <= actor.members
  }

  ghost predicate Enabled(limits: Limits, state: State, step: Step) {
    match step
    case JoinTarget(i) => In(state, i, Idle) && state.actors[i].target < |state.targetQueues|
    case GrantTarget(t) =>
      && t < |state.targetQueues| && state.targetQueues[t] != []
      && |Who(state.actors, HoldsTarget(t))| < limits.perTarget
      && In(state, state.targetQueues[t][0], WaitTarget)
    case JoinGlobal(i) => In(state, i, Preparing)
    case Refuse(i) => In(state, i, Preparing)
    case GrantGlobal =>
      && state.globalQueue != []
      && |Who(state.actors, HoldsGlobal)| < limits.global
      && In(state, state.globalQueue[0], WaitGlobal)
    case Answer(i) => In(state, i, InFlight)
    case Release(i, _) => In(state, i, Answered)
    case Decide(i, verdict) => In(state, i, Deciding) && Allows(state.actors[i], verdict)
    case Resume(i) =>
      && i < |state.actors| && state.actors[i].phase.Joining?
      && var first, count := state.actors[i].phase.first, state.actors[i].phase.count;
         forall child: nat :: first <= child < first + count ==> Finished(state, child)
  }

  function Moved(state: State, i: nat, phase: Phase): State
    requires i < |state.actors|
  {
    state.(actors := state.actors[i := state.actors[i].(phase := phase)])
  }

  function Children(parent: Actor, count: nat): (children: seq<Actor>)
    ensures |children| == count
    ensures forall child :: child in children ==>
            child == Actor(parent.target, Idle, parent.singleReruns, INFRA_MAX_ATTEMPTS - 1, 0, 0)
  {
    seq(count, _ => Actor(parent.target, Idle, parent.singleReruns, INFRA_MAX_ATTEMPTS - 1, 0, 0))
  }

  function Decided(state: State, i: nat, verdict: Verdict): State
    requires i < |state.actors| && Allows(state.actors[i], verdict)
  {
    var actor := state.actors[i];
    match verdict
    case Finish => Moved(state, i, Done)
    case Retry =>
      state.(actors := state.actors[i := actor.(
        phase := Idle, reruns := actor.reruns - 1, retries := INFRA_MAX_ATTEMPTS - 1)])
    case IsolateSome(count) =>
      var parent := actor.(phase := Joining(|state.actors|, count), members := 0);
      state.(actors := state.actors[i := parent] + Children(actor, count))
  }

  ghost function Apply(limits: Limits, state: State, step: Step): State
    requires Enabled(limits, state, step)
  {
    match step
    case JoinTarget(i) =>
      var t := state.actors[i].target;
      Moved(state, i, WaitTarget).(targetQueues := state.targetQueues[t := state.targetQueues[t] + [i]])
    case GrantTarget(t) =>
      var i := state.targetQueues[t][0];
      Moved(state, i, Preparing).(targetQueues := state.targetQueues[t := state.targetQueues[t][1..]])
    case JoinGlobal(i) => Moved(state, i, WaitGlobal).(globalQueue := state.globalQueue + [i])
    case Refuse(i) => Moved(state, i, Deciding)
    case GrantGlobal =>
      Moved(state, state.globalQueue[0], InFlight).(globalQueue := state.globalQueue[1..])
    case Answer(i) => Moved(state, i, Answered)
    case Release(i, queueTimeout) =>
      var actor := state.actors[i];
      if queueTimeout && actor.retries > 0 then
        state.(actors := state.actors[i := actor.(phase := Idle, retries := actor.retries - 1)])
      else Moved(state, i, Deciding)
    case Decide(i, verdict) => Decided(state, i, verdict)
    case Resume(i) => Moved(state, i, Done)
  }

  // ---------------------------------------------------------------- what every step keeps

  /** A queue holds exactly the actors that wait for it, each once. */
  ghost predicate Queues(queue: seq<nat>, waiting: set<nat>) {
    Distinct(queue) && forall i: nat :: i in queue <==> i in waiting
  }

  /** An isolating parent waits for actors younger than itself. */
  ghost predicate ChildrenAreYounger(actors: seq<Actor>) {
    forall i :: 0 <= i < |actors| && actors[i].phase.Joining? ==>
      i < actors[i].phase.first && actors[i].phase.first + actors[i].phase.count <= |actors|
  }

  ghost predicate TargetsKnown(state: State) {
    forall i :: 0 <= i < |state.actors| ==> state.actors[i].target < |state.targetQueues|
  }

  ghost predicate Inv(limits: Limits, state: State) {
    && TargetsKnown(state)
    && ChildrenAreYounger(state.actors)
    && Queues(state.globalQueue, Who(state.actors, WaitsForGlobal))
    && (forall t: nat :: t < |state.targetQueues| ==>
         Queues(state.targetQueues[t], Who(state.actors, WaitsForTarget(t))))
    && |Who(state.actors, HoldsGlobal)| <= limits.global
    && (forall t: nat :: |Who(state.actors, HoldsTarget(t))| <= limits.perTarget)
  }

  ghost predicate Starts(state: State) {
    && TargetsKnown(state)
    && state.globalQueue == []
    && (forall t :: 0 <= t < |state.targetQueues| ==> state.targetQueues[t] == [])
    && (forall i :: 0 <= i < |state.actors| ==> state.actors[i].phase.Idle?)
  }

  lemma {:induction false} StartsInv(limits: Limits, state: State)
    requires Starts(state)
    ensures Inv(limits, state)
  {
    forall role: Role
      ensures Who(state.actors, role) == {}
    {
    }
  }

  lemma {:induction false} QueuesPush(queue: seq<nat>, waiting: set<nat>, i: nat)
    requires Queues(queue, waiting) && i !in waiting
    ensures Queues(queue + [i], waiting + {i})
  {
  }

  lemma {:induction false} QueuesPop(queue: seq<nat>, waiting: set<nat>)
    requires Queues(queue, waiting) && queue != []
    ensures Queues(queue[1..], waiting - {queue[0]})
  {
    forall i: nat
      ensures i in queue[1..] <==> i in waiting - {queue[0]}
    {
      assert queue == [queue[0]] + queue[1..];
      if i in queue[1..] {
        var k :| 0 <= k < |queue[1..]| && queue[1..][k] == i;
        assert queue[k + 1] == i;
      }
    }
  }

  /** One actor changes, and every role's players change by at most that actor. */
  lemma {:induction false} Changed(limits: Limits, state: State, i: nat, actor: Actor, next: State)
    requires Inv(limits, state) && i < |state.actors|
    requires next.actors == state.actors[i := actor]
    requires |next.targetQueues| == |state.targetQueues|
    requires actor.target == state.actors[i].target && !actor.phase.Joining?
    ensures TargetsKnown(next) && ChildrenAreYounger(next.actors)
    ensures forall role: Role ::
              Who(next.actors, role)
              == if Plays(actor, role) then Who(state.actors, role) + {i} else Who(state.actors, role) - {i}
    ensures forall role: Role :: i in Who(state.actors, role) <==> Plays(state.actors[i], role)
  {
    hide Plays;
    forall role: Role
      ensures Who(next.actors, role)
              == if Plays(actor, role) then Who(state.actors, role) + {i} else Who(state.actors, role) - {i}
    {
      WhoUpdated(state.actors, i, actor, role);
    }
  }

  /** A change of one actor that neither queues it nor takes it out of a queue. */
  lemma {:induction false} QuietChange(limits: Limits, state: State, i: nat, actor: Actor, next: State)
    requires Inv(limits, state) && i < |state.actors|
    requires next == state.(actors := state.actors[i := actor])
    requires actor.target == state.actors[i].target && !actor.phase.Joining?
    requires !state.actors[i].phase.WaitTarget? && !state.actors[i].phase.WaitGlobal?
    requires !actor.phase.WaitTarget? && !actor.phase.WaitGlobal?
    requires Plays(actor, HoldsGlobal) ==> Plays(state.actors[i], HoldsGlobal)
    requires Plays(actor, HoldsTarget(actor.target)) ==> Plays(state.actors[i], HoldsTarget(actor.target))
    ensures Inv(limits, next)
  {
    hide Who, TargetsKnown, ChildrenAreYounger, Queues, Plays;
    Changed(limits, state, i, actor, next);
    forall role: Role
      ensures |Who(next.actors, role)| <= |Who(state.actors, role)|
      ensures role.WaitsForTarget? || role.WaitsForGlobal? ==> Who(next.actors, role) == Who(state.actors, role)
    {
      PlaysNoMore(state.actors[i], actor, role);
      WhoIs(state.actors, role, i);
      SubsetIsSmaller(Who(next.actors, role), Who(state.actors, role));
    }
  }

  lemma {:induction false} PlaysNoMore(before: Actor, after: Actor, role: Role)
    requires after.target == before.target
    requires !before.phase.WaitTarget? && !before.phase.WaitGlobal?
    requires !after.phase.WaitTarget? && !after.phase.WaitGlobal?
    requires Plays(after, HoldsGlobal) ==> Plays(before, HoldsGlobal)
    requires Plays(after, HoldsTarget(after.target)) ==> Plays(before, HoldsTarget(after.target))
    ensures Plays(after, role) ==> Plays(before, role)
    ensures role.WaitsForTarget? || role.WaitsForGlobal? ==> !Plays(before, role) && !Plays(after, role)
  {
  }

  lemma {:induction false} JoinTargetKeeps(limits: Limits, state: State, i: nat)
    requires Inv(limits, state) && Enabled(limits, state, JoinTarget(i))
    ensures Inv(limits, Apply(limits, state, JoinTarget(i)))
  {
    hide Who, TargetsKnown, ChildrenAreYounger, Queues;
    var next := Apply(limits, state, JoinTarget(i));
    var t := state.actors[i].target;
    Changed(limits, state, i, next.actors[i], next);
    QueuesPush(state.targetQueues[t], Who(state.actors, WaitsForTarget(t)), i);
    forall role: Role
      ensures Who(next.actors, role)
              == if role == WaitsForTarget(t) then Who(state.actors, role) + {i} else Who(state.actors, role)
    {
    }
  }

  lemma {:induction false} GrantTargetKeeps(limits: Limits, state: State, t: nat)
    requires Inv(limits, state) && Enabled(limits, state, GrantTarget(t))
    ensures Inv(limits, Apply(limits, state, GrantTarget(t)))
  {
    hide Who, TargetsKnown, ChildrenAreYounger, Queues;
    var next := Apply(limits, state, GrantTarget(t));
    var i := state.targetQueues[t][0];
    assert state.actors[i].target == t by {
      QueueHeadWaits(state.targetQueues[t], Who(state.actors, WaitsForTarget(t)));
      WhoIs(state.actors, WaitsForTarget(t), i);
    }
    Changed(limits, state, i, next.actors[i], next);
    QueuesPop(state.targetQueues[t], Who(state.actors, WaitsForTarget(t)));
    forall role: Role
      ensures Who(next.actors, role)
              == if role == WaitsForTarget(t) then Who(state.actors, role) - {i}
                 else if role == HoldsTarget(t) then Who(state.actors, role) + {i}
                 else Who(state.actors, role)
    {
    }
  }

  lemma {:induction false} QueueHeadWaits(queue: seq<nat>, waiting: set<nat>)
    requires Queues(queue, waiting) && queue != []
    ensures queue[0] in waiting
  {
    assert queue[0] in queue;
  }

  lemma {:induction false} WhoIs(actors: seq<Actor>, role: Role, i: nat)
    ensures i in Who(actors, role) <==> i < |actors| && Plays(actors[i], role)
  {
    hide Plays;
  }

  lemma {:induction false} JoinGlobalKeeps(limits: Limits, state: State, i: nat)
    requires Inv(limits, state) && Enabled(limits, state, JoinGlobal(i))
    ensures Inv(limits, Apply(limits, state, JoinGlobal(i)))
  {
    hide Who, TargetsKnown, ChildrenAreYounger, Queues;
    var next := Apply(limits, state, JoinGlobal(i));
    Changed(limits, state, i, next.actors[i], next);
    QueuesPush(state.globalQueue, Who(state.actors, WaitsForGlobal), i);
    forall role: Role
      ensures Who(next.actors, role)
              == if role == WaitsForGlobal then Who(state.actors, role) + {i} else Who(state.actors, role)
    {
    }
  }

  lemma {:induction false} GrantGlobalKeeps(limits: Limits, state: State)
    requires Inv(limits, state) && Enabled(limits, state, GrantGlobal)
    ensures Inv(limits, Apply(limits, state, GrantGlobal))
  {
    hide Who, TargetsKnown, ChildrenAreYounger, Queues;
    var next := Apply(limits, state, GrantGlobal);
    var i := state.globalQueue[0];
    Changed(limits, state, i, next.actors[i], next);
    QueuesPop(state.globalQueue, Who(state.actors, WaitsForGlobal));
    forall role: Role
      ensures Who(next.actors, role)
              == if role == WaitsForGlobal then Who(state.actors, role) - {i}
                 else if role == HoldsGlobal then Who(state.actors, role) + {i}
                 else Who(state.actors, role)
    {
    }
  }

  lemma {:induction false} IsolateKeeps(limits: Limits, state: State, i: nat, count: nat)
    requires Inv(limits, state) && Enabled(limits, state, Decide(i, IsolateSome(count)))
    ensures Inv(limits, Apply(limits, state, Decide(i, IsolateSome(count))))
  {
    hide Who, Queues;
    var next := Apply(limits, state, Decide(i, IsolateSome(count)));
    var actor := state.actors[i];
    var parent := actor.(phase := Joining(|state.actors|, count), members := 0);
    var children := Children(actor, count);
    assert next.actors == state.actors[i := parent] + children;
    forall role: Role
      ensures Who(next.actors, role) == Who(state.actors, role)
    {
      WhoUpdated(state.actors, i, parent, role);
      WhoSpawned(state.actors[i := parent], children, role);
      WhoIs(state.actors, role, i);
    }
    forall k | 0 <= k < |next.actors|
      ensures next.actors[k].target < |next.targetQueues|
      ensures next.actors[k].phase.Joining? ==>
                k < next.actors[k].phase.first
                  && next.actors[k].phase.first + next.actors[k].phase.count <= |next.actors|
    {
      if |state.actors| <= k {
        assert next.actors[k] in children;
      }
    }
  }

  /** Every step keeps the bounds and the queues. */
  lemma {:induction false} StepKeepsInv(limits: Limits, state: State, step: Step)
    requires Inv(limits, state) && Enabled(limits, state, step)
    ensures Inv(limits, Apply(limits, state, step))
  {
    hide Inv, Enabled, Who;
    match step
    case JoinTarget(i) => JoinTargetKeeps(limits, state, i);
    case GrantTarget(t) => GrantTargetKeeps(limits, state, t);
    case JoinGlobal(i) => JoinGlobalKeeps(limits, state, i);
    case GrantGlobal => GrantGlobalKeeps(limits, state);
    case Decide(i, IsolateSome(count)) => IsolateKeeps(limits, state, i, count);
    case Refuse(i) => OtherStepKeeps(limits, state, step, i);
    case Answer(i) => OtherStepKeeps(limits, state, step, i);
    case Release(i, _) => OtherStepKeeps(limits, state, step, i);
    case Decide(i, _) => OtherStepKeeps(limits, state, step, i);
    case Resume(i) => OtherStepKeeps(limits, state, step, i);
  }

  lemma {:induction false} OtherStepKeeps(limits: Limits, state: State, step: Step, i: nat)
    requires Inv(limits, state) && Enabled(limits, state, step)
    requires step == Refuse(i) || step == Answer(i) || (step.Release? && step.actor == i) || step == Resume(i)
             || (step.Decide? && step.actor == i && !step.verdict.IsolateSome?)
    ensures Inv(limits, Apply(limits, state, step))
  {
    hide Inv, Who;
    var next := Apply(limits, state, step);
    QuietChange(limits, state, i, next.actors[i], next);
  }

  // ---------------------------------------------------------------- runs

  /** A run from a fresh start: `states` has one entry more than `steps`. */
  ghost predicate IsExecution(limits: Limits, states: seq<State>, steps: seq<Step>) {
    && |states| == |steps| + 1
    && Starts(states[0])
    && forall k {:trigger Enabled(limits, states[k], steps[k])} :: 0 <= k < |steps| ==>
         Enabled(limits, states[k], steps[k]) && states[k + 1] == Apply(limits, states[k], steps[k])
  }

  /** The bounds hold in every state of every run. */
  lemma {:induction false} AlwaysInv(limits: Limits, states: seq<State>, steps: seq<Step>, k: nat)
    requires IsExecution(limits, states, steps)
    requires k < |states|
    ensures Inv(limits, states[k])
  {
    if k == 0 {
      StartsInv(limits, states[0]);
    } else {
      AlwaysInv(limits, states, steps, k - 1);
      assert Enabled(limits, states[k - 1], steps[k - 1]);
      StepKeepsInv(limits, states[k - 1], steps[k - 1]);
    }
  }

  /** The header's claim: at most `perTarget` actions of one target are on the global semaphore. */
  lemma {:induction false} GlobalQueueIsShared(
      limits: Limits, states: seq<State>, steps: seq<Step>, k: nat, target: nat)
    requires IsExecution(limits, states, steps)
    requires k < |states|
    ensures |Who(states[k].actors, HoldsGlobal)| <= limits.global
    ensures |OnGlobal(states[k].actors, target)| <= limits.perTarget
  {
    AlwaysInv(limits, states, steps, k);
    SubsetIsSmaller(OnGlobal(states[k].actors, target), Who(states[k].actors, HoldsTarget(target)));
  }

  /** The actors of the target that wait for the global semaphore or hold it. */
  function OnGlobal(actors: seq<Actor>, target: nat): set<nat> {
    set i: nat | i < |actors| && actors[i].target == target
      && (actors[i].phase.WaitGlobal? || actors[i].phase.InFlight?)
  }

  // ---------------------------------------------------------------- fairness

  /** How many actors of the target stand in this stretch of a queue. */
  function OfTarget(queue: seq<nat>, actors: seq<Actor>, target: nat): nat {
    if queue == [] then 0
    else
      OfTarget(queue[1..], actors, target)
      + (if queue[0] < |actors| && actors[queue[0]].target == target then 1 else 0)
  }

  /** Global grants that the steps make to actors of the target. */
  ghost function GrantsTo(states: seq<State>, steps: seq<Step>, target: nat): nat
    requires |states| == |steps| + 1
  {
    if steps == [] then 0
    else
      var last := |steps| - 1;
      GrantsTo(states[..|steps|], steps[..last], target)
        + (if GrantsTarget(states[last], steps[last], target) then 1 else 0)
  }

  predicate GrantsTarget(state: State, step: Step, target: nat) {
    && step.GrantGlobal? && state.globalQueue != []
    && state.globalQueue[0] < |state.actors| && state.actors[state.globalQueue[0]].target == target
  }

  lemma {:induction false} SubsetOfWho(queue: seq<nat>, actors: seq<Actor>, target: nat) returns (members: set<nat>)
    requires Distinct(queue)
    ensures |members| == OfTarget(queue, actors, target)
    ensures forall i :: i in members ==> i in queue && i < |actors| && actors[i].target == target
  {
    if queue == [] {
      members := {};
    } else {
      members := SubsetOfWho(queue[1..], actors, target);
      assert queue[0] !in queue[1..];
      if queue[0] < |actors| && actors[queue[0]].target == target {
        members := members + {queue[0]};
      }
    }
  }

  /** At most `perTarget` actors of any one target wait in the global queue. */
  lemma {:induction false} QueueShare(limits: Limits, state: State, upTo: nat, target: nat)
    requires Inv(limits, state)
    requires upTo <= |state.globalQueue|
    ensures OfTarget(state.globalQueue[..upTo], state.actors, target) <= limits.perTarget
  {
    var members := SubsetOfWho(state.globalQueue[..upTo], state.actors, target);
    forall i | i in members
      ensures i in Who(state.actors, HoldsTarget(target))
    {
      assert i in state.globalQueue;
      WhoIs(state.actors, WaitsForGlobal, i);
      WhoIs(state.actors, HoldsTarget(target), i);
    }
    SubsetIsSmaller(members, Who(state.actors, HoldsTarget(target)));
  }

  lemma {:induction false} TargetsStay(queue: seq<nat>, before: seq<Actor>, after: seq<Actor>, target: nat)
    requires |before| <= |after|
    requires forall i :: 0 <= i < |before| ==> after[i].target == before[i].target
    requires forall i :: i in queue ==> i < |before|
    ensures OfTarget(queue, after, target) == OfTarget(queue, before, target)
  {
    if queue != [] {
      assert queue[0] in queue;
      assert forall i :: i in queue[1..] ==> i in queue;
      TargetsStay(queue[1..], before, after, target);
    }
  }

  lemma {:induction false} StepKeepsTargets(limits: Limits, state: State, step: Step)
    requires Enabled(limits, state, step)
    ensures var next := Apply(limits, state, step);
            |state.actors| <= |next.actors| && forall i :: 0 <= i < |state.actors| ==>
              next.actors[i].target == state.actors[i].target
  {
  }

  /** One step moves a waiting actor forward by exactly the grant it makes, if any. */
  lemma {:induction false} StepMovesAhead(limits: Limits, state: State, step: Step, place: nat, target: nat)
    requires Inv(limits, state) && Enabled(limits, state, step)
    requires place < |state.globalQueue|
    requires place == 0 ==> !step.GrantGlobal?
    ensures var next := Apply(limits, state, step);
            var moved := if step.GrantGlobal? then place - 1 else place;
            && moved < |next.globalQueue| && next.globalQueue[moved] == state.globalQueue[place]
            && OfTarget(next.globalQueue[..moved], next.actors, target)
               + (if GrantsTarget(state, step, target) then 1 else 0)
               == OfTarget(state.globalQueue[..place], state.actors, target)
  {
    hide Who, TargetsKnown, ChildrenAreYounger, Queues;
    var next := Apply(limits, state, step);
    var queue := state.globalQueue[..place];
    StepKeepsTargets(limits, state, step);
    forall i | i in queue
      ensures i < |state.actors|
    {
      assert i in state.globalQueue;
      QueuedExists(state.actors, state.globalQueue, i);
    }
    TargetsStay(queue, state.actors, next.actors, target);
    if step.GrantGlobal? {
      assert next.globalQueue[..place - 1] == queue[1..];
    } else {
      assert next.globalQueue[..place] == queue;
    }
  }

  lemma {:induction false} QueuedExists(actors: seq<Actor>, queue: seq<nat>, i: nat)
    requires Queues(queue, Who(actors, WaitsForGlobal)) && i in queue
    ensures i < |actors|
  {
    WhoIs(actors, WaitsForGlobal, i);
  }

  /** The stretch of a run in which the actor at this place of the global queue keeps waiting. */
  ghost predicate Waits(limits: Limits, states: seq<State>, steps: seq<Step>, actor: nat) {
    && |states| == |steps| + 1
    && (forall k :: 0 <= k < |states| ==> actor in states[k].globalQueue)
    && (forall k {:trigger Enabled(limits, states[k], steps[k])} :: 0 <= k < |steps| ==>
          Enabled(limits, states[k], steps[k]) && states[k + 1] == Apply(limits, states[k], steps[k]))
  }

  lemma {:induction false} WaitsEarlier(limits: Limits, states: seq<State>, steps: seq<Step>, actor: nat)
    requires Waits(limits, states, steps, actor) && steps != []
    ensures Waits(limits, states[..|steps|], steps[..|steps| - 1], actor)
  {
    hide Enabled, Apply;
    var earlier, fewer := states[..|steps|], steps[..|steps| - 1];
    forall k | 0 <= k < |fewer|
      ensures Enabled(limits, earlier[k], fewer[k]) && earlier[k + 1] == Apply(limits, earlier[k], fewer[k])
    {
      assert Enabled(limits, states[k], steps[k]);
    }
  }

  lemma {:induction false} GrantsUseUpPlace(
    limits: Limits, states: seq<State>, steps: seq<Step>, actor: nat, start: nat, target: nat) returns (place: nat)
    requires Waits(limits, states, steps, actor)
    requires Inv(limits, states[0])
    requires start < |states[0].globalQueue| && states[0].globalQueue[start] == actor
    ensures Inv(limits, states[|steps|])
    ensures place < |states[|steps|].globalQueue| && states[|steps|].globalQueue[place] == actor
    ensures GrantsTo(states, steps, target)
            + OfTarget(states[|steps|].globalQueue[..place], states[|steps|].actors, target)
            == OfTarget(states[0].globalQueue[..start], states[0].actors, target)
    decreases |steps|
  {
    hide Inv, Enabled, Apply, OfTarget, GrantsTarget;
    if steps == [] {
      place := start;
    } else {
      var last := |steps| - 1;
      var earlier := states[..|steps|];
      assert Enabled(limits, states[last], steps[last]);
      WaitsEarlier(limits, states, steps, actor);
      place := GrantsUseUpPlace(limits, earlier, steps[..last], actor, start, target);
      StepKeepsInv(limits, states[last], steps[last]);
      StillQueued(limits, states[last], steps[last], place);
      StepMovesAhead(limits, states[last], steps[last], place, target);
      place := if steps[last].GrantGlobal? then place - 1 else place;
    }
  }

  /** An actor that is still queued after the step was not the one the step granted. */
  lemma {:induction false} StillQueued(limits: Limits, state: State, step: Step, place: nat)
    requires Inv(limits, state) && Enabled(limits, state, step)
    requires place < |state.globalQueue|
    requires state.globalQueue[place] in Apply(limits, state, step).globalQueue
    ensures place == 0 ==> !step.GrantGlobal?
  {
    hide Who, TargetsKnown, ChildrenAreYounger;
  }

  /**
   * Fair interleaving: in every run, from the state in which an actor has joined the global queue
   * until its own grant, at most `perTarget` global permits go to the actors of any one target.
   */
  lemma {:induction false} BoundedOvertaking(
    limits: Limits, states: seq<State>, steps: seq<Step>, joined: nat, last: nat, actor: nat, target: nat)
    requires IsExecution(limits, states, steps)
    requires joined <= last < |states|
    requires forall k :: joined <= k <= last ==> actor in states[k].globalQueue
    ensures GrantsTo(states[joined..last + 1], steps[joined..last], target) <= limits.perTarget
  {
    hide Enabled, Apply, Inv, GrantsTo;
    var stretch, taken := states[joined..last + 1], steps[joined..last];
    forall k | 0 <= k < |taken|
      ensures Enabled(limits, stretch[k], taken[k]) && stretch[k + 1] == Apply(limits, stretch[k], taken[k])
    {
      assert Enabled(limits, states[joined + k], steps[joined + k]);
    }
    AlwaysInv(limits, states, steps, joined);
    var start :| 0 <= start < |stretch[0].globalQueue| && stretch[0].globalQueue[start] == actor;
    var place := GrantsUseUpPlace(limits, stretch, taken, actor, start, target);
    QueueShare(limits, stretch[0], start, target);
  }

  // ---------------------------------------------------------------- no deadlock

  lemma {:induction false} LastUnfinished(state: State) returns (i: nat)
    requires exists k: nat :: k < |state.actors| && !Finished(state, k)
    ensures i < |state.actors| && !Finished(state, i)
    ensures forall k: nat :: i < k < |state.actors| ==> Finished(state, k)
  {
    i := |state.actors| - 1;
    while Finished(state, i)
      invariant 0 <= i < |state.actors|
      invariant forall k: nat :: i < k < |state.actors| ==> Finished(state, k)
      decreases i
    {
      i := i - 1;
    }
  }

  predicate CanStepAlone(phase: Phase) {
    phase.Idle? || phase.Preparing? || phase.InFlight? || phase.Answered? || phase.Deciding?
  }

  lemma {:induction false} StepsAlone(limits: Limits, state: State, i: nat) returns (step: Step)
    requires TargetsKnown(state)
    requires i < |state.actors| && CanStepAlone(state.actors[i].phase)
    ensures Enabled(limits, state, step)
  {
    match state.actors[i].phase
    case Idle => step := JoinTarget(i);
    case Preparing => step := JoinGlobal(i);
    case InFlight => step := Answer(i);
    case Answered => step := Release(i, false);
    case Deciding => step := Decide(i, Finish);
  }

  lemma {:induction false} NobodyPlays(actors: seq<Actor>, role: Role)
    requires forall i :: 0 <= i < |actors| ==> !Plays(actors[i], role)
    ensures |Who(actors, role)| == 0
  {
    assert Who(actors, role) == {};
  }

  lemma {:induction false} GlobalCanGrant(limits: Limits, state: State, i: nat)
    requires 1 <= limits.global && 1 <= limits.perTarget && Queues(state.globalQueue, Who(state.actors, WaitsForGlobal))
    requires i < |state.actors| && state.actors[i].phase.WaitGlobal?
    requires forall k :: 0 <= k < |state.actors| ==> !CanStepAlone(state.actors[k].phase)
    ensures Enabled(limits, state, GrantGlobal)
  {
    WhoIs(state.actors, WaitsForGlobal, i);
    assert i in state.globalQueue;
    NobodyPlays(state.actors, HoldsGlobal);
    QueueHeadWaits(state.globalQueue, Who(state.actors, WaitsForGlobal));
  }

  lemma {:induction false} TargetCanGrant(limits: Limits, state: State, i: nat)
    requires 1 <= limits.global && 1 <= limits.perTarget
    requires i < |state.actors| && state.actors[i].phase.WaitTarget? && state.actors[i].target < |state.targetQueues|
    requires Queues(
               state.targetQueues[state.actors[i].target], Who(state.actors, WaitsForTarget(state.actors[i].target)))
    requires forall k :: 0 <= k < |state.actors| ==>
             !CanStepAlone(state.actors[k].phase) && !state.actors[k].phase.WaitGlobal?
    ensures Enabled(limits, state, GrantTarget(state.actors[i].target))
  {
    var t := state.actors[i].target;
    WhoIs(state.actors, WaitsForTarget(t), i);
    assert i in state.targetQueues[t];
    NobodyPlays(state.actors, HoldsTarget(t));
    QueueHeadWaits(state.targetQueues[t], Who(state.actors, WaitsForTarget(t)));
  }

  /**
   * No reachable state is stuck: as long as some actor is unfinished, some step is possible, even
   * with every limit at 1. An isolating parent holds no permit while its singletons run.
   */
  lemma {:induction false} NeverStuck(limits: Limits, state: State) returns (step: Step)
    requires Inv(limits, state) && 1 <= limits.global && 1 <= limits.perTarget
    requires exists k: nat :: k < |state.actors| && !Finished(state, k)
    ensures Enabled(limits, state, step)
  {
    if i :| 0 <= i < |state.actors| && CanStepAlone(state.actors[i].phase) {
      step := StepsAlone(limits, state, i);
    } else if i :| 0 <= i < |state.actors| && state.actors[i].phase.WaitGlobal? {
      GlobalCanGrant(limits, state, i);
      step := GrantGlobal;
    } else if i :| 0 <= i < |state.actors| && state.actors[i].phase.WaitTarget? {
      TargetCanGrant(limits, state, i);
      step := GrantTarget(state.actors[i].target);
    } else {
      var i := LastUnfinished(state);
      step := Resume(i);
    }
  }

  // ---------------------------------------------------------------- every run ends

  /** Steps of one group run after it is asked for: seven per try, and the return to deciding. */
  const GROUP_COST: nat := 7 * INFRA_MAX_ATTEMPTS

  function PhaseCost(actor: Actor): nat {
    match actor.phase
    case Idle => 7 * actor.retries + 8
    case WaitTarget => 7 * actor.retries + 7
    case Preparing => 7 * actor.retries + 6
    case WaitGlobal => 7 * actor.retries + 5
    case InFlight => 7 * actor.retries + 4
    case Answered => 7 * actor.retries + 3
    case Deciding => 2
    case Joining(_, _) => 1
    case Done => 0
  }

  function SingleCost(singleReruns: nat): nat {
    GROUP_COST * singleReruns + GROUP_COST + 1
  }

  /** An upper bound on the steps that the actor and its future singletons still take. */
  function Cost(actor: Actor): nat {
    GROUP_COST * actor.reruns + PhaseCost(actor) + actor.members * SingleCost(actor.singleReruns)
  }

  function TotalCost(actors: seq<Actor>): nat {
    if actors == [] then 0 else TotalCost(actors[..|actors| - 1]) + Cost(actors[|actors| - 1])
  }

  lemma {:induction false} TotalUpdated(actors: seq<Actor>, i: nat, actor: Actor)
    requires i < |actors|
    ensures TotalCost(actors[i := actor]) + Cost(actors[i]) == TotalCost(actors) + Cost(actor)
  {
    hide Cost;
    var last, updated := |actors| - 1, actors[i := actor];
    if i == last {
      assert updated[..last] == actors[..last];
    } else {
      TotalUpdated(actors[..last], i, actor);
      assert updated[..last] == actors[..last][i := actor];
    }
  }

  lemma {:induction false} TotalPush(actors: seq<Actor>, actor: Actor)
    ensures TotalCost(actors + [actor]) == TotalCost(actors) + Cost(actor)
  {
    hide Cost;
    assert (actors + [actor])[..|actors|] == actors;
  }

  lemma {:induction false} OneMoreTimes(n: nat, each: nat)
    ensures (n + 1) * each == n * each + each
  {
  }

  lemma {:induction false} TotalSpawned(actors: seq<Actor>, children: seq<Actor>, each: nat)
    requires forall child :: child in children ==> Cost(child) == each
    ensures TotalCost(actors + children) == TotalCost(actors) + |children| * each
  {
    hide Cost, TotalCost;
    if children == [] {
      assert actors + children == actors;
    } else {
      var rest, last := children[..|children| - 1], children[|children| - 1];
      assert children == rest + [last] && last in children;
      TotalSpawned(actors, rest, each);
      assert actors + children == (actors + rest) + [last];
      TotalPush(actors + rest, last);
      OneMoreTimes(|rest|, each);
    }
  }

  lemma {:induction false} IsolationCosts(actor: Actor, count: nat, first: nat)
    requires actor.phase.Deciding? && 1 <= count <= actor.members
    ensures Cost(actor.(phase := Joining(first, count), members := 0)) + count * SingleCost(actor.singleReruns)
            < Cost(actor)
    ensures forall child :: child in Children(actor, count) ==> Cost(child) == SingleCost(actor.singleReruns)
  {
    var each := SingleCost(actor.singleReruns);
    assert count * each <= actor.members * each;
  }

  lemma {:induction false} SimpleStepCosts(limits: Limits, state: State, step: Step, i: nat)
    requires Enabled(limits, state, step)
    requires !(step.Decide? && step.verdict.IsolateSome?)
    requires match step
             case GrantTarget(t) => i == state.targetQueues[t][0]
             case GrantGlobal => i == state.globalQueue[0]
             case JoinTarget(k) => i == k
             case JoinGlobal(k) => i == k
             case Refuse(k) => i == k
             case Answer(k) => i == k
             case Release(k, _) => i == k
             case Decide(k, _) => i == k
             case Resume(k) => i == k
    ensures i < |state.actors| && Apply(limits, state, step).actors
            == state.actors[i := Apply(limits, state, step).actors[i]]
    ensures Cost(Apply(limits, state, step).actors[i]) < Cost(state.actors[i])
  {
    hide SingleCost;
    if step.Decide? && step.verdict.Retry? {
      var reruns := state.actors[i].reruns;
      assert GROUP_COST * reruns == GROUP_COST * (reruns - 1) + GROUP_COST;
    }
  }

  /** Every step uses up some of the total cost. */
  lemma {:induction false} StepCosts(limits: Limits, state: State, step: Step)
    requires Enabled(limits, state, step)
    ensures TotalCost(Apply(limits, state, step).actors) < TotalCost(state.actors)
  {
    hide Cost;
    var next := Apply(limits, state, step);
    if step.Decide? && step.verdict.IsolateSome? {
      var i, count := step.actor, step.verdict.count;
      var actor := state.actors[i];
      var parent := actor.(phase := Joining(|state.actors|, count), members := 0);
      IsolationCosts(actor, count, |state.actors|);
      TotalUpdated(state.actors, i, parent);
      TotalSpawned(state.actors[i := parent], Children(actor, count), SingleCost(actor.singleReruns));
    } else {
      var i := match step
        case GrantTarget(t) => state.targetQueues[t][0]
        case GrantGlobal => state.globalQueue[0]
        case JoinTarget(k) => k
        case JoinGlobal(k) => k
        case Refuse(k) => k
        case Answer(k) => k
        case Release(k, _) => k
        case Decide(k, _) => k
        case Resume(k) => k;
      SimpleStepCosts(limits, state, step, i);
      TotalUpdated(state.actors, i, next.actors[i]);
    }
  }

  lemma {:induction false} CostBoundsSteps(limits: Limits, states: seq<State>, steps: seq<Step>, k: nat)
    requires IsExecution(limits, states, steps)
    requires k < |states|
    ensures k + TotalCost(states[k].actors) <= TotalCost(states[0].actors)
  {
    hide Enabled, Apply, TotalCost;
    if k > 0 {
      CostBoundsSteps(limits, states, steps, k - 1);
      assert Enabled(limits, states[k - 1], steps[k - 1]);
      StepCosts(limits, states[k - 1], steps[k - 1]);
    }
  }

  /**
   * Every run ends, and ends well: no run is longer than the cost of its start, and a run that
   * cannot go on has finished every actor.
   */
  lemma {:induction false} EveryRunEnds(limits: Limits, states: seq<State>, steps: seq<Step>)
    requires IsExecution(limits, states, steps)
    requires 1 <= limits.global && 1 <= limits.perTarget
    ensures |steps| <= TotalCost(states[0].actors)
    ensures (forall step :: !Enabled(limits, states[|steps|], step)) ==>
              forall i: nat :: i < |states[|steps|].actors| ==> Finished(states[|steps|], i)
  {
    hide Enabled, Apply, TotalCost, Inv;
    CostBoundsSteps(limits, states, steps, |steps|);
    AlwaysInv(limits, states, steps, |steps|);
    var final := states[|steps|];
    if exists k: nat :: k < |final.actors| && !Finished(final, k) {
      var step := NeverStuck(limits, final);
    }
  }
}
