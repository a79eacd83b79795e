/** The budgets of the permit protocol's actors cover the retry rules of their actions. */
module PermitBudgets {
  import opened Results
  import opened ActionModel
  import opened Permits
  import ActionTheorems

  /** The actor that an action is spawned as. */
  function Spawned(target: nat, cfg: Config, plan: Plan): Actor {
    var reruns := ActionTheorems.MaxAllowed(cfg, plan.members) + 1;
    Actor(target, Idle, reruns, INFRA_MAX_ATTEMPTS - 1, |plan.members|, reruns)
  }

  lemma {:induction false} IsolationFits(
    cfg: Config, plan: Plan, world: World, log: ActionLog, j: nat, bound: nat)
    requires IsAction(cfg, plan, world, log) && ActionTheorems.AllowsAtMost(cfg, plan.members, bound)
    requires j < |log.isolated|
    ensures |log.isolated[j]| <= bound + 2
    ensures forall k :: 0 <= k < |log.isolated[j]| ==> |log.isolated[j][k].requests| <= INFRA_MAX_ATTEMPTS
  {
    hide Next, IsRun, ActionTheorems.AllowsAtMost;
    ActionTheorems.IsolatedRunBound(cfg, plan, world, log, j, bound);
    ActionTheorems.IsolatedIsMember(cfg, plan, world, log, j);
    var failing := Next(cfg, plan, log.runs).names;
    forall k | 0 <= k < |log.isolated[j]|
      ensures |log.isolated[j][k].requests| <= INFRA_MAX_ATTEMPTS
    {
      ActionTheorems.FewRequests(
        cfg, IsolationPlan(cfg, plan, log.runs, failing, j), world.single(j), log.isolated[j], k);
    }
  }

  /** Whatever Buck2 answers, an action never needs more than the budgets of its actor. */
  lemma {:induction false} BudgetsSuffice(cfg: Config, plan: Plan, world: World, log: ActionLog, target: nat)
    requires IsAction(cfg, plan, world, log)
    ensures var actor := Spawned(target, cfg, plan);
            && |log.runs| <= actor.reruns + 1
            && |log.isolated| <= actor.members
            && (forall k :: 0 <= k < |log.runs| ==> |log.runs[k].requests| <= actor.retries + 1)
            && forall j :: 0 <= j < |log.isolated| ==>
                 && |log.isolated[j]| <= actor.singleReruns + 1
                 && forall k :: 0 <= k < |log.isolated[j]| ==> |log.isolated[j][k].requests| <= actor.retries + 1
  {
    hide Next, ValidGroup, ActionTheorems.MaxAllowed, ActionTheorems.AllowsAtMost, IsRun;
    var bound := ActionTheorems.MaxAllowed(cfg, plan.members);
    ActionTheorems.GroupRunBound(cfg, plan, world.batch, log.runs, bound);
    forall k | 0 <= k < |log.runs|
      ensures |log.runs[k].requests| <= INFRA_MAX_ATTEMPTS
    {
      ActionTheorems.FewRequests(cfg, plan, world.batch, log.runs, k);
    }
    if log.isolated != [] {
      ActionTheorems.IsolatedIsMember(cfg, plan, world, log, 0);
    }
    hide IsAction;
    forall j | 0 <= j < |log.isolated|
      ensures |log.isolated[j]| <= bound + 2
      ensures forall k :: 0 <= k < |log.isolated[j]| ==> |log.isolated[j][k].requests| <= INFRA_MAX_ATTEMPTS
    {
      IsolationFits(cfg, plan, world, log, j, bound);
    }
  }

  /** So the protocol lets the action make every move that the retry rules ask for. */
  lemma {:induction false} MovesAreAllowed(cfg: Config, plan: Plan, world: World, log: ActionLog, target: nat)
    requires IsAction(cfg, plan, world, log)
    ensures var actor := Spawned(target, cfg, plan);
            && (forall k :: 0 <= k < |log.runs| - 1 ==> AllowsAfter(actor, k, Retry))
            && AllowsAfter(actor, |log.runs| - 1, Finish)
            && (log.isolated != [] ==> AllowsAfter(actor, |log.runs| - 1, IsolateSome(|log.isolated|)))
  {
    hide IsAction, ActionTheorems.MaxAllowed;
    BudgetsSuffice(cfg, plan, world, log, target);
    StartsWithRun(cfg, plan, world, log);
  }

  lemma {:induction false} StartsWithRun(cfg: Config, plan: Plan, world: World, log: ActionLog)
    requires IsAction(cfg, plan, world, log)
    ensures log.runs != []
  {
  }

  /** The actor may make the move after so many group runs beyond its first. */
  predicate AllowsAfter(actor: Actor, reruns: int, verdict: Verdict) {
    0 <= reruns <= actor.reruns && Allows(actor.(reruns := actor.reruns - reruns), verdict)
  }
}
