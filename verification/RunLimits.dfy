/** Two things a run can do: run a tool whose grant was revoked between the check and the call, and run
    an action that one payload both approved and rejected. */
module RunLimits {
  import opened Rbac
  import opened AuditChain
  import opened Actions
  import opened Orchestration
  import opened AgentNodes

  function Fresh(policy: Policy): System {
    System(INITIAL, Paused, [], policy, [], [], {})
  }

  /** The thread after a plan of one permitted action. */
  function Planned(action: ProposedAction, policy: Policy): System {
    System(Checkpoint(Route([action]), [action], [], []), Paused,
           [Event(Proposed, action.actionId, "system")], policy, [], [], {})
  }

  lemma OneActionIsPlanned(ctx: Context, action: ProposedAction, policy: Policy)
    requires Judge(ctx, action, policy) == Allowed
    ensures Reaches(ctx, Fresh(policy), Planned(action, policy))
  {
    var s1 := Apply(ctx, Fresh(policy), StartPlanner([action]));
    var s2 := Apply(ctx, s1, Announce);
    var s3 := Apply(ctx, s2, JudgePlanned);
    assert s3.pc == Planning([], false, [action]);
    assert Apply(ctx, s3, EndPlanner) == Planned(action, policy);
    ReachesItself(ctx, Planned(action, policy));
    ReachesByStep(ctx, s3, EndPlanner, Planned(action, policy));
    ReachesByStep(ctx, s2, JudgePlanned, Planned(action, policy));
    ReachesByStep(ctx, s1, Announce, Planned(action, policy));
    ReachesByStep(ctx, Fresh(policy), StartPlanner([action]), Planned(action, policy));
  }

  /** The thread with its only action approved, if it needs approval, and the executor next. */
  function Ready(action: ProposedAction, policy: Policy): System {
    if RequiresApproval(action.tier) then
      System(Checkpoint(Executor, [action], [action.actionId], []), Paused,
             [Event(Proposed, action.actionId, "system"), Event(Approved, action.actionId, "human")], policy, [], [], {})
    else Planned(action, policy)
  }

  lemma OneGatedId(action: ProposedAction)
    requires RequiresApproval(action.tier)
    ensures Route([action]) == Approval && GatedIds([action]) == [action.actionId]
  {
    assert RequiresApproval([action][0].tier);
    assert [action][1..] == [];
  }

  lemma OneActionIsReady(ctx: Context, action: ProposedAction, policy: Policy)
    requires Judge(ctx, action, policy) == Allowed
    ensures Reaches(ctx, Fresh(policy), Ready(action, policy))
    ensures Ready(action, policy).cp.next == Executor
  {
    OneActionIsPlanned(ctx, action, policy);
    if RequiresApproval(action.tier) {
      ApprovalMakesReady(ctx, action, policy);
      ReachesThrough(ctx, Fresh(policy), Planned(action, policy), Ready(action, policy));
    }
  }

  lemma ApprovalMakesReady(ctx: Context, action: ProposedAction, policy: Policy)
    requires RequiresApproval(action.tier)
    ensures Reaches(ctx, Planned(action, policy), Ready(action, policy))
  {
    var id, s, end := action.actionId, Planned(action, policy), Ready(action, policy);
    OneGatedId(action);
    assert [id][1..] == [] && DecideIds([id], [id], true) == [Decision(id, true, "human")];
    assert ParseDecisions(ForAll(true), [id]) == [Decision(id, true, "human")];
    var s1 := Apply(ctx, s, Resume(ForAll(true)));
    var s2 := Apply(ctx, s1, Decide);
    assert s2.pc == Deciding([], [id], []);
    assert Apply(ctx, s2, EndApproval) == end;
    ReachesItself(ctx, end);
    ReachesByStep(ctx, s2, EndApproval, end);
    ReachesByStep(ctx, s1, Decide, end);
    ReachesByStep(ctx, s, Resume(ForAll(true)), end);
  }

  /** The permission can be gone when the tool runs: the policy is edited after the check. This goes for
      actions of every tier, approved ones included. */
  lemma RevocationCanComeLate(ctx: Context, action: ProposedAction, before: Policy, after: Policy) returns (s: System)
    requires Judge(ctx, action, before) == Allowed && Judge(ctx, action, after) != Allowed
    ensures Init(Fresh(before)) && Reaches(ctx, Fresh(before), s)
    ensures |s.effects| == 1 && s.effects[0].action == action && s.effects[0].ok
    ensures PermittedUnder(ctx, action, s.effects[0].checked) && !PermittedUnder(ctx, action, s.effects[0].policy)
  {
    OneActionIsReady(ctx, action, before);
    s := RunsAfterEdit(ctx, action, before, after);
    ReachesThrough(ctx, Fresh(before), Ready(action, before), s);
  }

  lemma RunsAfterEdit(ctx: Context, action: ProposedAction, before: Policy, after: Policy) returns (s: System)
    requires Judge(ctx, action, before) == Allowed && Ready(action, before).cp.next == Executor
    ensures Reaches(ctx, Ready(action, before), s)
    ensures s.effects == [Effect(action, before, after, |Ready(action, before).log|, true)]
  {
    var s4 := Ready(action, before);
    var s5 := s4.(pc := Executing(0));
    var s6 := s4.(pc := Cleared(0, action, before));
    var s7 := s6.(policy := after);
    assert CheckOne(ctx, s5) == s6;
    s := ExecuteOne(ctx, s7, true);
    ReachesItself(ctx, s);
    ReachesByStep(ctx, s7, Execute(true), s);
    ReachesByStep(ctx, s6, ChangePolicy(after), s);
    ReachesByStep(ctx, s5, Check, s);
    ReachesByStep(ctx, s4, StartExecutor, s);
  }

  function BothWays(id: string): Payload {
    Lists([id], [id])
  }

  /** The thread after a payload that both approved and rejected its only action. */
  function DecidedTwice(action: ProposedAction, policy: Policy): System {
    System(Checkpoint(Executor, [action], [action.actionId], [action.actionId]), Paused,
           [Event(Proposed, action.actionId, "system"), Event(Approved, action.actionId, "human"),
            Event(Rejected, action.actionId, "human")], policy, [], [], {})
  }

  lemma BothWaysParses(action: ProposedAction)
    requires RequiresApproval(action.tier)
    ensures Route([action]) == Approval
    ensures var id := action.actionId;
            ParseDecisions(BothWays(id), GatedIds([action])) == [Decision(id, true, "human"), Decision(id, false, "human")]
  {
    var id := action.actionId;
    OneGatedId(action);
    assert [id][1..] == [] && DecideIds([id], [id], true) == [Decision(id, true, "human")];
    assert DecideIds([id], [id], false) == [Decision(id, false, "human")];
  }

  lemma BothWaysIsAccepted(ctx: Context, action: ProposedAction, policy: Policy)
    requires RequiresApproval(action.tier)
    ensures Reaches(ctx, Planned(action, policy), DecidedTwice(action, policy))
  {
    var id, raw := action.actionId, BothWays(action.actionId);
    var s := Planned(action, policy);
    BothWaysParses(action);
    var s1 := Apply(ctx, s, Resume(raw));
    var s2 := Apply(ctx, s1, Decide);
    var s3 := Apply(ctx, s2, Decide);
    assert s3.pc == Deciding([], [id], [id]);
    var end := Apply(ctx, s3, EndApproval);
    assert end == DecidedTwice(action, policy);
    ReachesItself(ctx, end);
    ReachesByStep(ctx, s3, EndApproval, end);
    ReachesByStep(ctx, s2, Decide, end);
    ReachesByStep(ctx, s1, Decide, end);
    ReachesByStep(ctx, s, Resume(raw), end);
  }

  /** The executor asks only for an approval, so an action that was rejected as well still runs. */
  lemma DecidedBothWaysRuns(ctx: Context, action: ProposedAction, policy: Policy) returns (s: System)
    requires RequiresApproval(action.tier) && Judge(ctx, action, policy) == Allowed
    ensures Init(Fresh(policy)) && Reaches(ctx, Fresh(policy), s)
    ensures |s.effects| == 1 && s.effects[0].action == action && s.effects[0].ok
    ensures action.actionId in s.cp.rejected
  {
    var s0 := DecidedTwice(action, policy);
    OneActionIsPlanned(ctx, action, policy);
    BothWaysIsAccepted(ctx, action, policy);
    var s1 := Apply(ctx, s0, StartExecutor);
    var s2 := Apply(ctx, s1, Check);
    s := Apply(ctx, s2, Execute(true));
    ReachesItself(ctx, s);
    ReachesByStep(ctx, s2, Execute(true), s);
    ReachesByStep(ctx, s1, Check, s);
    ReachesByStep(ctx, s0, StartExecutor, s);
    ReachesThrough(ctx, Planned(action, policy), s0, s);
    ReachesThrough(ctx, Fresh(policy), Planned(action, policy), s);
  }
}
