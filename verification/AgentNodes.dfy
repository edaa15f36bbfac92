/** The nodes as they are written: loops over actions that append to the shared audit log. Each is
    proved to do what a crash-free stretch of the run machine does, so every guarantee about runs
    is a guarantee about them. */
module AgentNodes {
  import opened Collections
  import opened Rbac
  import opened AuditChain
  import opened Actions
  import opened Orchestration

  datatype Output = Ran | Replayed(prior: Option<AuditEvent>)

  datatype ActionResult = ActionResult(actionId: string, ok: bool, output: Output)

  /** The most recent successful EXECUTED entry for an id. */
  function LatestExecuted(log: seq<AuditEvent>, id: string): Option<AuditEvent> {
    if log == [] then None
    else
      var last := log[|log| - 1];
      if CountsAsExecuted(last) && last.actionId == id then Some(last)
      else LatestExecuted(log[..|log| - 1], id)
  }

  lemma {:induction false} LatestExistsIffExecuted(log: seq<AuditEvent>, id: string)
    ensures LatestExecuted(log, id).Some? <==> HasExecuted(log, id)
  {
    HasExecutedIsCount(log, id);
    if log != [] {
      LatestExistsIffExecuted(log[..|log| - 1], id);
      HasExecutedIsCount(log[..|log| - 1], id);
    }
  }

  // ----- the machine's crash-free stretches -----

  ghost predicate Reaches(ctx: Context, s: System, s': System) {
    exists trace :: Connects(ctx, s, s', trace)
  }

  ghost predicate Connects(ctx: Context, s: System, s': System, trace: seq<System>) {
    && |trace| > 0 && trace[0] == s && trace[|trace| - 1] == s'
    && forall i | 0 <= i < |trace| - 1 :: Next(ctx, trace[i], trace[i + 1])
  }

  lemma ReachesItself(ctx: Context, s: System)
    ensures Reaches(ctx, s, s)
  {
    assert Connects(ctx, s, s, [s]);
  }

  lemma ReachesByStep(ctx: Context, s: System, step: Step, s': System)
    requires Enabled(s, step) && Reaches(ctx, Apply(ctx, s, step), s')
    ensures Reaches(ctx, s, s')
  {
    var mid := Apply(ctx, s, step);
    var trace :| Connects(ctx, mid, s', trace);
    var longer := [s] + trace;
    forall i | 0 <= i < |longer| - 1 ensures Next(ctx, longer[i], longer[i + 1]) {
      if i > 0 {
        assert Next(ctx, trace[i - 1], trace[i]);
      }
    }
    assert Connects(ctx, s, s', longer);
  }

  lemma ReachesThrough(ctx: Context, s: System, mid: System, s': System)
    requires Reaches(ctx, s, mid) && Reaches(ctx, mid, s')
    ensures Reaches(ctx, s, s')
  {
    var a :| Connects(ctx, s, mid, a);
    var b :| Connects(ctx, mid, s', b);
    var whole := a + b[1..];
    forall i | 0 <= i < |whole| - 1 ensures Next(ctx, whole[i], whole[i + 1]) {
      if i < |a| - 1 {
        assert Next(ctx, a[i], a[i + 1]);
      } else {
        assert whole[i] == b[i - |a| + 1] && Next(ctx, b[i - |a| + 1], b[i - |a| + 2]);
      }
    }
    assert Connects(ctx, s, s', whole);
  }

  /** Run the planner loop to its end. */
  function PlanAll(ctx: Context, s: System): (s': System)
    requires s.pc.Planning? && !s.pc.announced
    ensures s'.pc.Planning? && s'.pc.plan == [] && !s'.pc.announced
    ensures s'.cp == s.cp && s'.policy == s.policy && s'.effects == s.effects && s'.lost == s.lost && s'.foreign == s.foreign
    decreases |s.pc.plan|
  {
    if s.pc.plan == [] then s
    else PlanAll(ctx, Apply(ctx, Apply(ctx, s, Announce), JudgePlanned))
  }

  lemma {:induction false} PlanAllReaches(ctx: Context, s: System)
    requires s.pc.Planning? && !s.pc.announced
    ensures Reaches(ctx, s, PlanAll(ctx, s))
    decreases |s.pc.plan|
  {
    if s.pc.plan == [] {
      ReachesItself(ctx, s);
    } else {
      var announced := Apply(ctx, s, Announce);
      PlanAllReaches(ctx, Apply(ctx, announced, JudgePlanned));
      ReachesByStep(ctx, announced, JudgePlanned, PlanAll(ctx, s));
      ReachesByStep(ctx, s, Announce, PlanAll(ctx, s));
    }
  }

  /** Run the approval loop to its end. */
  function DecideAll(ctx: Context, s: System): (s': System)
    requires s.pc.Deciding?
    ensures s'.pc.Deciding? && s'.pc.todo == []
    ensures s'.cp == s.cp && s'.policy == s.policy && s'.effects == s.effects && s'.lost == s.lost && s'.foreign == s.foreign
    decreases |s.pc.todo|
  {
    if s.pc.todo == [] then s else DecideAll(ctx, Apply(ctx, s, Decide))
  }

  lemma DecideAllUnrolls(ctx: Context, s: System)
    requires s.pc.Deciding? && s.pc.todo != []
    ensures DecideAll(ctx, s) == DecideAll(ctx, Apply(ctx, s, Decide))
  {
  }

  lemma {:induction false} DecideAllReaches(ctx: Context, s: System)
    requires s.pc.Deciding?
    ensures Reaches(ctx, s, DecideAll(ctx, s))
    decreases |s.pc.todo|
  {
    if s.pc.todo == [] {
      ReachesItself(ctx, s);
    } else {
      DecideAllReaches(ctx, Apply(ctx, s, Decide));
      ReachesByStep(ctx, s, Decide, DecideAll(ctx, s));
    }
  }

  /** One action through the executor loop: the checks, its effect, if any, and its audit entry. */
  function ExecuteThrough(ctx: Context, s: System, ok: bool): System
    requires Enabled(s, Check)
  {
    var s1 := CheckOne(ctx, s);
    if !s1.pc.Cleared? then s1
    else
      var s2 := ExecuteOne(ctx, s1, ok);
      if s2.pc.Recording? then RecordOne(s2) else s2
  }

  lemma ExecuteThroughFrame(ctx: Context, s: System, ok: bool)
    requires Enabled(s, Check)
    ensures var s' := ExecuteThrough(ctx, s, ok);
            && s'.pc == Executing(s.pc.at + 1) && s'.cp == s.cp && s'.policy == s.policy
            && s'.lost == s.lost && s'.foreign == s.foreign
  {
  }

  /** Undisturbed, the checks and the ledger come to one disposition. */
  lemma ExecuteThroughDisposes(ctx: Context, s: System, ok: bool)
    requires Enabled(s, Check)
    ensures var action := s.cp.proposed[s.pc.at];
            var d := Dispose(ctx, action, s.cp.approved, s.policy, s.log);
            ExecuteThrough(ctx, s, ok) ==
              if d.RunTool? then
                Log(s, ResultEvent(action.actionId, ok)).(
                  pc := Executing(s.pc.at + 1),
                  effects := s.effects + [Effect(action, s.policy, s.policy, |s.log|, ok)])
              else Log(s, DispositionEvent(ctx, action.actionId, d)).(pc := Executing(s.pc.at + 1))
  {
  }

  /** Every action that comes before the executor leaves exactly one entry, and the entry says why it ran or
      why it did not: denied for want of permission, skipped for want of approval, replayed because the
      ledger has it, and otherwise run. */
  lemma EveryActionIsAccountedFor(ctx: Context, s: System, ok: bool)
    requires Enabled(s, Check)
    ensures var action := s.cp.proposed[s.pc.at];
            var s' := ExecuteThrough(ctx, s, ok);
            var permitted := PermittedUnder(ctx, action, s.policy);
            var cleared := permitted && (action.tier.Read? || action.actionId in s.cp.approved);
            var done := !action.tier.Read? && HasExecuted(s.log, action.actionId);
            && |s'.log| == |s.log| + 1 && s.log <= s'.log && s.effects <= s'.effects
            && s'.log[|s.log|].actionId == action.actionId
            && s'.log[|s.log|].actor == (if permitted then "system" else ctx.principal.userId)
            && (s'.log[|s.log|].eventType == Denied <==> !permitted)
            && (s'.log[|s.log|].eventType == Skipped <==> permitted && !cleared)
            && (s'.log[|s.log|].eventType == ReplaySkipped <==> cleared && done)
            && (s'.log[|s.log|].eventType == Executed <==> cleared && !done && ok)
            && (s'.log[|s.log|].eventType == Failed <==> cleared && !done && !ok)
            && |s'.effects| == |s.effects| + (if cleared && !done then 1 else 0)
            && (cleared && !done ==> s'.effects[|s.effects|].action == action && s'.effects[|s.effects|].ok == ok)
  {
    JudgeAllowsIff(ctx, s.cp.proposed[s.pc.at], s.policy);
    ExecuteThroughDisposes(ctx, s, ok);
  }

  /** The result the executor reports for that action, if it reports one. */
  function ResultOf(ctx: Context, s: System, ok: bool): seq<ActionResult>
    requires Enabled(s, Check)
  {
    var action := s.cp.proposed[s.pc.at];
    match Dispose(ctx, action, s.cp.approved, s.policy, s.log)
    case RunTool => [ActionResult(action.actionId, ok, Ran)]
    case Replay => [ActionResult(action.actionId, true, Replayed(LatestExecuted(s.log, action.actionId)))]
    case _ => []
  }

  /** Run the executor loop to its end; `oks` says which tool runs would succeed. */
  function ExecuteAll(ctx: Context, s: System, oks: seq<bool>): (r: (System, seq<ActionResult>))
    requires s.pc.Executing? && s.pc.at <= |s.cp.proposed| == |oks|
    ensures r.0.pc == Executing(|s.cp.proposed|)
    ensures r.0.cp == s.cp && r.0.policy == s.policy && r.0.lost == s.lost && r.0.foreign == s.foreign
    decreases |s.cp.proposed| - s.pc.at
  {
    if s.pc.at == |s.cp.proposed| then (s, [])
    else
      ExecuteThroughFrame(ctx, s, oks[s.pc.at]);
      var (s', rest) := ExecuteAll(ctx, ExecuteThrough(ctx, s, oks[s.pc.at]), oks);
      (s', ResultOf(ctx, s, oks[s.pc.at]) + rest)
  }

  lemma ThroughReaches(ctx: Context, s: System, ok: bool, end: System)
    requires Enabled(s, Check) && Reaches(ctx, ExecuteThrough(ctx, s, ok), end)
    ensures Reaches(ctx, s, end)
  {
    var s1 := Apply(ctx, s, Check);
    if s1.pc.Cleared? {
      var s2 := Apply(ctx, s1, Execute(ok));
      if s2.pc.Recording? {
        ReachesByStep(ctx, s2, WriteEntry, end);
      }
      ReachesByStep(ctx, s1, Execute(ok), end);
    }
    ReachesByStep(ctx, s, Check, end);
  }

  /** The loop from `s` on ends in `end` and reports `results`. */
  ghost predicate Completes(ctx: Context, s: System, oks: seq<bool>, end: System, results: seq<ActionResult>) {
    && s.pc.Executing? && s.pc.at <= |s.cp.proposed| == |oks|
    && ExecuteAll(ctx, s, oks) == (end, results)
  }

  lemma CompletesAtEnd(ctx: Context, s: System, oks: seq<bool>, end: System, results: seq<ActionResult>)
    requires Completes(ctx, s, oks, end, results) && s.pc.at == |oks|
    ensures end == s && results == []
  {
  }

  lemma CompletesStep(ctx: Context, s: System, oks: seq<bool>, end: System, results: seq<ActionResult>)
    returns (rest: seq<ActionResult>)
    requires Completes(ctx, s, oks, end, results) && s.pc.at < |oks|
    ensures results == ResultOf(ctx, s, oks[s.pc.at]) + rest
    ensures Completes(ctx, ExecuteThrough(ctx, s, oks[s.pc.at]), oks, end, rest)
  {
    ExecuteThroughFrame(ctx, s, oks[s.pc.at]);
    rest := ExecuteAll(ctx, ExecuteThrough(ctx, s, oks[s.pc.at]), oks).1;
  }

  lemma {:induction false} ExecuteAllReaches(ctx: Context, s: System, oks: seq<bool>)
    requires s.pc.Executing? && s.pc.at <= |s.cp.proposed| == |oks|
    ensures Reaches(ctx, s, ExecuteAll(ctx, s, oks).0)
    decreases |s.cp.proposed| - s.pc.at
  {
    if s.pc.at == |s.cp.proposed| {
      ReachesItself(ctx, s);
    } else {
      var ok := oks[s.pc.at];
      ExecuteThroughFrame(ctx, s, ok);
      ExecuteAllReaches(ctx, ExecuteThrough(ctx, s, ok), oks);
      ThroughReaches(ctx, s, ok, ExecuteAll(ctx, s, oks).0);
    }
  }

  // ----- the nodes -----

  /** The shared ledger the nodes append to, and the effects the tools have had. `foreign` is the set of
      ids under which others wrote to the ledger before. */
  class Worker {
    var log: seq<AuditEvent>
    var effects: seq<Effect>
    ghost const foreign: set<string>

    constructor (ledger: seq<AuditEvent>)
      ensures log == ledger && effects == [] && foreign == IdsIn(ledger)
    {
      log, effects := ledger, [];
      foreign := IdsIn(ledger);
    }

    method Append(event: AuditEvent)
      modifies this`log
      ensures log == old(log) + [event]
    {
      log := log + [event];
    }

    method PlannerNode(ctx: Context, cp: Checkpoint, plan: seq<ProposedAction>, policy: Policy)
      returns (authorized: seq<ProposedAction>)
      modifies this`log
      ensures var s := PlanAll(ctx, System(cp, Planning(plan, false, []), old(log), policy, effects, [], foreign));
              log == s.log && authorized == s.pc.authorized
    {
      authorized := [];
      ghost var start := System(cp, Planning(plan, false, []), log, policy, effects, [], foreign);
      for i := 0 to |plan|
        invariant PlanAll(ctx, start) ==
                  PlanAll(ctx, System(cp, Planning(plan[i..], false, authorized), log, policy, effects, [], foreign))
      {
        var action := plan[i];
        assert plan[i..][1..] == plan[i + 1..];
        Append(Event(Proposed, action.actionId, "system"));
        if action.tool !in ctx.registry {
          Append(Event(Denied, action.actionId, ctx.principal.userId));
          continue;
        }
        var required := RequiredPermission(action, ctx.registry[action.tool]);
        if required.None? || !Can(Some(ctx.principal), required.value, policy) {
          Append(Event(Denied, action.actionId, ctx.principal.userId));
          continue;
        }
        authorized := authorized + [action];
      }
    }

    method ApprovalNode(ctx: Context, cp: Checkpoint, raw: Payload, policy: Policy)
      returns (approved: seq<string>, rejected: seq<string>)
      modifies this`log
      ensures var todo := ParseDecisions(raw, GatedIds(cp.proposed));
              var s := DecideAll(ctx, System(cp, Deciding(todo, [], []), old(log), policy, effects, [], foreign));
              log == s.log && approved == s.pc.approved && rejected == s.pc.rejected
    {
      var decisions := ParseDecisions(raw, GatedIds(cp.proposed));
      approved, rejected := DecideEach(ctx, cp, decisions, policy);
    }

    /** The loop of the approval node. */
    method DecideEach(ctx: Context, cp: Checkpoint, decisions: seq<Decision>, policy: Policy)
      returns (approved: seq<string>, rejected: seq<string>)
      modifies this`log
      ensures var s := DecideAll(ctx, System(cp, Deciding(decisions, [], []), old(log), policy, effects, [], foreign));
              log == s.log && approved == s.pc.approved && rejected == s.pc.rejected
    {
      approved, rejected := [], [];
      ghost var end := DecideAll(ctx, System(cp, Deciding(decisions, [], []), log, policy, effects, [], foreign));
      for i := 0 to |decisions|
        invariant end ==
                  DecideAll(ctx, System(cp, Deciding(decisions[i..], approved, rejected), log, policy, effects, [], foreign))
      {
        var d := decisions[i];
        DecideAllUnrolls(ctx, System(cp, Deciding(decisions[i..], approved, rejected), log, policy, effects, [], foreign));
        assert decisions[i..][1..] == decisions[i + 1..];
        Append(Event(if d.approved then Approved else Rejected, d.actionId, d.decidedBy));
        if d.approved {
          approved := approved + [d.actionId];
        } else {
          rejected := rejected + [d.actionId];
        }
      }
    }

    /** Scan back for the entry that stands for the earlier effect. */
    method ReplayResult(actionId: string) returns (result: ActionResult)
      ensures result == ActionResult(actionId, true, Replayed(LatestExecuted(log, actionId)))
    {
      var i := |log|;
      assert log[..i] == log;
      while i > 0
        invariant 0 <= i <= |log|
        invariant LatestExecuted(log, actionId) == LatestExecuted(log[..i], actionId)
      {
        i := i - 1;
        assert log[..i + 1][..i] == log[..i];
        if CountsAsExecuted(log[i]) && log[i].actionId == actionId {
          return ActionResult(actionId, true, Replayed(Some(log[i])));
        }
      }
      return ActionResult(actionId, true, Replayed(None));
    }

    /** The ledger decides whether a gated action runs; the entry is written after the effect. */
    method ExecuteGuarded(action: ProposedAction, policy: Policy, ok: bool) returns (result: ActionResult)
      modifies this
      ensures RequiresApproval(action.tier) && HasExecuted(old(log), action.actionId) ==>
                && log == old(log) + [Event(ReplaySkipped, action.actionId, "system")]
                && effects == old(effects)
                && LatestExecuted(old(log), action.actionId).Some?
                && result == ActionResult(action.actionId, true, Replayed(LatestExecuted(old(log), action.actionId)))
      ensures !(RequiresApproval(action.tier) && HasExecuted(old(log), action.actionId)) ==>
                && log == old(log) + [ResultEvent(action.actionId, ok)]
                && effects == old(effects) + [Effect(action, policy, policy, |old(log)|, ok)]
                && result == ActionResult(action.actionId, ok, Ran)
    {
      if RequiresApproval(action.tier) && HasExecuted(log, action.actionId) {
        LatestExistsIffExecuted(log, action.actionId);
        Append(Event(ReplaySkipped, action.actionId, "system"));
        assert log[..|log| - 1] == old(log);
        result := ReplayResult(action.actionId);
        return;
      }
      effects := effects + [Effect(action, policy, policy, |log|, ok)];
      Append(ResultEvent(action.actionId, ok));
      result := ActionResult(action.actionId, ok, Ran);
    }

    /** The body of the executor loop. */
    method ExecutePlanned(ctx: Context, cp: Checkpoint, at: nat, policy: Policy, ok: bool)
      returns (results: seq<ActionResult>)
      requires at < |cp.proposed|
      modifies this
      ensures var here := System(cp, Executing(at), old(log), policy, old(effects), [], foreign);
              && ExecuteThrough(ctx, here, ok) == System(cp, Executing(at + 1), log, policy, effects, [], foreign)
              && results == ResultOf(ctx, here, ok)
    {
      results := [];
      ExecuteThroughDisposes(ctx, System(cp, Executing(at), log, policy, effects, [], foreign), ok);
      var action := cp.proposed[at];
      if action.tool !in ctx.registry {
        Append(Event(Denied, action.actionId, ctx.principal.userId));
        return;
      }
      var required := RequiredPermission(action, ctx.registry[action.tool]);
      if required.None? || !Can(Some(ctx.principal), required.value, policy) {
        Append(Event(Denied, action.actionId, ctx.principal.userId));
        return;
      }
      if RequiresApproval(action.tier) && action.actionId !in cp.approved {
        Append(Event(Skipped, action.actionId, "system"));
        return;
      }
      var result := ExecuteGuarded(action, policy, ok);
      results := [result];
    }

    /** One round of the loop, seen from the rest of it. */
    method ExecuteNext(ctx: Context, cp: Checkpoint, at: nat, policy: Policy, oks: seq<bool>, ghost end: System,
                       ghost due: seq<ActionResult>)
      returns (results: seq<ActionResult>, ghost rest: seq<ActionResult>)
      requires at < |cp.proposed| == |oks|
      requires Completes(ctx, System(cp, Executing(at), log, policy, effects, [], foreign), oks, end, due)
      modifies this
      ensures due == results + rest
      ensures Completes(ctx, System(cp, Executing(at + 1), log, policy, effects, [], foreign), oks, end, rest)
    {
      rest := CompletesStep(ctx, System(cp, Executing(at), log, policy, effects, [], foreign), oks, end, due);
      results := ExecutePlanned(ctx, cp, at, policy, oks[at]);
    }

    method ExecutorNode(ctx: Context, cp: Checkpoint, policy: Policy, oks: seq<bool>)
      returns (results: seq<ActionResult>)
      requires |oks| == |cp.proposed|
      modifies this
      ensures var r := ExecuteAll(ctx, System(cp, Executing(0), old(log), policy, old(effects), [], foreign), oks);
              log == r.0.log && effects == r.0.effects && results == r.1
    {
      results := [];
      ghost var whole := ExecuteAll(ctx, System(cp, Executing(0), log, policy, effects, [], foreign), oks);
      ghost var rest := whole.1;
      for i := 0 to |cp.proposed|
        invariant whole.1 == results + rest
        invariant Completes(ctx, System(cp, Executing(i), log, policy, effects, [], foreign), oks, whole.0, rest)
      {
        var more;
        more, rest := ExecuteNext(ctx, cp, i, policy, oks, whole.0, rest);
        results := results + more;
      }
      CompletesAtEnd(ctx, System(cp, Executing(|cp.proposed|), log, policy, effects, [], foreign), oks, whole.0, rest);
    }

    /** The planner node, from the initial checkpoint to the one it commits. */
    method Plan(ctx: Context, plan: seq<ProposedAction>, policy: Policy) returns (cp: Checkpoint)
      modifies this`log
      ensures |cp.proposed| <= |plan|
      ensures Reaches(ctx, System(INITIAL, Paused, old(log), policy, effects, [], foreign),
                      System(cp, Paused, log, policy, effects, [], foreign))
    {
      PlanningReaches(ctx, System(INITIAL, Paused, log, policy, effects, [], foreign), plan);
      var authorized := PlannerNode(ctx, INITIAL, plan, policy);
      cp := INITIAL.(next := Route(authorized), proposed := authorized);
    }

    method Approve(ctx: Context, cp: Checkpoint, raw: Payload, policy: Policy) returns (cp': Checkpoint)
      requires cp.next == Approval
      modifies this`log
      ensures cp'.next == Executor && cp'.proposed == cp.proposed
      ensures Reaches(ctx, System(cp, Paused, old(log), policy, effects, [], foreign),
                      System(cp', Paused, log, policy, effects, [], foreign))
    {
      DecidingReaches(ctx, System(cp, Paused, log, policy, effects, [], foreign), raw);
      var approved, rejected := ApprovalNode(ctx, cp, raw, policy);
      cp' := cp.(next := Executor, approved := approved, rejected := rejected);
    }

    method Execute(ctx: Context, cp: Checkpoint, policy: Policy, oks: seq<bool>) returns (cp': Checkpoint)
      requires cp.next == Executor && |oks| == |cp.proposed|
      modifies this
      ensures cp' == cp.(next := Responder)
      ensures Reaches(ctx, System(cp, Paused, old(log), policy, old(effects), [], foreign),
                      System(cp', Paused, log, policy, effects, [], foreign))
    {
      ExecutingReaches(ctx, System(cp, Paused, log, policy, effects, [], foreign), oks);
      var _ := ExecutorNode(ctx, cp, policy, oks);
      cp' := cp.(next := Responder);
    }

    /** A whole undisturbed turn: plan, pause for the human if anything is gated, execute. What it
        leaves in the log and in the world is what some run of the machine leaves. */
    method Turn(ctx: Context, plan: seq<ProposedAction>, raw: Payload, policy: Policy, oks: seq<bool>)
      returns (cp: Checkpoint)
      requires |oks| >= |plan|
      modifies this
      ensures Reaches(ctx, System(INITIAL, Paused, old(log), policy, old(effects), [], foreign),
                      System(cp, Paused, log, policy, effects, [], foreign))
    {
      ghost var init := System(INITIAL, Paused, log, policy, effects, [], foreign);
      cp := Plan(ctx, plan, policy);
      if cp.next == Approval {
        ghost var s := System(cp, Paused, log, policy, effects, [], foreign);
        cp := Approve(ctx, cp, raw, policy);
        ReachesThrough(ctx, init, s, System(cp, Paused, log, policy, effects, [], foreign));
      }
      if cp.next == Executor {
        ghost var s := System(cp, Paused, log, policy, effects, [], foreign);
        cp := Execute(ctx, cp, policy, oks[..|cp.proposed|]);
        ReachesThrough(ctx, init, s, System(cp, Paused, log, policy, effects, [], foreign));
      }
    }
  }

  /** The planner node as one stretch, from one checkpoint to the next. */
  lemma PlanningReaches(ctx: Context, s: System, plan: seq<ProposedAction>)
    requires Enabled(s, StartPlanner(plan))
    ensures var planned := PlanAll(ctx, s.(pc := Planning(plan, false, [])));
            && |planned.pc.authorized| <= |plan|
            && Reaches(ctx, s, planned.(cp := s.cp.(next := Route(planned.pc.authorized),
                                                    proposed := planned.pc.authorized), pc := Paused))
  {
    var planning := Apply(ctx, s, StartPlanner(plan));
    var planned := PlanAll(ctx, planning);
    PlanAllReaches(ctx, planning);
    PlanAllShrinks(ctx, planning);
    ReachesItself(ctx, Apply(ctx, planned, EndPlanner));
    ReachesByStep(ctx, planned, EndPlanner, Apply(ctx, planned, EndPlanner));
    ReachesThrough(ctx, planning, planned, Apply(ctx, planned, EndPlanner));
    ReachesByStep(ctx, s, StartPlanner(plan), Apply(ctx, planned, EndPlanner));
  }

  lemma DecidingReaches(ctx: Context, s: System, raw: Payload)
    requires Enabled(s, Resume(raw))
    ensures var decided := DecideAll(ctx, s.(pc := Deciding(ParseDecisions(raw, GatedIds(s.cp.proposed)), [], [])));
            Reaches(ctx, s, decided.(cp := s.cp.(next := Executor, approved := decided.pc.approved,
                                                 rejected := decided.pc.rejected), pc := Paused))
  {
    var deciding := Apply(ctx, s, Resume(raw));
    var decided := DecideAll(ctx, deciding);
    DecideAllReaches(ctx, deciding);
    ReachesItself(ctx, Apply(ctx, decided, EndApproval));
    ReachesByStep(ctx, decided, EndApproval, Apply(ctx, decided, EndApproval));
    ReachesThrough(ctx, deciding, decided, Apply(ctx, decided, EndApproval));
    ReachesByStep(ctx, s, Resume(raw), Apply(ctx, decided, EndApproval));
  }

  lemma ExecutingReaches(ctx: Context, s: System, oks: seq<bool>)
    requires Enabled(s, StartExecutor) && |s.cp.proposed| == |oks|
    ensures var executed := ExecuteAll(ctx, s.(pc := Executing(0)), oks).0;
            Reaches(ctx, s, executed.(cp := s.cp.(next := Responder), pc := Paused))
  {
    var executing := Apply(ctx, s, StartExecutor);
    var executed := ExecuteAll(ctx, executing, oks).0;
    ExecuteAllReaches(ctx, executing, oks);
    ReachesItself(ctx, Apply(ctx, executed, EndExecutor));
    ReachesByStep(ctx, executed, EndExecutor, Apply(ctx, executed, EndExecutor));
    ReachesThrough(ctx, executing, executed, Apply(ctx, executed, EndExecutor));
    ReachesByStep(ctx, s, StartExecutor, Apply(ctx, executed, EndExecutor));
  }

  lemma {:induction false} PlanAllShrinks(ctx: Context, s: System)
    requires s.pc.Planning? && !s.pc.announced
    ensures |PlanAll(ctx, s).pc.authorized| <= |s.pc.authorized| + |s.pc.plan|
    decreases |s.pc.plan|
  {
    if s.pc.plan != [] {
      PlanAllShrinks(ctx, Apply(ctx, Apply(ctx, s, Announce), JudgePlanned));
    }
  }

  /** Whatever an undisturbed stretch reaches, the guarantees about runs hold of it. */
  lemma ReachedStatesAreSafe(ctx: Context, s: System, s': System)
    requires Init(s) && Reaches(ctx, s, s')
    ensures Inv(ctx, s')
  {
    var trace :| Connects(ctx, s, s', trace);
    assert Run(ctx, trace);
    RunKeepsInv(ctx, trace);
  }
}
