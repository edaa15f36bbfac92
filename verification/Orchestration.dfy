/** The planner, approval and executor nodes, and every run of them with policy changes, argument
    mutation, crashes and node re-runs. */
module Orchestration {
  import opened Collections
  import opened Text
  import opened Rbac
  import opened AuditChain
  import opened Actions

  /** What stays fixed during a thread's life: the registered tools and the owning principal. */
  datatype Context = Context(registry: Registry, principal: Principal)

  datatype Decision = Decision(actionId: string, approved: bool, decidedBy: string)

  datatype Node = Planner | Approval | Executor | Responder | End

  /** The durable state of a thread; it advances only when a node returns. */
  datatype Checkpoint = Checkpoint(next: Node, proposed: seq<ProposedAction>,
                                   approved: seq<string>, rejected: seq<string>)

  const INITIAL := Checkpoint(Planner, [], [], [])

  // ----- one action at the gates -----

  datatype Verdict = Unresolved | Missing | Allowed

  /** Unknown tool, bad arguments and a stale stamp all deny; then the policy decides. */
  function Judge(ctx: Context, action: ProposedAction, policy: Policy): Verdict {
    if action.tool !in ctx.registry then Unresolved
    else
      var required := RequiredPermission(action, ctx.registry[action.tool]);
      if required.None? then Unresolved
      else if Can(Some(ctx.principal), required.value, policy) then Allowed
      else Missing
  }

  datatype Disposition = Deny | Skip | Replay | RunTool

  /** What the executor does with one action: RBAC, then the approval gate, then the ledger. */
  function Dispose(ctx: Context, action: ProposedAction, approved: seq<string>,
                   policy: Policy, log: seq<AuditEvent>): Disposition {
    if Judge(ctx, action, policy) != Allowed then Deny
    else if RequiresApproval(action.tier) && action.actionId !in approved then Skip
    else if RequiresApproval(action.tier) && HasExecuted(log, action.actionId) then Replay
    else RunTool
  }

  function Event(eventType: EventType, actionId: string, actor: string): AuditEvent {
    AuditEvent(eventType, actionId, actor, Absent, "")
  }

  function ResultEvent(actionId: string, ok: bool): AuditEvent {
    AuditEvent(if ok then Executed else Failed, actionId, "system", Bool(ok), "")
  }

  function DispositionEvent(ctx: Context, actionId: string, d: Disposition): AuditEvent
    requires !d.RunTool?
  {
    match d
    case Deny => Event(Denied, actionId, ctx.principal.userId)
    case Skip => Event(Skipped, actionId, "system")
    case Replay => Event(ReplaySkipped, actionId, "system")
  }

  /** One invocation of a tool: the action as it was run, the policy it was checked against, the policy
      in force when it ran, and the length of the log at that moment. */
  datatype Effect = Effect(action: ProposedAction, checked: Policy, policy: Policy, at: nat, ok: bool)

  // ----- approval payloads -----

  /** A resume payload, in the shapes the approval node accepts. */
  datatype Payload =
    | ForAll(approved: bool)
    | Items(items: seq<Item>)
    | Lists(approvedIds: seq<string>, rejectedIds: seq<string>)
    | Mapping(entries: seq<(string, bool)>)
    | Unusable

  datatype Item = Item(actionId: Option<string>, approved: Option<bool>, decidedBy: Option<string>)

  function GatedIds(proposed: seq<ProposedAction>): seq<string> {
    if proposed == [] then []
    else (if RequiresApproval(proposed[0].tier) then [proposed[0].actionId] else []) + GatedIds(proposed[1..])
  }

  /** One decision per id, keeping only ids that are pending. */
  function DecideIds(ids: seq<string>, valid: seq<string>, approved: bool): seq<Decision> {
    if ids == [] then []
    else (if ids[0] in valid then [Decision(ids[0], approved, "human")] else []) +
         DecideIds(ids[1..], valid, approved)
  }

  function DecideItems(items: seq<Item>, valid: seq<string>): seq<Decision> {
    if items == [] then []
    else
      var item := items[0];
      var decidedBy := if item.decidedBy.Some? then item.decidedBy.value else "human";
      (if item.actionId.Some? && item.actionId.value in valid
       then [Decision(item.actionId.value, item.approved == Some(true), decidedBy)]
       else []) + DecideItems(items[1..], valid)
  }

  function DecideEntries(entries: seq<(string, bool)>, valid: seq<string>): seq<Decision> {
    if entries == [] then []
    else (if entries[0].0 in valid then [Decision(entries[0].0, entries[0].1, "human")] else []) +
         DecideEntries(entries[1..], valid)
  }

  function ParseDecisions(raw: Payload, valid: seq<string>): seq<Decision> {
    match raw
    case ForAll(approved) => DecideIds(valid, valid, approved)
    case Items(items) => DecideItems(items, valid)
    case Lists(yes, no) => DecideIds(yes, valid, true) + DecideIds(no, valid, false)
    case Mapping(entries) => DecideEntries(entries, valid)
    case Unusable => []
  }

  /** A decision can only name a pending action. */
  lemma {:induction false} DecidesOnlyPending(raw: Payload, valid: seq<string>)
    ensures forall d | d in ParseDecisions(raw, valid) :: d.actionId in valid
  {
    match raw
    case ForAll(approved) => IdsArePending(valid, valid, approved);
    case Items(items) => ItemsArePending(items, valid);
    case Lists(yes, no) => IdsArePending(yes, valid, true); IdsArePending(no, valid, false);
    case Mapping(entries) => EntriesArePending(entries, valid);
    case Unusable =>
  }

  lemma {:induction false} IdsArePending(ids: seq<string>, valid: seq<string>, approved: bool)
    ensures forall d | d in DecideIds(ids, valid, approved) ::
              d.actionId in valid && d.actionId in ids && d.approved == approved
  {
    if ids != [] { IdsArePending(ids[1..], valid, approved); }
  }

  lemma {:induction false} ItemsArePending(items: seq<Item>, valid: seq<string>)
    ensures forall d | d in DecideItems(items, valid) :: d.actionId in valid &&
              exists i | i in items :: i.actionId == Some(d.actionId) && d.approved == (i.approved == Some(true))
  {
    if items != [] {
      ItemsArePending(items[1..], valid);
      forall d | d in DecideItems(items, valid)
        ensures d.actionId in valid &&
                exists i | i in items :: i.actionId == Some(d.actionId) && d.approved == (i.approved == Some(true))
      {
        if d in DecideItems(items[1..], valid) {
          var i :| i in items[1..] && i.actionId == Some(d.actionId) && d.approved == (i.approved == Some(true));
          assert i in items;
        } else {
          assert items[0] in items;
        }
      }
    }
  }

  lemma {:induction false} EntriesArePending(entries: seq<(string, bool)>, valid: seq<string>)
    ensures forall d | d in DecideEntries(entries, valid) :: d.actionId in valid
  {
    if entries != [] { EntriesArePending(entries[1..], valid); }
  }

  // ----- the run machine -----

  /** Where the running node is. Between nodes, and after a crash, nothing runs. */
  datatype Pc =
    | Paused
    | Planning(plan: seq<ProposedAction>, announced: bool, authorized: seq<ProposedAction>)
    | Deciding(todo: seq<Decision>, approved: seq<string>, rejected: seq<string>)
    | Executing(at: nat)
    | Cleared(at: nat, action: ProposedAction, checked: Policy)       // permitted and approved, not yet run
    | Recording(at: nat, actionId: string, tier: RiskTier, ok: bool)  // effect done, not yet in the log

  /** The log is shared. `lost` is the history of ids whose successful effect was cut off from the log by
      a crash; `foreign` is the set of ids under which others have written to the log. */
  datatype System = System(cp: Checkpoint, pc: Pc, log: seq<AuditEvent>, policy: Policy,
                           effects: seq<Effect>, lost: seq<string>, foreign: set<string>)

  datatype Step =
    | StartPlanner(plan: seq<ProposedAction>)
    | Announce
    | JudgePlanned
    | EndPlanner
    | Resume(raw: Payload)
    | Decide
    | EndApproval
    | StartExecutor
    | Check
    | Execute(ok: bool)
    | WriteEntry
    | EndExecutor
    | Respond
    | Crash
    | ChangePolicy(policy: Policy)
    | MutateArgs(index: nat, args: Args)
    | ForeignAppend(event: AuditEvent)

  function Route(proposed: seq<ProposedAction>): Node {
    if exists i | 0 <= i < |proposed| :: RequiresApproval(proposed[i].tier) then Approval
    else if proposed != [] then Executor
    else Responder
  }

  predicate Enabled(s: System, step: Step) {
    match step
    case StartPlanner(_) => s.pc.Paused? && s.cp.next == Planner
    case Announce => s.pc.Planning? && s.pc.plan != [] && !s.pc.announced
    case JudgePlanned => s.pc.Planning? && s.pc.plan != [] && s.pc.announced
    case EndPlanner => s.pc.Planning? && s.pc.plan == []
    case Resume(_) => s.pc.Paused? && s.cp.next == Approval
    case Decide => s.pc.Deciding? && s.pc.todo != []
    case EndApproval => s.pc.Deciding? && s.pc.todo == []
    case StartExecutor => s.pc.Paused? && s.cp.next == Executor
    case Check => s.pc.Executing? && s.pc.at < |s.cp.proposed|
    case Execute(_) => s.pc.Cleared?
    case WriteEntry => s.pc.Recording?
    case EndExecutor => s.pc.Executing? && s.pc.at >= |s.cp.proposed|
    case Respond => s.pc.Paused? && s.cp.next == Responder
    case Crash => !s.pc.Paused?
    case ChangePolicy(_) => true
    case MutateArgs(index, _) => index < |s.cp.proposed|
    case ForeignAppend(_) => true
  }

  function Log(s: System, event: AuditEvent): System {
    s.(log := s.log + [event])
  }

  /** The executor's checks on the action at hand: RBAC, then the approval gate. */
  function CheckOne(ctx: Context, s: System): System
    requires Enabled(s, Check)
  {
    var action := s.cp.proposed[s.pc.at];
    if Judge(ctx, action, s.policy) != Allowed then
      Log(s, DispositionEvent(ctx, action.actionId, Deny)).(pc := Executing(s.pc.at + 1))
    else if RequiresApproval(action.tier) && action.actionId !in s.cp.approved then
      Log(s, DispositionEvent(ctx, action.actionId, Skip)).(pc := Executing(s.pc.at + 1))
    else s.(pc := Cleared(s.pc.at, action, s.policy))
  }

  /** The ledger's answer and the effect. The policy may have changed since the checks; the audit entry
      is a step of its own. */
  function ExecuteOne(ctx: Context, s: System, ok: bool): System
    requires Enabled(s, Execute(ok))
  {
    var action := s.pc.action;
    if RequiresApproval(action.tier) && HasExecuted(s.log, action.actionId) then
      Log(s, DispositionEvent(ctx, action.actionId, Replay)).(pc := Executing(s.pc.at + 1))
    else
      s.(pc := Recording(s.pc.at, action.actionId, action.tier, ok),
         effects := s.effects + [Effect(action, s.pc.checked, s.policy, |s.log|, ok)])
  }

  function RecordOne(s: System): System
    requires Enabled(s, WriteEntry)
  {
    Log(s, ResultEvent(s.pc.actionId, s.pc.ok)).(pc := Executing(s.pc.at + 1))
  }

  function Apply(ctx: Context, s: System, step: Step): System
    requires Enabled(s, step)
  {
    match step
    case StartPlanner(plan) => s.(pc := Planning(plan, false, []))
    case Announce =>
      Log(s, Event(Proposed, s.pc.plan[0].actionId, "system")).(pc := s.pc.(announced := true))
    case JudgePlanned =>
      var action := s.pc.plan[0];
      if Judge(ctx, action, s.policy) == Allowed
      then s.(pc := Planning(s.pc.plan[1..], false, s.pc.authorized + [action]))
      else Log(s, Event(Denied, action.actionId, ctx.principal.userId)).(
             pc := Planning(s.pc.plan[1..], false, s.pc.authorized))
    case EndPlanner =>
      s.(cp := s.cp.(next := Route(s.pc.authorized), proposed := s.pc.authorized), pc := Paused)
    case Resume(raw) => s.(pc := Deciding(ParseDecisions(raw, GatedIds(s.cp.proposed)), [], []))
    case Decide =>
      var d := s.pc.todo[0];
      Log(s, Event(if d.approved then Approved else Rejected, d.actionId, d.decidedBy)).(
        pc := Deciding(s.pc.todo[1..],
                       if d.approved then s.pc.approved + [d.actionId] else s.pc.approved,
                       if d.approved then s.pc.rejected else s.pc.rejected + [d.actionId]))
    case EndApproval =>
      s.(cp := s.cp.(next := Executor, approved := s.pc.approved, rejected := s.pc.rejected), pc := Paused)
    case StartExecutor => s.(pc := Executing(0))
    case Check => CheckOne(ctx, s)
    case Execute(ok) => ExecuteOne(ctx, s, ok)
    case WriteEntry => RecordOne(s)
    case EndExecutor => s.(cp := s.cp.(next := Responder), pc := Paused)
    case Respond => s.(cp := s.cp.(next := End))
    case Crash =>
      s.(pc := Paused,
         lost := if s.pc.Recording? && s.pc.ok then s.lost + [s.pc.actionId] else s.lost)
    case ChangePolicy(policy) => s.(policy := policy)
    case MutateArgs(index, args) =>
      s.(cp := s.cp.(proposed := s.cp.proposed[index := s.cp.proposed[index].(args := args)]))
    case ForeignAppend(event) => Log(s, event).(foreign := s.foreign + {event.actionId})
  }

  function IdsIn(log: seq<AuditEvent>): set<string> {
    set e | e in log :: e.actionId
  }

  /** A fresh thread over a log that others may have written to. */
  ghost predicate Init(s: System) {
    s.cp == INITIAL && s.pc == Paused && s.effects == [] && s.lost == [] && s.foreign == IdsIn(s.log)
  }

  ghost predicate Next(ctx: Context, s: System, s': System) {
    exists step :: Enabled(s, step) && s' == Apply(ctx, s, step)
  }

  ghost predicate Run(ctx: Context, trace: seq<System>) {
    && |trace| > 0 && Init(trace[0])
    && forall i | 0 <= i < |trace| - 1 :: Next(ctx, trace[i], trace[i + 1])
  }

  // ----- what a run records -----

  /** The log proposes the id before position `n`. */
  ghost predicate ProposedBefore(log: seq<AuditEvent>, id: string, n: nat) {
    exists i | 0 <= i < n && i < |log| :: log[i].eventType == Proposed && log[i].actionId == id
  }

  /** The log approves the id before position `n`, after proposing it. */
  ghost predicate ApprovedBefore(log: seq<AuditEvent>, id: string, n: nat) {
    exists i | 0 <= i < n && i < |log| ::
      log[i].eventType == Approved && log[i].actionId == id && ProposedBefore(log, id, i)
  }

  ghost predicate AllProposed(log: seq<AuditEvent>, actions: seq<ProposedAction>) {
    forall i | 0 <= i < |actions| :: ProposedBefore(log, actions[i].actionId, |log|)
  }

  ghost predicate AllApproved(log: seq<AuditEvent>, ids: seq<string>) {
    forall i | 0 <= i < |ids| :: ApprovedBefore(log, ids[i], |log|)
  }

  lemma LogOnlyGrows(log: seq<AuditEvent>, log': seq<AuditEvent>, id: string, n: nat, n': nat)
    requires log <= log' && n <= n'
    ensures ProposedBefore(log, id, n) ==> ProposedBefore(log', id, n')
    ensures ApprovedBefore(log, id, n) ==> ApprovedBefore(log', id, n')
  {
    assert forall i | 0 <= i < |log| :: log'[i] == log[i];
    forall m: nat, m': nat | ProposedBefore(log, id, m) && m <= m' ensures ProposedBefore(log', id, m') {
      var i :| 0 <= i < m && i < |log| && log[i].eventType == Proposed && log[i].actionId == id;
      assert log'[i] == log[i];
    }
    if ApprovedBefore(log, id, n) {
      var i :| 0 <= i < n && i < |log| && log[i].eventType == Approved && log[i].actionId == id &&
               ProposedBefore(log, id, i);
      assert log'[i] == log[i];
    }
  }

  // ----- invariants -----

  /** The running node is the one the checkpoint asks for, and tools have run only after the
      approvals were committed. */
  ghost predicate Control(s: System) {
    && (s.pc.Planning? ==> s.cp.next == Planner)
    && (s.pc.Deciding? ==> s.cp.next == Approval)
    && (s.pc.Executing? || s.pc.Cleared? || s.pc.Recording? ==> s.cp.next == Executor)
    && (s.pc.Cleared? && RequiresApproval(s.pc.action.tier) ==> s.pc.action.actionId in s.cp.approved)
    && (s.effects != [] ==> s.cp.next in {Executor, Responder, End})
    && (forall f | f in s.effects && RequiresApproval(f.action.tier) :: f.action.actionId in s.cp.approved)
  }

  /** Whatever is proposed or approved in memory is proposed or approved in the log. */
  ghost predicate Paper(s: System) {
    && AllProposed(s.log, s.cp.proposed) && AllApproved(s.log, s.cp.approved)
    && (s.pc.Planning? ==>
          && AllProposed(s.log, s.pc.authorized)
          && (s.pc.announced && s.pc.plan != [] ==> ProposedBefore(s.log, s.pc.plan[0].actionId, |s.log|)))
    && (s.pc.Deciding? ==>
          && (forall i | 0 <= i < |s.pc.todo| :: ProposedBefore(s.log, s.pc.todo[i].actionId, |s.log|))
          && AllApproved(s.log, s.pc.approved))
  }

  /** The tool was permitted, when it was checked, for the very arguments it ran with, and a gated one
      ran after its proposal and its approval were on record. */
  ghost predicate Justified(ctx: Context, log: seq<AuditEvent>, f: Effect) {
    && f.at <= |log|
    && Judge(ctx, f.action, f.checked) == Allowed
    && (RequiresApproval(f.action.tier) ==> ApprovedBefore(log, f.action.actionId, f.at))
  }

  ghost predicate AllJustified(ctx: Context, s: System) {
    && (forall i | 0 <= i < |s.effects| :: Justified(ctx, s.log, s.effects[i]))
    && (s.pc.Cleared? ==> Judge(ctx, s.pc.action, s.pc.checked) == Allowed)
  }

  /** The effect that waits for its audit entry is the latest one. */
  ghost predicate PendingIsLast(s: System) {
    s.pc.Recording? ==>
      && s.effects != []
      && var f := s.effects[|s.effects| - 1];
         f.action.actionId == s.pc.actionId && f.action.tier == s.pc.tier && f.ok == s.pc.ok &&
         f.at <= |s.log|
  }

  ghost predicate EntryHasEffect(s: System, k: nat)
    requires k < |s.log|
  {
    && s.log[k].ok == Bool(true)
    && exists i | 0 <= i < |s.effects| ::
         s.effects[i].ok && s.effects[i].action.actionId == s.log[k].actionId && s.effects[i].at <= k
  }

  /** No EXECUTED entry of this thread without an earlier successful effect. */
  ghost predicate EntriesHaveEffects(s: System) {
    forall k | 0 <= k < |s.log| && s.log[k].eventType == Executed && s.log[k].actionId !in s.foreign ::
      EntryHasEffect(s, k)
  }

  // ----- preservation -----

  lemma ControlKept(ctx: Context, s: System, step: Step)
    requires Control(s) && Enabled(s, step)
    ensures Control(Apply(ctx, s, step))
  {
    var s' := Apply(ctx, s, step);
    if step.Execute? {
      forall f | f in s'.effects && RequiresApproval(f.action.tier) ensures f.action.actionId in s'.cp.approved {
        if f !in s.effects {
          assert f == s'.effects[|s.effects|];
        }
      }
    }
  }

  lemma {:induction false} GatedIdsAreProposed(log: seq<AuditEvent>, proposed: seq<ProposedAction>)
    requires AllProposed(log, proposed)
    ensures forall id | id in GatedIds(proposed) :: ProposedBefore(log, id, |log|)
  {
    if proposed != [] {
      GatedIdsAreProposed(log, proposed[1..]);
    }
  }

  /** A longer log still proposes and approves what it did. */
  lemma PaperSurvives(log: seq<AuditEvent>, log': seq<AuditEvent>, actions: seq<ProposedAction>, ids: seq<string>)
    requires log <= log'
    ensures AllProposed(log, actions) ==> AllProposed(log', actions)
    ensures AllApproved(log, ids) ==> AllApproved(log', ids)
  {
    forall i | 0 <= i < |actions|
      ensures ProposedBefore(log, actions[i].actionId, |log|) ==> ProposedBefore(log', actions[i].actionId, |log'|)
    {
      LogOnlyGrows(log, log', actions[i].actionId, |log|, |log'|);
    }
    forall i | 0 <= i < |ids|
      ensures ApprovedBefore(log, ids[i], |log|) ==> ApprovedBefore(log', ids[i], |log'|)
    {
      LogOnlyGrows(log, log', ids[i], |log|, |log'|);
    }
  }

  lemma CheckpointPaperKept(ctx: Context, s: System, step: Step)
    requires Paper(s) && Enabled(s, step)
    ensures var s' := Apply(ctx, s, step);
            AllProposed(s'.log, s'.cp.proposed) && AllApproved(s'.log, s'.cp.approved)
  {
    var s' := Apply(ctx, s, step);
    PaperSurvives(s.log, s'.log, s.cp.proposed, s.cp.approved);
  }

  lemma PlannerPaperKept(ctx: Context, s: System, step: Step)
    requires Paper(s) && Enabled(s, step)
    ensures var s' := Apply(ctx, s, step);
            s'.pc.Planning? ==>
              && AllProposed(s'.log, s'.pc.authorized)
              && (s'.pc.announced && s'.pc.plan != [] ==>
                    ProposedBefore(s'.log, s'.pc.plan[0].actionId, |s'.log|))
  {
    var s' := Apply(ctx, s, step);
    if s.pc.Planning? && s'.pc.Planning? {
      PaperSurvives(s.log, s'.log, s.pc.authorized, []);
      if step.Announce? {
        assert s'.log[|s.log|].eventType == Proposed;
      } else if step.JudgePlanned? {
        LogOnlyGrows(s.log, s'.log, s.pc.plan[0].actionId, |s.log|, |s'.log|);
      }
    }
  }

  lemma ApprovalPaperKept(ctx: Context, s: System, step: Step)
    requires Paper(s) && Enabled(s, step)
    ensures var s' := Apply(ctx, s, step);
            s'.pc.Deciding? ==>
              && (forall i | 0 <= i < |s'.pc.todo| :: ProposedBefore(s'.log, s'.pc.todo[i].actionId, |s'.log|))
              && AllApproved(s'.log, s'.pc.approved)
  {
    var s' := Apply(ctx, s, step);
    if step.Resume? {
      DecidesOnlyPending(step.raw, GatedIds(s.cp.proposed));
      GatedIdsAreProposed(s.log, s.cp.proposed);
      forall i | 0 <= i < |s'.pc.todo| ensures s'.pc.todo[i].actionId in GatedIds(s.cp.proposed) {
        assert s'.pc.todo[i] in s'.pc.todo;
      }
    } else if s.pc.Deciding? && s'.pc.Deciding? {
      PaperSurvives(s.log, s'.log, [], s.pc.approved);
      forall i | 0 <= i < |s.pc.todo|
        ensures ProposedBefore(s'.log, s.pc.todo[i].actionId, |s'.log|)
      {
        LogOnlyGrows(s.log, s'.log, s.pc.todo[i].actionId, |s.log|, |s'.log|);
      }
      if step.Decide? && s.pc.todo[0].approved {
        var d := s.pc.todo[0];
        LogOnlyGrows(s.log, s'.log, d.actionId, |s.log|, |s.log|);
        assert s'.log[|s.log|].eventType == Approved;
        assert ApprovedBefore(s'.log, d.actionId, |s'.log|);
      }
    }
  }

  lemma PaperKept(ctx: Context, s: System, step: Step)
    requires Paper(s) && Enabled(s, step)
    ensures Paper(Apply(ctx, s, step))
  {
    CheckpointPaperKept(ctx, s, step);
    PlannerPaperKept(ctx, s, step);
    ApprovalPaperKept(ctx, s, step);
  }

  /** A step adds at most one effect, that of a cleared action, and clears only what it judged. */
  lemma EffectShape(ctx: Context, s: System, step: Step)
    requires Enabled(s, step)
    ensures var s' := Apply(ctx, s, step);
            && s.log <= s'.log
            && (s'.effects == s.effects ||
                (s.pc.Cleared? && exists ok ::
                   s'.effects == s.effects + [Effect(s.pc.action, s.pc.checked, s.policy, |s.log|, ok)]))
            && (s'.pc.Cleared? ==> s'.pc == s.pc || Judge(ctx, s'.pc.action, s'.pc.checked) == Allowed)
  {
    if step.Execute? {
      assert Apply(ctx, s, step) == ExecuteOne(ctx, s, step.ok);
    }
  }

  lemma JustifiedKept(ctx: Context, s: System, step: Step)
    requires Control(s) && Paper(s) && AllJustified(ctx, s) && Enabled(s, step)
    ensures AllJustified(ctx, Apply(ctx, s, step))
  {
    var s' := Apply(ctx, s, step);
    EffectShape(ctx, s, step);
    forall i | 0 <= i < |s'.effects| ensures Justified(ctx, s'.log, s'.effects[i]) {
      if i < |s.effects| {
        assert Justified(ctx, s.log, s.effects[i]);
        LogOnlyGrows(s.log, s'.log, s.effects[i].action.actionId, s.effects[i].at, s.effects[i].at);
      } else {
        var action := s.pc.action;
        if RequiresApproval(action.tier) {
          var j :| 0 <= j < |s.cp.approved| && s.cp.approved[j] == action.actionId;
          assert ApprovedBefore(s.log, s.cp.approved[j], |s.log|);
        }
      }
    }
  }

  lemma EntriesKept(ctx: Context, s: System, step: Step)
    requires PendingIsLast(s) && EntriesHaveEffects(s) && Enabled(s, step)
    ensures var s' := Apply(ctx, s, step); PendingIsLast(s') && EntriesHaveEffects(s')
  {
    var s' := Apply(ctx, s, step);
    forall k | 0 <= k < |s'.log| && s'.log[k].eventType == Executed && s'.log[k].actionId !in s'.foreign
      ensures EntryHasEffect(s', k)
    {
      if k < |s.log| {
        assert EntryHasEffect(s, k);
        var i :| 0 <= i < |s.effects| && s.effects[i].ok &&
                 s.effects[i].action.actionId == s.log[k].actionId && s.effects[i].at <= k;
        assert s'.effects[i] == s.effects[i];
      } else {
        assert s'.effects[|s.effects| - 1].ok;
      }
    }
  }

  // ----- the ledger against the side effects -----

  function ExecutedCount(log: seq<AuditEvent>, id: string): nat {
    if log == [] then 0
    else
      var n := |log| - 1;
      ExecutedCount(log[..n], id) + if CountsAsExecuted(log[n]) && log[n].actionId == id then 1 else 0
  }

  function SuccessCount(effects: seq<Effect>, id: string): nat {
    if effects == [] then 0
    else
      var n := |effects| - 1;
      SuccessCount(effects[..n], id) + if effects[n].ok && effects[n].action.actionId == id then 1 else 0
  }

  function LostCount(lost: seq<string>, id: string): nat {
    if lost == [] then 0
    else
      var n := |lost| - 1;
      LostCount(lost[..n], id) + if lost[n] == id then 1 else 0
  }

  function PendingCount(s: System, id: string): nat {
    if s.pc.Recording? && s.pc.ok && s.pc.actionId == id then 1 else 0
  }

  /** Only actions that need approval ever ran under this id. */
  ghost predicate AlwaysGated(effects: seq<Effect>, id: string) {
    forall i | 0 <= i < |effects| && effects[i].action.actionId == id :: RequiresApproval(effects[i].action.tier)
  }

  lemma {:induction false} HasExecutedIsCount(log: seq<AuditEvent>, id: string)
    ensures HasExecuted(log, id) <==> ExecutedCount(log, id) > 0
  {
    if log != [] {
      var n := |log| - 1;
      HasExecutedIsCount(log[..n], id);
      assert log == log[..n] + [log[n]];
      if HasExecuted(log[..n], id) {
        var i :| 0 <= i < n && CountsAsExecuted(log[..n][i]) && log[..n][i].actionId == id;
        assert log[i] == log[..n][i];
      }
      if HasExecuted(log, id) && !(CountsAsExecuted(log[n]) && log[n].actionId == id) {
        var i :| 0 <= i < |log| && CountsAsExecuted(log[i]) && log[i].actionId == id;
        assert log[..n][i] == log[i];
      }
    }
  }

  lemma ExecutedAppend(log: seq<AuditEvent>, event: AuditEvent, id: string)
    ensures ExecutedCount(log + [event], id) ==
            ExecutedCount(log, id) + if CountsAsExecuted(event) && event.actionId == id then 1 else 0
  {
    assert (log + [event])[..|log|] == log;
  }

  lemma SuccessAppend(effects: seq<Effect>, f: Effect, id: string)
    ensures SuccessCount(effects + [f], id) ==
            SuccessCount(effects, id) + if f.ok && f.action.actionId == id then 1 else 0
  {
    assert (effects + [f])[..|effects|] == effects;
  }

  lemma LostAppend(lost: seq<string>, l: string, id: string)
    ensures LostCount(lost + [l], id) == LostCount(lost, id) + if l == id then 1 else 0
  {
    assert (lost + [l])[..|lost|] == lost;
  }

  /** Every successful effect is on record, lost in a crash, or about to be recorded. */
  ghost predicate Balanced(s: System, id: string) {
    SuccessCount(s.effects, id) == ExecutedCount(s.log, id) + LostCount(s.lost, id) + PendingCount(s, id)
  }

  ghost predicate OnceOnly(s: System, id: string) {
    && (AlwaysGated(s.effects, id) ==> ExecutedCount(s.log, id) <= 1)
    && (s.pc.Recording? && s.pc.actionId == id && RequiresApproval(s.pc.tier) ==> ExecutedCount(s.log, id) == 0)
  }

  // ----- what one step adds to the three counts -----

  /** A step appends at most one entry, and only writing a result or another writer records a success. */
  lemma LogShape(ctx: Context, s: System, step: Step)
    requires Enabled(s, step)
    ensures var s' := Apply(ctx, s, step);
            || s'.log == s.log
            || (&& |s'.log| == |s.log| + 1 && s'.log == s.log + [s'.log[|s.log|]]
                && (step.WriteEntry? || step.ForeignAppend? || !CountsAsExecuted(s'.log[|s.log|])))
    ensures step.WriteEntry? ==> Apply(ctx, s, step).log == s.log + [ResultEvent(s.pc.actionId, s.pc.ok)]
    ensures step.ForeignAppend? ==> Apply(ctx, s, step).log == s.log + [step.event]
  {
  }

  lemma LogAppends(ctx: Context, s: System, step: Step, id: string)
    requires Enabled(s, step) && id !in Apply(ctx, s, step).foreign
    ensures ExecutedCount(Apply(ctx, s, step).log, id) ==
            ExecutedCount(s.log, id) + if step.WriteEntry? then PendingCount(s, id) else 0
  {
    var s' := Apply(ctx, s, step);
    LogShape(ctx, s, step);
    if s'.log != s.log {
      ExecutedAppend(s.log, s'.log[|s.log|], id);
    }
  }

  lemma EffectsAppend(ctx: Context, s: System, step: Step, id: string)
    requires Enabled(s, step)
    ensures var s' := Apply(ctx, s, step);
            && s.effects <= s'.effects
            && SuccessCount(s'.effects, id) ==
               SuccessCount(s.effects, id) + if step.Execute? then PendingCount(s', id) else 0
  {
    var s' := Apply(ctx, s, step);
    if s'.effects != s.effects {
      assert s'.effects == s.effects + [s'.effects[|s.effects|]];
      SuccessAppend(s.effects, s'.effects[|s.effects|], id);
    }
  }

  lemma LossAppends(ctx: Context, s: System, step: Step, id: string)
    requires Enabled(s, step)
    ensures LostCount(Apply(ctx, s, step).lost, id) ==
            LostCount(s.lost, id) + if step.Crash? then PendingCount(s, id) else 0
  {
    var s' := Apply(ctx, s, step);
    if s'.lost != s.lost {
      assert s'.lost == s.lost + [s'.lost[|s.lost|]];
      LostAppend(s.lost, s'.lost[|s.lost|], id);
    }
  }

  /** Only an execution makes an entry due, and only writing it or crashing settles it. */
  lemma PendingMoves(ctx: Context, s: System, step: Step, id: string)
    requires Enabled(s, step)
    ensures step.Execute? ==> PendingCount(s, id) == 0
    ensures step.WriteEntry? || step.Crash? ==> PendingCount(Apply(ctx, s, step), id) == 0
    ensures !step.Execute? && !step.WriteEntry? && !step.Crash? ==>
              PendingCount(Apply(ctx, s, step), id) == PendingCount(s, id)
  {
  }

  lemma BalancedKept(ctx: Context, s: System, step: Step, id: string)
    requires Balanced(s, id) && Enabled(s, step) && id !in Apply(ctx, s, step).foreign
    ensures Balanced(Apply(ctx, s, step), id)
  {
    LogAppends(ctx, s, step, id);
    EffectsAppend(ctx, s, step, id);
    LossAppends(ctx, s, step, id);
    PendingMoves(ctx, s, step, id);
  }

  /** A gated action runs only while the ledger has no entry for it. */
  lemma RunsUnrecorded(ctx: Context, s: System, step: Step, id: string)
    requires Enabled(s, step) && id !in Apply(ctx, s, step).foreign
    requires s.pc.Recording? && s.pc.actionId == id && RequiresApproval(s.pc.tier) ==> ExecutedCount(s.log, id) == 0
    ensures var s' := Apply(ctx, s, step);
            s'.pc.Recording? && s'.pc.actionId == id && RequiresApproval(s'.pc.tier) ==>
              ExecutedCount(s'.log, id) == 0
  {
    LogAppends(ctx, s, step, id);
    HasExecutedIsCount(s.log, id);
  }

  lemma PendingWasGated(s: System, id: string)
    requires PendingIsLast(s) && AlwaysGated(s.effects, id) && PendingCount(s, id) > 0
    ensures s.pc.Recording? && s.pc.actionId == id && RequiresApproval(s.pc.tier)
  {
    assert s.effects[|s.effects| - 1].action.actionId == id;
  }

  lemma GatedBefore(effects: seq<Effect>, effects': seq<Effect>, id: string)
    requires effects <= effects' && AlwaysGated(effects', id)
    ensures AlwaysGated(effects, id)
  {
    assert forall i | 0 <= i < |effects| :: effects'[i] == effects[i];
  }

  lemma OnceOnlyKept(ctx: Context, s: System, step: Step, id: string)
    requires PendingIsLast(s) && OnceOnly(s, id) && Enabled(s, step) && id !in Apply(ctx, s, step).foreign
    ensures OnceOnly(Apply(ctx, s, step), id)
  {
    var s' := Apply(ctx, s, step);
    RunsUnrecorded(ctx, s, step, id);
    EffectsAppend(ctx, s, step, id);
    LogAppends(ctx, s, step, id);
    if AlwaysGated(s'.effects, id) {
      GatedBefore(s.effects, s'.effects, id);
      if PendingCount(s, id) > 0 {
        PendingWasGated(s, id);
      }
    }
  }

  // ----- safety of every run -----

  ghost predicate Inv(ctx: Context, s: System) {
    && Control(s) && Paper(s) && AllJustified(ctx, s) && PendingIsLast(s) && EntriesHaveEffects(s)
    && forall id | id !in s.foreign :: Balanced(s, id) && OnceOnly(s, id)
  }

  lemma StepKeepsInv(ctx: Context, s: System, step: Step)
    requires Inv(ctx, s) && Enabled(s, step)
    ensures Inv(ctx, Apply(ctx, s, step))
  {
    ControlKept(ctx, s, step);
    PaperKept(ctx, s, step);
    JustifiedKept(ctx, s, step);
    EntriesKept(ctx, s, step);
    forall id | id !in Apply(ctx, s, step).foreign
      ensures var s' := Apply(ctx, s, step); Balanced(s', id) && OnceOnly(s', id)
    {
      BalancedKept(ctx, s, step, id);
      OnceOnlyKept(ctx, s, step, id);
    }
  }

  lemma {:induction false} UnusedIdIsUncounted(log: seq<AuditEvent>, id: string)
    requires id !in IdsIn(log)
    ensures ExecutedCount(log, id) == 0
  {
    if log != [] {
      var n := |log| - 1;
      assert log[n] in log && forall e | e in log[..n] :: e in log;
      UnusedIdIsUncounted(log[..n], id);
    }
  }

  lemma InitHasInv(ctx: Context, s: System)
    requires Init(s)
    ensures Inv(ctx, s)
  {
    forall id | id !in s.foreign ensures Balanced(s, id) && OnceOnly(s, id) {
      UnusedIdIsUncounted(s.log, id);
    }
  }

  lemma {:induction false} RunKeepsInv(ctx: Context, trace: seq<System>)
    requires Run(ctx, trace)
    ensures Inv(ctx, trace[|trace| - 1])
  {
    var n := |trace| - 1;
    if n == 0 {
      InitHasInv(ctx, trace[0]);
    } else {
      assert Run(ctx, trace[..n]);
      RunKeepsInv(ctx, trace[..n]);
      assert Next(ctx, trace[n - 1], trace[n]);
      var step :| Enabled(trace[n - 1], step) && trace[n] == Apply(ctx, trace[n - 1], step);
      StepKeepsInv(ctx, trace[n - 1], step);
    }
  }

  /** Under a policy: a registered tool, arguments that validate, a stamp (if any) equal to the permission
      derived from those arguments, and a principal who holds it. */
  ghost predicate PermittedUnder(ctx: Context, action: ProposedAction, policy: Policy) {
    && action.tool in ctx.registry
    && var tool := ctx.registry[action.tool];
       var validated := Validate(tool.schema, action.args);
       && validated.Some?
       && (action.stamped.Some? ==> action.stamped == PermissionFor(tool, validated.value))
       && Can(Some(ctx.principal), PermissionFor(tool, validated.value), policy)
  }

  /** Whatever the planner proposes, however policy, arguments, crashes and other threads interfere: every
      tool invocation was permitted, when it was checked, for the arguments it ran with, and a gated one
      followed its proposal and its approval in the log. */
  lemma EveryEffectIsAuthorized(ctx: Context, trace: seq<System>, f: Effect)
    requires Run(ctx, trace) && f in trace[|trace| - 1].effects
    ensures PermittedUnder(ctx, f.action, f.checked)
    ensures !f.action.tier.Read? ==> ApprovedBefore(trace[|trace| - 1].log, f.action.actionId, f.at)
  {
    RunKeepsInv(ctx, trace);
    var s := trace[|trace| - 1];
    var i :| 0 <= i < |s.effects| && s.effects[i] == f;
    assert Justified(ctx, s.log, s.effects[i]);
  }

  /** The ids a human is asked about: those of the proposed actions that do more than read. */
  lemma {:induction false} GatedIff(proposed: seq<ProposedAction>, id: string)
    ensures id in GatedIds(proposed) <==> exists a | a in proposed :: !a.tier.Read? && a.actionId == id
  {
    if proposed != [] {
      GatedIff(proposed[1..], id);
      assert proposed == [proposed[0]] + proposed[1..];
    }
  }

  /** Whatever the plan, the planner ends in the approval pause exactly if one authorized action does more
      than read; a plan that only reads goes straight to the executor, and an empty one to the responder. */
  lemma PlanPausesIff(ctx: Context, s: System)
    requires Enabled(s, EndPlanner)
    ensures var s', plan := Apply(ctx, s, EndPlanner), s.pc.authorized;
            && s'.pc == Paused && s'.cp.proposed == plan
            && (s'.cp.next == Approval <==> exists a | a in plan :: !a.tier.Read?)
            && (s'.cp.next == Approval <==> GatedIds(plan) != [])
            && (s'.cp.next == Executor <==> plan != [] && forall a | a in plan :: a.tier.Read?)
            && (s'.cp.next == Responder <==> plan == [])
  {
    var plan := s.pc.authorized;
    if GatedIds(plan) != [] {
      GatedIff(plan, GatedIds(plan)[0]);
    }
    if i :| 0 <= i < |plan| && !plan[i].tier.Read? {
      assert plan[i] in plan;
      GatedIff(plan, plan[i].actionId);
    }
  }

  /** The gate opens for exactly what is permitted. */
  lemma JudgeAllowsIff(ctx: Context, action: ProposedAction, policy: Policy)
    ensures Judge(ctx, action, policy) == Allowed <==> PermittedUnder(ctx, action, policy)
  {
    if action.tool in ctx.registry {
      var tool := ctx.registry[action.tool];
      RequiresIff(action, tool, if Validate(tool.schema, action.args).Some?
                                then PermissionFor(tool, Validate(tool.schema, action.args).value) else None);
    }
  }

  /** Whatever was posted to a channel was posted under a grant that authorizes the channel of that name. */
  lemma PostedChannelWasGranted(ctx: Context, trace: seq<System>, f: Effect, base: string)
    requires Run(ctx, trace) && f in trace[|trace| - 1].effects && f.action.tool in ctx.registry
    requires ctx.registry[f.action.tool].schema.ChannelSchema? && ctx.registry[f.action.tool].base == Some(base)
    ensures var sent := Validate(ctx.registry[f.action.tool].schema, f.action.args);
            && sent.Some? && "channel" in sent.value
            && GrantedByOne(ctx.principal, f.checked, base + ":channel:" + ChannelName(sent.value["channel"]))
  {
    var tool := ctx.registry[f.action.tool];
    EveryEffectIsAuthorized(ctx, trace, f);
    ChannelPermission(tool, f.action.args, base);
    var sent := Validate(tool.schema, f.action.args).value;
    CanByOneGrant(ctx.principal, f.checked, base + ":channel:" + ChannelName(sent["channel"]));
  }

  /** And whatever was mailed, under a grant that authorizes the recipient's domain. */
  lemma MailedDomainWasGranted(ctx: Context, trace: seq<System>, f: Effect, base: string) returns (local: string, domain: string)
    requires Run(ctx, trace) && f in trace[|trace| - 1].effects && f.action.tool in ctx.registry
    requires ctx.registry[f.action.tool].schema.RecipientSchema? && ctx.registry[f.action.tool].base == Some(base)
    ensures "to" in f.action.args && f.action.args["to"] == local + "@" + domain && '@' !in domain && domain != ""
    ensures GrantedByOne(ctx.principal, f.checked, base + ":domain:" + Lower(domain))
  {
    var tool := ctx.registry[f.action.tool];
    EveryEffectIsAuthorized(ctx, trace, f);
    local, domain := AddressSplits(f.action.args["to"]);
    DomainPermission(tool, f.action.args, base, local, domain);
    CanByOneGrant(ctx.principal, f.checked, base + ":domain:" + Lower(domain));
  }

  /** A stamped post whose arguments are changed while the run is paused keeps its place, its id and its stamp.
      It passes the check exactly if it passed before and the new arguments are valid and name the same channel:
      an approval cannot be redirected, though the text can still be swapped. */
  lemma RedirectedPostIsDenied(ctx: Context, s: System, index: nat, args: Args, policy: Policy)
    requires Enabled(s, MutateArgs(index, args)) && s.cp.proposed[index].tool in ctx.registry
    requires var tool, was := ctx.registry[s.cp.proposed[index].tool], s.cp.proposed[index];
             && tool.schema.ChannelSchema? && tool.base.Some? && Validate(tool.schema, was.args).Some?
             && was.stamped == PermissionFor(tool, Validate(tool.schema, was.args).value)
    ensures var tool, was := ctx.registry[s.cp.proposed[index].tool], s.cp.proposed[index];
            var moved := Apply(ctx, s, MutateArgs(index, args)).cp.proposed[index];
            && moved == was.(args := args)
            && (Judge(ctx, moved, policy) == Allowed <==>
                && Judge(ctx, was, policy) == Allowed && Validate(tool.schema, args).Some?
                && SameChannel(Validate(tool.schema, was.args).value, Validate(tool.schema, args).value))
  {
    var tool, was := ctx.registry[s.cp.proposed[index].tool], s.cp.proposed[index];
    JudgeAllowsIff(ctx, was, policy);
    JudgeAllowsIff(ctx, was.(args := args), policy);
    ChannelPermission(tool, was.args, tool.base.value);
    if Validate(tool.schema, args).Some? {
      ChannelsAreToldApart(tool, was.args, args);
    }
  }

  predicate SameChannel(a: Args, b: Args) {
    "channel" in a && "channel" in b && ChannelName(a["channel"]) == ChannelName(b["channel"])
  }

  /** What can have become false by the time the tool runs is the grant alone: the effect is permitted
      under the policy then in force exactly if the principal still holds the permission. */
  lemma PermittedAtEffectIff(ctx: Context, trace: seq<System>, f: Effect)
    requires Run(ctx, trace) && f in trace[|trace| - 1].effects
    ensures f.action.tool in ctx.registry && Validate(ctx.registry[f.action.tool].schema, f.action.args).Some?
    ensures var tool := ctx.registry[f.action.tool];
            PermittedUnder(ctx, f.action, f.policy) <==>
            Can(Some(ctx.principal), PermissionFor(tool, Validate(tool.schema, f.action.args).value), f.policy)
  {
    EveryEffectIsAuthorized(ctx, trace, f);
  }

  ghost predicate SamePolicy(s: System, policy: Policy) {
    && s.policy == policy && (s.pc.Cleared? ==> s.pc.checked == policy)
    && forall i | 0 <= i < |s.effects| :: s.effects[i].checked == policy && s.effects[i].policy == policy
  }

  /** As long as nobody edits the policy it is the same one at the check and at the effect. */
  lemma {:induction false} UneditedPolicyHolds(ctx: Context, trace: seq<System>)
    requires Run(ctx, trace) && forall i | 0 <= i < |trace| :: trace[i].policy == trace[0].policy
    ensures SamePolicy(trace[|trace| - 1], trace[0].policy)
  {
    var n := |trace| - 1;
    if n > 0 {
      assert Run(ctx, trace[..n]);
      UneditedPolicyHolds(ctx, trace[..n]);
      assert Next(ctx, trace[n - 1], trace[n]);
      var step :| Enabled(trace[n - 1], step) && trace[n] == Apply(ctx, trace[n - 1], step);
      PolicyStep(ctx, trace[n - 1], step, trace[0].policy);
    }
  }

  lemma PolicyStep(ctx: Context, s: System, step: Step, policy: Policy)
    requires SamePolicy(s, policy) && Enabled(s, step) && Apply(ctx, s, step).policy == policy
    ensures SamePolicy(Apply(ctx, s, step), policy)
  {
  }

  /** Every EXECUTED entry under an id nobody else uses stands for an authorized, successful effect that came before
      it; if the action was gated, its PROPOSED and its APPROVED entry precede it, in that order. */
  lemma ExecutedEntriesAreEarned(ctx: Context, trace: seq<System>, k: nat)
    requires Run(ctx, trace)
    requires k < |trace[|trace| - 1].log| && trace[|trace| - 1].log[k].eventType == Executed
    requires trace[|trace| - 1].log[k].actionId !in trace[|trace| - 1].foreign
    ensures var s := trace[|trace| - 1];
            exists f | f in s.effects ::
              && f.ok && f.action.actionId == s.log[k].actionId && f.at <= k
              && PermittedUnder(ctx, f.action, f.checked)
              && (!f.action.tier.Read? ==>
                    exists i, j | 0 <= i < j < k ::
                      && s.log[i].eventType == Proposed && s.log[i].actionId == s.log[k].actionId
                      && s.log[j].eventType == Approved && s.log[j].actionId == s.log[k].actionId)
  {
    RunKeepsInv(ctx, trace);
    var s := trace[|trace| - 1];
    assert EntryHasEffect(s, k);
    var n :| 0 <= n < |s.effects| && s.effects[n].ok &&
             s.effects[n].action.actionId == s.log[k].actionId && s.effects[n].at <= k;
    var f := s.effects[n];
    EveryEffectIsAuthorized(ctx, trace, f);
    if RequiresApproval(f.action.tier) {
      var j :| 0 <= j < f.at && j < |s.log| && s.log[j].eventType == Approved &&
               s.log[j].actionId == f.action.actionId && ProposedBefore(s.log, f.action.actionId, j);
      var i :| 0 <= i < j && i < |s.log| && s.log[i].eventType == Proposed &&
               s.log[i].actionId == f.action.actionId;
    }
  }

  /** Crashes and re-runs included, a gated id has at most one successful EXECUTED entry; successful
      effects exceed the entries by exactly the crashes between effect and entry, plus the one effect
      whose entry is due. */
  lemma AtMostOnceUpToCrashes(ctx: Context, trace: seq<System>, id: string)
    requires Run(ctx, trace) && AlwaysGated(trace[|trace| - 1].effects, id) && id !in trace[|trace| - 1].foreign
    ensures var s := trace[|trace| - 1];
            && ExecutedCount(s.log, id) <= 1
            && SuccessCount(s.effects, id) == ExecutedCount(s.log, id) + LostCount(s.lost, id) + PendingCount(s, id)
            && (LostCount(s.lost, id) == 0 ==> SuccessCount(s.effects, id) <= 1)
  {
    RunKeepsInv(ctx, trace);
    var s := trace[|trace| - 1];
    assert Balanced(s, id) && OnceOnly(s, id);
    if s.pc.Recording? {
      assert s.effects[|s.effects| - 1].action.tier == s.pc.tier;
    }
  }

  /** The executor runs the tool exactly when RBAC allows it and, for a gated action, it is approved
      and has no successful entry; failed attempts are no obstacle. */
  lemma FailureNeverBlocksRetry(ctx: Context, action: ProposedAction, approved: seq<string>,
                                policy: Policy, log: seq<AuditEvent>, failures: seq<AuditEvent>)
    requires forall i | 0 <= i < |failures| :: failures[i].eventType != Executed
    ensures Dispose(ctx, action, approved, policy, log + failures) == Dispose(ctx, action, approved, policy, log)
    ensures Dispose(ctx, action, approved, policy, log) == RunTool <==>
            && Judge(ctx, action, policy) == Allowed
            && (RequiresApproval(action.tier) ==>
                  action.actionId in approved && ExecutedCount(log, action.actionId) == 0)
  {
    HasExecutedIsCount(log, action.actionId);
    var both := log + failures;
    if HasExecuted(log, action.actionId) {
      var i :| 0 <= i < |log| && CountsAsExecuted(log[i]) && log[i].actionId == action.actionId;
      assert both[i] == log[i];
    }
    if HasExecuted(both, action.actionId) {
      var i :| 0 <= i < |both| && CountsAsExecuted(both[i]) && both[i].actionId == action.actionId;
      assert i < |log| && log[i] == both[i];
    }
  }
}
