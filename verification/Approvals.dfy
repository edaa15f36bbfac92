/** Human decisions as they arrive over HTTP: a validated request never says yes and no at once, and
    what it rejects never runs. */
module Approvals {
  import opened Collections
  import opened Actions
  import opened Orchestration

  datatype ApproveRequest = ApproveRequest(approve: Option<bool>, approvedIds: seq<string>, rejectedIds: seq<string>)

  /** The three refusals of the request validator. */
  predicate ValidRequest(body: ApproveRequest) {
    && !(body.approve.None? && body.approvedIds == [] && body.rejectedIds == [])
    && !(body.approve.Some? && (body.approvedIds != [] || body.rejectedIds != []))
    && forall id | id in body.approvedIds :: id !in body.rejectedIds
  }

  function ItemsFor(ids: seq<string>, approved: bool, caller: string): (items: seq<Item>)
    ensures |items| == |ids|
    ensures forall i | 0 <= i < |ids| :: items[i] == Item(Some(ids[i]), Some(approved), Some(caller))
  {
    seq(|ids|, i requires 0 <= i < |ids| => Item(Some(ids[i]), Some(approved), Some(caller)))
  }

  /** Explicit per-action decisions carrying the caller's id. */
  function DecisionPayload(body: ApproveRequest, proposed: seq<ProposedAction>, caller: string): Payload {
    if body.approve.Some? then Items(ItemsFor(GatedIds(proposed), body.approve.value, caller))
    else Items(ItemsFor(body.approvedIds, true, caller) + ItemsFor(body.rejectedIds, false, caller))
  }

  lemma {:induction false} ItemsDecide(items: seq<Item>, valid: seq<string>, i: nat)
    requires i < |items| && items[i].actionId.Some? && items[i].actionId.value in valid
    requires items[i].decidedBy.Some?
    ensures Decision(items[i].actionId.value, items[i].approved == Some(true), items[i].decidedBy.value)
            in DecideItems(items, valid)
  {
    if i > 0 {
      ItemsDecide(items[1..], valid, i - 1);
    }
  }

  /** The request names the id and answers it this way. */
  predicate Answers(body: ApproveRequest, id: string, yes: bool) {
    if body.approve.Some? then body.approve.value == yes
    else if yes then id in body.approvedIds else id in body.rejectedIds
  }

  /** The validator lets through exactly the requests that answer something, one way for each id, and do not
      mix the blanket answer with lists. */
  lemma ValidRequestIff(body: ApproveRequest)
    ensures ValidRequest(body) <==>
            && (exists id, yes :: Answers(body, id, yes))
            && (forall id :: !(Answers(body, id, true) && Answers(body, id, false)))
            && (body.approve.Some? ==> body.approvedIds == [] && body.rejectedIds == [])
  {
    if body.approve.Some? {
      assert Answers(body, "", body.approve.value);
    } else {
      if body.approvedIds != [] {
        assert Answers(body, body.approvedIds[0], true);
      }
      if body.rejectedIds != [] {
        assert Answers(body, body.rejectedIds[0], false);
      }
      if id :| id in body.approvedIds && id in body.rejectedIds {
        assert Answers(body, id, true) && Answers(body, id, false);
      }
    }
  }

  lemma PayloadContents(body: ApproveRequest, proposed: seq<ProposedAction>, caller: string, id: string, yes: bool)
    requires id in GatedIds(proposed)
    ensures Item(Some(id), Some(yes), Some(caller)) in DecisionPayload(body, proposed, caller).items <==>
            Answers(body, id, yes)
  {
    var source := if body.approve.Some? then GatedIds(proposed) else if yes then body.approvedIds else body.rejectedIds;
    var items := DecisionPayload(body, proposed, caller).items;
    if Answers(body, id, yes) {
      var j :| 0 <= j < |source| && source[j] == id;
      var i := if body.approve.None? && !yes then |body.approvedIds| + j else j;
      assert items[i] == Item(Some(id), Some(yes), Some(caller));
    }
  }

  lemma PayloadItems(body: ApproveRequest, proposed: seq<ProposedAction>, caller: string, item: Item)
    requires item in DecisionPayload(body, proposed, caller).items
    ensures item.actionId.Some? && item.approved.Some? && item.decidedBy == Some(caller)
  {
  }

  /** Exactly which decisions a request produces: all pending ids one way, or the listed ids that are
      pending, each the way it was listed. */
  lemma RequestDecidesExactly(body: ApproveRequest, proposed: seq<ProposedAction>, caller: string, id: string, yes: bool)
    ensures (exists d | d in ParseDecisions(DecisionPayload(body, proposed, caller), GatedIds(proposed)) ::
               d.actionId == id && d.approved == yes) <==>
            id in GatedIds(proposed) && Answers(body, id, yes)
  {
    var valid := GatedIds(proposed);
    var items := DecisionPayload(body, proposed, caller).items;
    if id in valid && Answers(body, id, yes) {
      PayloadContents(body, proposed, caller, id, yes);
      var i :| 0 <= i < |items| && items[i] == Item(Some(id), Some(yes), Some(caller));
      ItemsDecide(items, valid, i);
    }
    ItemsArePending(items, valid);
    if d :| d in DecideItems(items, valid) && d.actionId == id && d.approved == yes {
      var item :| item in items && item.actionId == Some(id) && yes == (item.approved == Some(true));
      PayloadItems(body, proposed, caller, item);
      assert item == Item(Some(id), Some(yes), Some(caller));
      PayloadContents(body, proposed, caller, id, yes);
    }
  }

  lemma {:induction false} ItemsKeepDecider(items: seq<Item>, valid: seq<string>, caller: string)
    requires forall item | item in items :: item.decidedBy == Some(caller)
    ensures forall d | d in DecideItems(items, valid) :: d.decidedBy == caller
  {
    if items != [] {
      assert items[0] in items && forall item | item in items[1..] :: item in items;
      ItemsKeepDecider(items[1..], valid, caller);
    }
  }

  /** Every decision of a request is recorded as its caller's, whoever proposed the action. */
  lemma DecidedByCaller(body: ApproveRequest, proposed: seq<ProposedAction>, caller: string)
    ensures forall d | d in ParseDecisions(DecisionPayload(body, proposed, caller), GatedIds(proposed)) ::
              d.decidedBy == caller
  {
    ItemsKeepDecider(DecisionPayload(body, proposed, caller).items, GatedIds(proposed), caller);
  }

  /** No id is decided both ways. */
  ghost predicate Consistent(decisions: seq<Decision>) {
    forall i, j | 0 <= i < |decisions| && 0 <= j < |decisions| && decisions[i].actionId == decisions[j].actionId ::
      decisions[i].approved == decisions[j].approved
  }

  lemma ValidRequestIsConsistent(body: ApproveRequest, proposed: seq<ProposedAction>, caller: string)
    requires ValidRequest(body)
    ensures Consistent(ParseDecisions(DecisionPayload(body, proposed, caller), GatedIds(proposed)))
  {
    var decisions := ParseDecisions(DecisionPayload(body, proposed, caller), GatedIds(proposed));
    forall i, j | 0 <= i < |decisions| && 0 <= j < |decisions| && decisions[i].actionId == decisions[j].actionId
      ensures decisions[i].approved == decisions[j].approved
    {
      assert decisions[i] in decisions && decisions[j] in decisions;
      RequestDecidesExactly(body, proposed, caller, decisions[i].actionId, decisions[i].approved);
      RequestDecidesExactly(body, proposed, caller, decisions[j].actionId, decisions[j].approved);
    }
  }

  // ----- exactly when a payload is consistent -----

  /** The payload decides the pending id this way. */
  ghost predicate Says(raw: Payload, valid: seq<string>, id: string, yes: bool) {
    && id in valid
    && match raw
       case ForAll(approved) => approved == yes
       case Items(items) => exists i | i in items :: i.actionId == Some(id) && (i.approved == Some(true)) == yes
       case Lists(approvedIds, rejectedIds) => if yes then id in approvedIds else id in rejectedIds
       case Mapping(entries) => (id, yes) in entries
       case Unusable => false
  }

  ghost predicate Decided(decisions: seq<Decision>, id: string, yes: bool) {
    exists d | d in decisions :: d.actionId == id && d.approved == yes
  }

  lemma {:induction false} IdsDecideExactly(ids: seq<string>, valid: seq<string>, approved: bool, id: string, yes: bool)
    ensures Decided(DecideIds(ids, valid, approved), id, yes) <==> id in valid && id in ids && approved == yes
  {
    if ids != [] {
      IdsDecideExactly(ids[1..], valid, approved, id, yes);
      var rest, all := DecideIds(ids[1..], valid, approved), DecideIds(ids, valid, approved);
      assert forall d | d in rest :: d in all;
      assert ids[0] in valid ==> all[0] in all;
    }
  }

  lemma {:induction false} ItemsDecideExactly(items: seq<Item>, valid: seq<string>, id: string, yes: bool)
    ensures Decided(DecideItems(items, valid), id, yes) <==> Says(Items(items), valid, id, yes)
  {
    if items != [] {
      ItemsDecideExactly(items[1..], valid, id, yes);
      var rest, all := DecideItems(items[1..], valid), DecideItems(items, valid);
      assert forall d | d in rest :: d in all;
      assert items[0].actionId.Some? && items[0].actionId.value in valid ==> all[0] in all;
      assert forall i :: i in items <==> i == items[0] || i in items[1..];
    }
  }

  lemma {:induction false} EntriesDecideExactly(entries: seq<(string, bool)>, valid: seq<string>, id: string, yes: bool)
    ensures Decided(DecideEntries(entries, valid), id, yes) <==> id in valid && (id, yes) in entries
  {
    if entries != [] {
      EntriesDecideExactly(entries[1..], valid, id, yes);
      var rest, all := DecideEntries(entries[1..], valid), DecideEntries(entries, valid);
      assert forall d | d in rest :: d in all;
      assert entries[0].0 in valid ==> all[0] in all;
      assert forall e :: e in entries <==> e == entries[0] || e in entries[1..];
    }
  }

  lemma DecidedConcat(a: seq<Decision>, b: seq<Decision>, id: string, yes: bool)
    ensures Decided(a + b, id, yes) <==> Decided(a, id, yes) || Decided(b, id, yes)
  {
    assert forall d :: d in a + b <==> d in a || d in b;
  }

  /** The parsed decisions are exactly what the payload says of pending ids, in every accepted shape. */
  lemma ParsesExactly(raw: Payload, valid: seq<string>, id: string, yes: bool)
    ensures Decided(ParseDecisions(raw, valid), id, yes) <==> Says(raw, valid, id, yes)
  {
    match raw
    case ForAll(approved) => IdsDecideExactly(valid, valid, approved, id, yes);
    case Items(items) => ItemsDecideExactly(items, valid, id, yes);
    case Lists(approvedIds, rejectedIds) =>
      IdsDecideExactly(approvedIds, valid, true, id, yes);
      IdsDecideExactly(rejectedIds, valid, false, id, yes);
      DecidedConcat(DecideIds(approvedIds, valid, true), DecideIds(rejectedIds, valid, false), id, yes);
    case Mapping(entries) => EntriesDecideExactly(entries, valid, id, yes);
    case Unusable =>
  }

  /** No pending id is in both lists; no two items, and no two entries, on one pending id disagree. */
  ghost predicate Coherent(raw: Payload, valid: seq<string>) {
    match raw
    case ForAll(_) => true
    case Items(items) =>
      forall i, j | i in items && j in items && i.actionId == j.actionId && i.actionId.Some? && i.actionId.value in valid ::
        (i.approved == Some(true)) == (j.approved == Some(true))
    case Lists(approvedIds, rejectedIds) => forall id | id in valid && id in approvedIds :: id !in rejectedIds
    case Mapping(entries) => forall e, f | e in entries && f in entries && e.0 == f.0 && e.0 in valid :: e.1 == f.1
    case Unusable => true
  }

  lemma ConsistentByIds(decisions: seq<Decision>)
    ensures Consistent(decisions) <==> forall id :: !(Decided(decisions, id, true) && Decided(decisions, id, false))
  {
    if !Consistent(decisions) {
      var i, j :| 0 <= i < |decisions| && 0 <= j < |decisions| && decisions[i].actionId == decisions[j].actionId &&
                  decisions[i].approved && !decisions[j].approved;
      assert decisions[i] in decisions && decisions[j] in decisions;
      assert Decided(decisions, decisions[i].actionId, true) && Decided(decisions, decisions[i].actionId, false);
    }
  }

  lemma CoherentByIds(raw: Payload, valid: seq<string>)
    ensures Coherent(raw, valid) <==> forall id :: !(Says(raw, valid, id, true) && Says(raw, valid, id, false))
  {
    match raw
    case ForAll(_) =>
    case Items(items) =>
      if !Coherent(raw, valid) {
        var i, j :| i in items && j in items && i.actionId == j.actionId && i.actionId.Some? &&
                    i.actionId.value in valid && i.approved == Some(true) && j.approved != Some(true);
        assert Says(raw, valid, i.actionId.value, true) && Says(raw, valid, i.actionId.value, false);
      }
    case Lists(_, _) =>
      if !Coherent(raw, valid) {
        var id :| id in valid && id in raw.approvedIds && id in raw.rejectedIds;
        assert Says(raw, valid, id, true) && Says(raw, valid, id, false);
      }
    case Mapping(entries) =>
      if !Coherent(raw, valid) {
        var e, f :| e in entries && f in entries && e.0 == f.0 && e.0 in valid && e.1 && !f.1;
        assert (e.0, true) == e && (e.0, false) == f;
        assert Says(raw, valid, e.0, true) && Says(raw, valid, e.0, false);
      }
    case Unusable =>
  }

  /** A payload decides no id both ways exactly if it is coherent on the pending ids. */
  lemma ConsistentIff(raw: Payload, valid: seq<string>)
    ensures Consistent(ParseDecisions(raw, valid)) <==> Coherent(raw, valid)
  {
    ConsistentByIds(ParseDecisions(raw, valid));
    CoherentByIds(raw, valid);
    forall id, yes ensures Decided(ParseDecisions(raw, valid), id, yes) <==> Says(raw, valid, id, yes) {
      ParsesExactly(raw, valid, id, yes);
    }
  }

  /** A raw list handed to the node directly may still approve and reject one id: consistency comes
      from the request validator alone. */
  lemma RawListMayConflict(id: string)
    ensures var raw := Items([Item(Some(id), Some(true), None), Item(Some(id), Some(false), None)]);
            !Consistent(ParseDecisions(raw, [id]))
  {
    var items := [Item(Some(id), Some(true), None), Item(Some(id), Some(false), None)];
    assert items[1..] == [Item(Some(id), Some(false), None)];
    assert items[1..][1..] == [];
    var decisions := DecideItems(items, [id]);
    assert DecideItems(items[1..], [id]) == [Decision(id, false, "human")];
    assert decisions[0] == Decision(id, true, "human") && decisions[1] == Decision(id, false, "human");
  }

  // ----- what a committed decision goes back to -----

  function Chosen(decisions: seq<Decision>, yes: bool): seq<string> {
    if decisions == [] then []
    else
      var n := |decisions| - 1;
      Chosen(decisions[..n], yes) + if decisions[n].approved == yes then [decisions[n].actionId] else []
  }

  lemma {:induction false} ChosenMembers(decisions: seq<Decision>, yes: bool, id: string)
    ensures id in Chosen(decisions, yes) <==> Decided(decisions, id, yes)
  {
    if decisions != [] {
      var n := |decisions| - 1;
      ChosenMembers(decisions[..n], yes, id);
      assert forall d :: d in decisions <==> d in decisions[..n] || d == decisions[n];
    }
  }

  /** At `i` the thread was resumed with this payload. */
  ghost predicate ResumedAt(ctx: Context, trace: seq<System>, i: nat, raw: Payload) {
    && i < |trace| - 1 && Enabled(trace[i], Resume(raw)) && trace[i + 1] == Apply(ctx, trace[i], Resume(raw))
  }

  ghost function DecisionsAt(trace: seq<System>, i: nat, raw: Payload): seq<Decision>
    requires i < |trace|
  {
    ParseDecisions(raw, GatedIds(trace[i].cp.proposed))
  }

  /** The decisions being worked off are those of one payload, `k` of them done. */
  ghost predicate WorksOff(ctx: Context, trace: seq<System>, pc: Pc, i: nat, raw: Payload, k: nat)
    requires pc.Deciding?
  {
    && ResumedAt(ctx, trace, i, raw) && k <= |DecisionsAt(trace, i, raw)|
    && var decisions := DecisionsAt(trace, i, raw);
       && pc.todo == decisions[k..]
       && pc.approved == Chosen(decisions[..k], true) && pc.rejected == Chosen(decisions[..k], false)
  }

  /** The committed approvals and rejections are those of one payload. */
  ghost predicate CommittedFrom(ctx: Context, trace: seq<System>, cp: Checkpoint, i: nat, raw: Payload) {
    && ResumedAt(ctx, trace, i, raw)
    && cp.approved == Chosen(DecisionsAt(trace, i, raw), true) && cp.rejected == Chosen(DecisionsAt(trace, i, raw), false)
  }

  ghost predicate Undecided(cp: Checkpoint) {
    cp.approved == [] && cp.rejected == []
  }

  ghost predicate GoesBack(ctx: Context, trace: seq<System>, s: System) {
    && (s.pc.Deciding? ==> exists i, raw, k :: WorksOff(ctx, trace, s.pc, i, raw, k))
    && (Undecided(s.cp) || exists i, raw :: CommittedFrom(ctx, trace, s.cp, i, raw))
  }

  lemma LongerTrace(ctx: Context, trace: seq<System>, n: nat, s: System)
    requires n <= |trace| && GoesBack(ctx, trace[..n], s)
    ensures GoesBack(ctx, trace, s)
  {
    if s.pc.Deciding? {
      var i, raw, k :| WorksOff(ctx, trace[..n], s.pc, i, raw, k);
      assert WorksOff(ctx, trace, s.pc, i, raw, k);
    }
    if !Undecided(s.cp) {
      var i, raw :| CommittedFrom(ctx, trace[..n], s.cp, i, raw);
      assert CommittedFrom(ctx, trace, s.cp, i, raw);
    }
  }

  lemma StepGoesBack(ctx: Context, trace: seq<System>, step: Step)
    requires |trace| > 1
    requires var s := trace[|trace| - 2];
             Enabled(s, step) && trace[|trace| - 1] == Apply(ctx, s, step) && GoesBack(ctx, trace, s)
    ensures GoesBack(ctx, trace, trace[|trace| - 1])
  {
    DecisionShape(ctx, trace[|trace| - 2], step);
    WorkGoesBack(ctx, trace, step);
    if !step.EndApproval? {
      CommittedStays(ctx, trace, trace[|trace| - 2].cp, trace[|trace| - 1].cp);
    }
  }

  lemma CommittedStays(ctx: Context, trace: seq<System>, cp: Checkpoint, cp': Checkpoint)
    requires cp'.approved == cp.approved && cp'.rejected == cp.rejected
    requires Undecided(cp) || exists i, raw :: CommittedFrom(ctx, trace, cp, i, raw)
    ensures Undecided(cp') || exists i, raw :: CommittedFrom(ctx, trace, cp', i, raw)
  {
    if !Undecided(cp) {
      var i, raw :| CommittedFrom(ctx, trace, cp, i, raw);
      assert CommittedFrom(ctx, trace, cp', i, raw);
    }
  }

  lemma WorkGoesBack(ctx: Context, trace: seq<System>, step: Step)
    requires |trace| > 1
    requires var s := trace[|trace| - 2];
             Enabled(s, step) && trace[|trace| - 1] == Apply(ctx, s, step) && GoesBack(ctx, trace, s)
    ensures var s' := trace[|trace| - 1];
            && (s'.pc.Deciding? ==> exists i, raw, k :: WorksOff(ctx, trace, s'.pc, i, raw, k))
            && (step.EndApproval? ==> exists i, raw :: CommittedFrom(ctx, trace, s'.cp, i, raw))
  {
    var s := trace[|trace| - 2];
    DecisionShape(ctx, s, step);
    if s.pc.Deciding? {
      var i, raw, k :| WorksOff(ctx, trace, s.pc, i, raw, k);
      DecisionsStep(ctx, trace, step, i, raw, k);
    } else if step.Resume? {
      ResumeGoesBack(ctx, trace, step.raw);
    }
  }

  /** Only a resume starts the approval node, and only its end changes what is committed. */
  lemma DecisionShape(ctx: Context, s: System, step: Step)
    requires Enabled(s, step)
    ensures var s' := Apply(ctx, s, step);
            && (s'.pc.Deciding? ==> s.pc.Deciding? || step.Resume?)
            && (!step.EndApproval? ==> s'.cp.approved == s.cp.approved && s'.cp.rejected == s.cp.rejected)
            && (step.EndApproval? ==> s.pc.Deciding?)
  {
  }

  lemma ResumeGoesBack(ctx: Context, trace: seq<System>, raw: Payload)
    requires |trace| > 1 && ResumedAt(ctx, trace, |trace| - 2, raw)
    ensures WorksOff(ctx, trace, trace[|trace| - 1].pc, |trace| - 2, raw, 0)
  {
    var decisions := DecisionsAt(trace, |trace| - 2, raw);
    assert decisions[0..] == decisions && decisions[..0] == [];
  }

  lemma {:induction false} DecisionsGoBack(ctx: Context, trace: seq<System>)
    requires Run(ctx, trace)
    ensures GoesBack(ctx, trace, trace[|trace| - 1])
  {
    var n := |trace| - 1;
    if n > 0 {
      assert Run(ctx, trace[..n]);
      DecisionsGoBack(ctx, trace[..n]);
      LongerTrace(ctx, trace, n, trace[n - 1]);
      assert Next(ctx, trace[n - 1], trace[n]);
      var step :| Enabled(trace[n - 1], step) && trace[n] == Apply(ctx, trace[n - 1], step);
      StepGoesBack(ctx, trace, step);
    }
  }

  lemma DecisionsStep(ctx: Context, trace: seq<System>, step: Step, i: nat, raw: Payload, k: nat)
    requires |trace| > 1
    requires var s := trace[|trace| - 2];
             && s.pc.Deciding? && Enabled(s, step) && trace[|trace| - 1] == Apply(ctx, s, step)
             && WorksOff(ctx, trace, s.pc, i, raw, k)
    ensures var s, s' := trace[|trace| - 2], trace[|trace| - 1];
            && (s'.pc.Deciding? ==> exists k' :: WorksOff(ctx, trace, s'.pc, i, raw, k'))
            && (step.EndApproval? ==> CommittedFrom(ctx, trace, s'.cp, i, raw))
  {
    var s, s' := trace[|trace| - 2], trace[|trace| - 1];
    var decisions := DecisionsAt(trace, i, raw);
    if step.Decide? {
      assert decisions[k..][1..] == decisions[k + 1..] && decisions[..k + 1][..k] == decisions[..k];
      assert WorksOff(ctx, trace, s'.pc, i, raw, k + 1);
    } else if step.EndApproval? {
      assert k == |decisions| && decisions[..k] == decisions;
    } else if s'.pc.Deciding? {
      assert WorksOff(ctx, trace, s'.pc, i, raw, k);
    }
  }

  /** A gated action that ran was approved by the payload whose decisions were committed, and its id is
      among the committed rejections exactly if that payload rejected it as well. */
  lemma RunsDespiteRejectionIff(ctx: Context, trace: seq<System>, f: Effect) returns (i: nat, raw: Payload)
    requires Run(ctx, trace) && f in trace[|trace| - 1].effects && RequiresApproval(f.action.tier)
    ensures ResumedAt(ctx, trace, i, raw)
    ensures Says(raw, GatedIds(trace[i].cp.proposed), f.action.actionId, true)
    ensures f.action.actionId in trace[|trace| - 1].cp.rejected <==>
            Says(raw, GatedIds(trace[i].cp.proposed), f.action.actionId, false)
  {
    var s, id := trace[|trace| - 1], f.action.actionId;
    RunKeepsInv(ctx, trace);
    DecisionsGoBack(ctx, trace);
    assert id in s.cp.approved;
    i, raw :| CommittedFrom(ctx, trace, s.cp, i, raw);
    var decisions := DecisionsAt(trace, i, raw);
    ChosenMembers(decisions, true, id);
    ChosenMembers(decisions, false, id);
    ParsesExactly(raw, GatedIds(trace[i].cp.proposed), id, true);
    ParsesExactly(raw, GatedIds(trace[i].cp.proposed), id, false);
  }

  // ----- runs whose resumes all come through the validated request -----

  ghost predicate HttpStep(s: System, step: Step) {
    step.Resume? ==>
      exists body, caller :: ValidRequest(body) && step.raw == DecisionPayload(body, s.cp.proposed, caller)
  }

  ghost predicate HttpNext(ctx: Context, s: System, s': System) {
    exists step :: Enabled(s, step) && HttpStep(s, step) && s' == Apply(ctx, s, step)
  }

  ghost predicate HttpRun(ctx: Context, trace: seq<System>) {
    && |trace| > 0 && Init(trace[0])
    && forall i | 0 <= i < |trace| - 1 :: HttpNext(ctx, trace[i], trace[i + 1])
  }

  ghost predicate Disjoint(yes: seq<string>, no: seq<string>) {
    forall id | id in yes :: id !in no
  }

  ghost predicate OneWay(s: System) {
    && Disjoint(s.cp.approved, s.cp.rejected)
    && (s.pc.Deciding? ==>
          && Disjoint(s.pc.approved, s.pc.rejected) && Consistent(s.pc.todo)
          && (forall d | d in s.pc.todo :: if d.approved then d.actionId !in s.pc.rejected
                                           else d.actionId !in s.pc.approved))
  }

  lemma OneWayKept(ctx: Context, s: System, step: Step)
    requires OneWay(s) && Enabled(s, step) && HttpStep(s, step)
    ensures OneWay(Apply(ctx, s, step))
  {
    var s' := Apply(ctx, s, step);
    if step.Resume? {
      var body, caller :| ValidRequest(body) && step.raw == DecisionPayload(body, s.cp.proposed, caller);
      ValidRequestIsConsistent(body, s.cp.proposed, caller);
    } else if step.Decide? {
      var todo := s.pc.todo;
      assert todo[0] in todo;
      forall d | d in s'.pc.todo
        ensures if d.approved then d.actionId !in s'.pc.rejected else d.actionId !in s'.pc.approved
      {
        var i :| 0 <= i < |s'.pc.todo| && s'.pc.todo[i] == d;
        assert todo[i + 1] == d && todo[0].actionId == d.actionId ==> todo[0].approved == d.approved;
        assert d in todo;
      }
    }
  }

  lemma {:induction false} HttpRunIsRun(ctx: Context, trace: seq<System>)
    requires HttpRun(ctx, trace)
    ensures Run(ctx, trace) && OneWay(trace[|trace| - 1])
  {
    var n := |trace| - 1;
    forall i | 0 <= i < n ensures Next(ctx, trace[i], trace[i + 1]) {
      assert HttpNext(ctx, trace[i], trace[i + 1]);
    }
    if n > 0 {
      assert HttpRun(ctx, trace[..n]);
      HttpRunIsRun(ctx, trace[..n]);
      assert HttpNext(ctx, trace[n - 1], trace[n]);
      var step :| Enabled(trace[n - 1], step) && HttpStep(trace[n - 1], step) &&
                  trace[n] == Apply(ctx, trace[n - 1], step);
      OneWayKept(ctx, trace[n - 1], step);
    }
  }

  /** Over every run driven through the HTTP interface, a gated action runs only if its id is among
      the committed approvals and not among the committed rejections. */
  lemma RejectedNeverRuns(ctx: Context, trace: seq<System>, f: Effect)
    requires HttpRun(ctx, trace)
    requires f in trace[|trace| - 1].effects && RequiresApproval(f.action.tier)
    ensures f.action.actionId in trace[|trace| - 1].cp.approved
    ensures f.action.actionId !in trace[|trace| - 1].cp.rejected
  {
    HttpRunIsRun(ctx, trace);
    RunKeepsInv(ctx, trace);
  }
}
