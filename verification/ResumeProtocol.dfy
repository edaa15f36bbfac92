/** The resume protocol as a whole: the lock table, the gate, and the graph runs it admits, over any
    interleaving of chats and resumes (synchronous or streamed) in one process. */
module ResumeProtocol {
  import opened Collections
  import opened Rbac
  import opened ResumeLock

  /** A thread's checkpoint, as far as resuming is concerned. */
  datatype Stage = Planning | AwaitingApproval | Executing | Ended

  /** `owner` is the principal in the checkpoint, if there is one; `gated` lists the ids of the actions
      that need approval; `chatting` says the run that created the thread is still going; `resumes` counts
      the runs that took it out of awaiting approval. */
  datatype Thread = Thread(owner: Option<Principal>, stage: Stage, gated: seq<string>, chatting: bool, resumes: nat)

  /** Where a resume request is. It is named by the call that acquires its lease. */
  datatype Request =
    | Entered(threadId: ThreadId)                               // acquiring, or holding before the gate
    | Admitted(threadId: ThreadId)                              // passed the gate
    | Working(threadId: ThreadId, at: nat)                   // approvals committed
    | Recording(threadId: ThreadId, at: nat, ok: bool)          // side effect done, entry due
    | Leaving(threadId: ThreadId)                               // run over, or rejected: may release

  /** What becomes of an action that reaches the executor and is not yet in the ledger. */
  datatype Outcome = Skipped | Succeeded | Failed

  /** A successful side effect, and who resumed the thread that had it. */
  datatype Effect = Effect(threadId: ThreadId, actionId: string, caller: Principal)

  /** `callers` says who makes each request; `ledger` holds the ids with a successful EXECUTED entry,
      `effects` the successful side effects. */
  datatype Service = Service(locks: Locks, threads: map<ThreadId, Thread>, requests: map<CallId, Request>,
                             callers: map<CallId, Principal>, ledger: set<string>, effects: seq<Effect>)

  ghost predicate Init(s: Service) {
    && ResumeLock.Init(s.locks) && s.threads == map[] && s.requests == map[] && s.callers == map[]
    && s.ledger == {} && s.effects == []
  }

  /** The creator-only rule: both are identified, and user and organisation are the same. */
  predicate MayResume(owner: Option<Principal>, caller: Principal) {
    && caller != ANONYMOUS && owner != Some(ANONYMOUS) && owner.Some?
    && owner.value.userId == caller.userId && owner.value.orgId == caller.orgId
  }

  predicate Held(s: Service, r: CallId) {
    r in s.locks.leases && !s.locks.leases[r].released
  }

  predicate Fresh(s: Service, ids: seq<string>) {
    forall t | t in s.threads :: forall id | id in ids :: id !in s.threads[t].gated
  }

  datatype Move =
    | Lock(step: ResumeLock.Step)
    | ChatStarts(t: ThreadId, owner: Option<Principal>)
    | ChatPauses(t: ThreadId, ids: seq<string>)
    | ChatEnds(t: ThreadId)
    | ChatReturns(t: ThreadId)
    | Gate(r: CallId)
    | Commit(r: CallId)
    | Run(r: CallId, outcome: Outcome)
    | WriteEntry(r: CallId)
    | Finish(r: CallId)
    | Fail(r: CallId)

  /** A lock step; anybody may enter. From the gate on a lease may be released at any time, by any of its cleanups and any
      number of times: before the run commits, while it works, or after it. */
  ghost predicate LockMove(s: Service, s': Service, step: ResumeLock.Step) {
    && NextStep(s.locks, s'.locks, step)
    && (step.Release? ==> step.lease in s.requests && !s.requests[step.lease].Entered?)
    && (if step.Enter? then step.call in s'.callers && s'.callers == s.callers[step.call := s'.callers[step.call]]
        else s'.callers == s.callers)
    && s' == s.(locks := s'.locks, callers := s'.callers,
                requests := if step.Enter? then s.requests[step.call := Entered(step.threadId)] else s.requests)
  }

  /** /chat on a fresh thread: it plans, then commits a pause for approval with new ids, or its end. The
      chat's run returns later, in a step of its own; the gate does not wait for it. */
  ghost predicate ChatMove(s: Service, s': Service, m: Move) {
    match m
    case ChatStarts(t, owner) =>
      t !in s.threads && s' == s.(threads := s.threads[t := Thread(owner, Planning, [], true, 0)])
    case ChatPauses(t, ids) =>
      && t in s.threads && s.threads[t].chatting && s.threads[t].stage == Planning && Fresh(s, ids)
      && s' == s.(threads := s.threads[t := s.threads[t].(stage := AwaitingApproval, gated := ids)])
    case ChatEnds(t) =>
      && t in s.threads && s.threads[t].chatting && s.threads[t].stage == Planning
      && s' == s.(threads := s.threads[t := s.threads[t].(stage := Ended)])
    case ChatReturns(t) =>
      && t in s.threads && s.threads[t].chatting && s.threads[t].stage != Planning
      && s' == s.(threads := s.threads[t := s.threads[t].(chatting := false)])
    case _ => false
  }

  /** The pre-checks under the lease: unknown thread, wrong owner and wrong stage all send the caller
      away with nothing changed. */
  ghost predicate Gates(s: Service, s': Service, r: CallId) {
    && r in s.requests && s.requests[r].Entered? && Held(s, r) && r in s.callers
    && var t := s.requests[r].threadId;
       s' == s.(requests := s.requests[r :=
                  if t in s.threads && MayResume(s.threads[t].owner, s.callers[r]) && s.threads[t].stage == AwaitingApproval
                  then Admitted(t) else Leaving(t)])
  }

  /** The approval node returns: the checkpoint moves on to the executor. */
  ghost predicate Commits(s: Service, s': Service, r: CallId) {
    && r in s.requests && s.requests[r].Admitted? && s.requests[r].threadId in s.threads
    && var t := s.requests[r].threadId;
       s' == s.(threads := s.threads[t := s.threads[t].(stage := Executing, resumes := s.threads[t].resumes + 1)],
                requests := s.requests[r := Working(t, 0)])
  }

  /** One gated action at the executor: denied or unapproved actions are passed over, recorded ones are
      replayed, the rest run. */
  ghost predicate Runs(s: Service, s': Service, r: CallId, outcome: Outcome) {
    && r in s.requests && s.requests[r].Working? && s.requests[r].threadId in s.threads && r in s.callers
    && var t, at := s.requests[r].threadId, s.requests[r].at;
       && at < |s.threads[t].gated|
       && var id := s.threads[t].gated[at];
          s' == if outcome.Skipped? || id in s.ledger then s.(requests := s.requests[r := Working(t, at + 1)])
                else s.(requests := s.requests[r := Recording(t, at, outcome.Succeeded?)],
                        effects := if outcome.Succeeded? then s.effects + [Effect(t, id, s.callers[r])]
                                   else s.effects)
  }

  ghost predicate WritesEntry(s: Service, s': Service, r: CallId) {
    && r in s.requests && s.requests[r].Recording? && s.requests[r].threadId in s.threads
    && var t, at := s.requests[r].threadId, s.requests[r].at;
       && at < |s.threads[t].gated|
       && s' == s.(requests := s.requests[r := Working(t, at + 1)],
                   ledger := if s.requests[r].ok then s.ledger + {s.threads[t].gated[at]} else s.ledger)
  }

  ghost predicate Finishes(s: Service, s': Service, r: CallId) {
    && r in s.requests && s.requests[r].Working? && s.requests[r].threadId in s.threads
    && var t := s.requests[r].threadId;
       && s.requests[r].at >= |s.threads[t].gated|
       && s' == s.(threads := s.threads[t := s.threads[t].(stage := Ended)], requests := s.requests[r := Leaving(t)])
  }

  /** A run may raise anywhere; the checkpoint stays at its last committed node. */
  ghost predicate Fails(s: Service, s': Service, r: CallId) {
    && r in s.requests && Active(s.requests[r])
    && s' == s.(requests := s.requests[r := Leaving(s.requests[r].threadId)])
  }

  ghost predicate Next(s: Service, s': Service) {
    exists m :: NextMove(s, s', m)
  }

  ghost predicate NextMove(s: Service, s': Service, m: Move) {
    match m
    case Lock(step) => LockMove(s, s', step)
    case Gate(r) => Gates(s, s', r)
    case Commit(r) => Commits(s, s', r)
    case Run(r, outcome) => Runs(s, s', r, outcome)
    case WriteEntry(r) => WritesEntry(s, s', r)
    case Finish(r) => Finishes(s, s', r)
    case Fail(r) => Fails(s, s', r)
    case _ => ChatMove(s, s', m)
  }

  ghost predicate History(trace: seq<Service>) {
    |trace| > 0 && Init(trace[0]) && forall i | 0 <= i < |trace| - 1 :: Next(trace[i], trace[i + 1])
  }

  /** The release of a lease whose run has passed the gate and not yet taken the thread on. */
  predicate ReleasesEarly(s: Service, m: Move) {
    m.Lock? && m.step.Release? && m.step.lease in s.requests && s.requests[m.step.lease].Admitted?
  }

  ghost predicate OrderlyNext(s: Service, s': Service) {
    exists m :: NextMove(s, s', m) && !ReleasesEarly(s, m)
  }

  /** A history without such a release. */
  ghost predicate Orderly(trace: seq<Service>) {
    |trace| > 0 && Init(trace[0]) && forall i | 0 <= i < |trace| - 1 :: OrderlyNext(trace[i], trace[i + 1])
  }

  predicate Active(r: Request) {
    r.Admitted? || r.Working? || r.Recording?
  }

  predicate Advanced(r: Request) {
    r.Working? || r.Recording?
  }

  // ----- invariants -----

  /** Leases and waiting calls belong to requests, and none is released before the gate. */
  ghost predicate LeasesKnown(s: Service) {
    && (forall r | r in s.requests :: r in s.locks.calls)
    && (forall c | c in s.locks.calls && s.locks.calls[c].Waiting? ::
          c in s.requests && s.requests[c].threadId == s.locks.calls[c].threadId)
    && (forall l | l in s.locks.leases ::
          l in s.requests && s.requests[l].threadId == s.locks.leases[l].threadId)
    && (forall r | r in s.requests && Active(s.requests[r]) :: r in s.locks.leases)
    && (forall l | l in s.locks.leases && l in s.requests && s.requests[l].Entered? :: Held(s, l))
  }

  /** The request passed the gate, and its lease is gone before it has taken the thread on. */
  predicate Exposed(s: Service, r: CallId) {
    r in s.requests && s.requests[r].Admitted? && r in s.locks.leases && s.locks.leases[r].released
  }

  ghost predicate NoneExposed(s: Service) {
    forall r | r in s.requests :: !Exposed(s, r)
  }

  ghost predicate OneRunPerThread(s: Service) {
    forall r, q | r in s.requests && q in s.requests && Active(s.requests[r]) && Active(s.requests[q]) &&
                  s.requests[q].threadId == s.requests[r].threadId :: q == r
  }

  /** No two runs overlap on a thread in any of the states. */
  ghost predicate Calm(trace: seq<Service>) {
    forall i | 0 <= i < |trace| :: OneRunPerThread(trace[i])
  }

  /** What an active request knows of its thread. */
  ghost predicate StagesMatch(s: Service) {
    && (forall r | r in s.requests && s.requests[r].Admitted? ::
          s.requests[r].threadId in s.threads && s.threads[s.requests[r].threadId].stage == AwaitingApproval)
    && (forall r | r in s.requests && Advanced(s.requests[r]) ::
          s.requests[r].threadId in s.threads && s.threads[s.requests[r].threadId].stage == Executing)
  }

  ghost predicate ThreadsSound(s: Service) {
    forall t | t in s.threads ::
      && (s.threads[t].stage == Planning ==> s.threads[t].chatting)
      && (s.threads[t].stage == AwaitingApproval ==> s.threads[t].resumes == 0)
      && (s.threads[t].stage == Planning ==> s.threads[t].gated == [] && s.threads[t].resumes == 0)
      && s.threads[t].resumes <= 1
  }

  ghost predicate IdsDisjoint(s: Service) {
    forall t, u | t in s.threads && u in s.threads && t != u ::
      forall id | id in s.threads[t].gated :: id !in s.threads[u].gated
  }

  predicate Started(stage: Stage) {
    stage == Executing || stage == Ended
  }

  /** Side effects belong to gated actions of threads that left the approval gate. */
  ghost predicate EffectsOwned(s: Service) {
    forall i | 0 <= i < |s.effects| ::
      && s.effects[i].threadId in s.threads && Started(s.threads[s.effects[i].threadId].stage)
      && s.effects[i].actionId in s.threads[s.effects[i].threadId].gated
  }

  /** The id whose entry the request still owes the ledger. */
  predicate Owes(s: Service, r: CallId, id: string)
    requires r in s.requests
  {
    && s.requests[r].Recording? && s.requests[r].ok && s.requests[r].threadId in s.threads
    && s.requests[r].at < |s.threads[s.requests[r].threadId].gated|
    && s.threads[s.requests[r].threadId].gated[s.requests[r].at] == id
  }

  /** While a thread is being run, its effects are in the ledger, but for the one being recorded. */
  ghost predicate EffectsRecorded(s: Service) {
    forall r, i | r in s.requests && Advanced(s.requests[r]) && 0 <= i < |s.effects| &&
                  s.effects[i].threadId == s.requests[r].threadId ::
      s.effects[i].actionId in s.ledger || Owes(s, r, s.effects[i].actionId)
  }

  ghost predicate EffectsOnce(s: Service) {
    forall i, j | 0 <= i < j < |s.effects| :: s.effects[i].actionId != s.effects[j].actionId
  }

  predicate Happened(s: Service, id: string) {
    exists e | e in s.effects :: e.actionId == id
  }

  /** Every recorded or owed success had its side effect. */
  ghost predicate LedgerEarned(s: Service) {
    && (forall id | id in s.ledger :: Happened(s, id))
    && (forall r, id | r in s.requests && Owes(s, r, id) :: Happened(s, id))
  }

  /** What holds of every history, orderly or not. */
  ghost predicate LocksInv(s: Service) {
    ResumeLock.Inv(s.locks) && LeasesKnown(s)
  }

  ghost predicate Inv(s: Service) {
    && LocksInv(s) && StagesMatch(s) && ThreadsSound(s)
    && IdsDisjoint(s) && EffectsOwned(s) && EffectsRecorded(s) && EffectsOnce(s) && LedgerEarned(s)
  }

  // ----- each move keeps the invariant -----

  /** Only a release issued for a lease sets its flag, and only an enter makes a call wait. */
  lemma LockStepShape(s: Locks, s': Locks, step: ResumeLock.Step)
    requires WellFormed(s) && NextStep(s, s', step)
    ensures forall l | l in s.leases && l in s'.leases && !s.leases[l].released && s'.leases[l].released ::
              step.Release? && step.lease == l
    ensures forall c | c in s'.calls && s'.calls[c].Waiting? ::
              (c in s.calls && s.calls[c] == s'.calls[c]) ||
              (step.Enter? && step.call == c && s'.calls[c].threadId == step.threadId)
    ensures step.Acquire? ==> step.call in s.calls && s.calls[step.call].Waiting? && step.call in s'.leases &&
                              s'.leases[step.call].threadId == s.calls[step.call].threadId
    ensures step.Enter? ==> step.call !in s.calls
  {
  }

  lemma LockKeepsCalls(s: Service, s': Service, step: ResumeLock.Step)
    requires WellFormed(s.locks) && LeasesKnown(s) && LockMove(s, s', step)
    ensures forall r | r in s'.requests :: r in s'.locks.calls
    ensures forall r | r in s.requests :: r in s'.requests && s'.requests[r] == s.requests[r]
    ensures forall r | r in s'.requests && r !in s.requests :: s'.requests[r].Entered? && r !in s.locks.leases
    ensures forall c | c in s'.locks.calls && s'.locks.calls[c].Waiting? ::
              c in s'.requests && s'.requests[c].threadId == s'.locks.calls[c].threadId
  {
    StepShape(s.locks, s'.locks, step);
    LockStepShape(s.locks, s'.locks, step);
  }

  lemma LockKeepsHeld(s: Service, s': Service, step: ResumeLock.Step, r: CallId)
    requires WellFormed(s.locks) && LockMove(s, s', step)
    requires r in s.requests && s.requests[r].Entered? && Held(s, r)
    ensures Held(s', r)
  {
    LeaseShape(s.locks, s'.locks, step);
    LockStepShape(s.locks, s'.locks, step);
  }

  lemma NewLeaseIsHeld(s: Service, s': Service, step: ResumeLock.Step, l: CallId)
    requires WellFormed(s.locks) && LockMove(s, s', step) && l in s'.locks.leases && l !in s.locks.leases
    ensures Held(s', l)
  {
    LeaseShape(s.locks, s'.locks, step);
  }

  lemma LockKeepsLeases(s: Service, s': Service, step: ResumeLock.Step)
    requires WellFormed(s.locks) && LeasesKnown(s) && LockMove(s, s', step)
    ensures LeasesKnown(s')
  {
    LockKeepsCalls(s, s', step);
    forall l | l in s'.locks.leases
      ensures l in s'.requests && s'.requests[l].threadId == s'.locks.leases[l].threadId
    {
      LockKeepsOwner(s, s', step, l);
    }
    LeaseShape(s.locks, s'.locks, step);
    forall l | l in s'.locks.leases && l in s'.requests && s'.requests[l].Entered? ensures Held(s', l) {
      LockKeepsOwner(s, s', step, l);
      if l in s.locks.leases {
        LockKeepsHeld(s, s', step, l);
      } else {
        NewLeaseIsHeld(s, s', step, l);
      }
    }
  }

  lemma LockKeepsOwner(s: Service, s': Service, step: ResumeLock.Step, l: CallId)
    requires WellFormed(s.locks) && LeasesKnown(s) && LockMove(s, s', step) && l in s'.locks.leases
    ensures l in s.requests && s.requests[l].threadId == s'.locks.leases[l].threadId
    ensures l in s'.requests && s'.requests[l] == s.requests[l]
  {
    LockKeepsCalls(s, s', step);
    LeaseShape(s.locks, s'.locks, step);
    LockStepShape(s.locks, s'.locks, step);
  }

  /** Outside the lock table a move advances at most one request, which runs only under its lease. */
  lemma RequestShape(s: Service, s': Service, m: Move)
    requires NextMove(s, s', m) && !m.Lock?
    ensures s'.locks == s.locks && s'.requests.Keys == s.requests.Keys
    ensures forall r | r in s.requests && s'.requests[r] != s.requests[r] ::
              && s'.requests[r].threadId == s.requests[r].threadId && !s'.requests[r].Entered?
              && (Active(s'.requests[r]) ==> Active(s.requests[r]) || Held(s, r))
              && (s'.requests[r].Admitted? ==> Held(s, r))
              && (Advanced(s'.requests[r]) ==> Active(s.requests[r]))
  {
  }

  lemma MoveKeepsLeases(s: Service, s': Service, m: Move)
    requires WellFormed(s.locks) && LeasesKnown(s) && NextMove(s, s', m)
    ensures LeasesKnown(s')
  {
    if m.Lock? {
      LockKeepsLeases(s, s', m.step);
    } else {
      RequestShape(s, s', m);
      forall r | Held(s, r) ensures Held(s', r) {}
    }
  }

  lemma MoveKeepsStages(s: Service, s': Service, m: Move)
    requires OneRunPerThread(s) && StagesMatch(s) && ThreadsSound(s) && NextMove(s, s', m)
    ensures StagesMatch(s')
  {
  }

  lemma MoveKeepsThreads(s: Service, s': Service, m: Move)
    requires StagesMatch(s) && ThreadsSound(s) && NextMove(s, s', m)
    ensures ThreadsSound(s')
  {
  }

  /** Only a pausing chat gives a thread new ids, and they are new to every thread. */
  lemma GatedMoves(s: Service, s': Service, m: Move)
    requires NextMove(s, s', m)
    ensures forall t | t in s'.threads && !(m.ChatPauses? && m.t == t) ::
              s'.threads[t].gated == if t in s.threads then s.threads[t].gated else []
    ensures m.ChatPauses? ==> m.t in s'.threads && s'.threads[m.t].gated == m.ids && Fresh(s, m.ids)
  {
  }

  lemma MoveKeepsDisjoint(s: Service, s': Service, m: Move)
    requires IdsDisjoint(s) && NextMove(s, s', m)
    ensures IdsDisjoint(s')
  {
    GatedMoves(s, s', m);
  }

  lemma MoveKeepsOwned(s: Service, s': Service, m: Move)
    requires StagesMatch(s) && ThreadsSound(s) && EffectsOwned(s) && NextMove(s, s', m)
    ensures EffectsOwned(s')
  {
  }

  lemma MoveKeepsRecorded(s: Service, s': Service, m: Move)
    requires OneRunPerThread(s) && StagesMatch(s) && ThreadsSound(s)
    requires EffectsOwned(s) && EffectsRecorded(s) && NextMove(s, s', m)
    ensures EffectsRecorded(s')
  {
    forall r, i | r in s'.requests && Advanced(s'.requests[r]) && 0 <= i < |s'.effects| &&
                  s'.effects[i].threadId == s'.requests[r].threadId
      ensures s'.effects[i].actionId in s'.ledger || Owes(s', r, s'.effects[i].actionId)
    {
      if !m.Lock? {
        RequestShape(s, s', m);
      }
      MoveExtendsEffects(s, s', m);
      if s.requests[r] == s'.requests[r] {
        BystanderStaysRecorded(s, s', m, r, i);
      } else {
        RunnerStaysRecorded(s, s', m, r, i);
      }
    }
  }

  lemma RunnerStaysRecorded(s: Service, s': Service, m: Move, r: CallId, i: nat)
    requires StagesMatch(s) && ThreadsSound(s) && EffectsOwned(s) && EffectsRecorded(s) && NextMove(s, s', m)
    requires r in s.requests && r in s'.requests && Advanced(s'.requests[r]) && s'.requests[r] != s.requests[r]
    requires i < |s'.effects| && s'.effects[i].threadId == s'.requests[r].threadId
    ensures s'.effects[i].actionId in s'.ledger || Owes(s', r, s'.effects[i].actionId)
  {
  }

  lemma BystanderStaysRecorded(s: Service, s': Service, m: Move, r: CallId, i: nat)
    requires OneRunPerThread(s) && StagesMatch(s) && ThreadsSound(s) && EffectsRecorded(s) && NextMove(s, s', m)
    requires r in s.requests && r in s'.requests && Advanced(s'.requests[r]) && s'.requests[r] == s.requests[r]
    requires i < |s'.effects| && s'.effects[i].threadId == s'.requests[r].threadId
    ensures s'.effects[i].actionId in s'.ledger || Owes(s', r, s'.effects[i].actionId)
  {
  }

  /** A new side effect is not a repetition: its thread's effects are all in the ledger, and no other
      thread shares the id. */
  lemma MoveKeepsOnce(s: Service, s': Service, m: Move)
    requires IdsDisjoint(s) && EffectsOwned(s) && EffectsRecorded(s) && EffectsOnce(s) && NextMove(s, s', m)
    ensures EffectsOnce(s')
  {
    match m
    case Lock(_) =>
    case Gate(_) =>
    case Commit(_) =>
    case Run(r, _) =>
      forall i | 0 <= i < |s.effects|
        ensures s.effects[i].actionId != s.threads[s.requests[r].threadId].gated[s.requests[r].at] ||
                s.effects[i].actionId in s.ledger {}
    case WriteEntry(_) =>
    case Finish(_) =>
    case Fail(_) =>
    case ChatStarts(_, _) =>
    case ChatPauses(_, _) =>
    case ChatEnds(_) =>
    case ChatReturns(_) =>
  }

  lemma HappenedStays(s: Service, s': Service, id: string)
    requires s.effects <= s'.effects && Happened(s, id)
    ensures Happened(s', id)
  {
    var e :| e in s.effects && e.actionId == id;
    assert e in s'.effects;
  }

  lemma MoveExtendsEffects(s: Service, s': Service, m: Move)
    requires NextMove(s, s', m)
    ensures s.effects <= s'.effects
  {
  }

  lemma MoveKeepsEarned(s: Service, s': Service, m: Move)
    requires StagesMatch(s) && ThreadsSound(s) && LedgerEarned(s) && NextMove(s, s', m)
    ensures LedgerEarned(s')
  {
    MoveExtendsEffects(s, s', m);
    forall id | Happened(s, id) ensures Happened(s', id) {
      HappenedStays(s, s', id);
    }
    forall r, id | r in s'.requests && Owes(s', r, id) ensures Happened(s', id) {
      OwedIsEarned(s, s', m, r, id);
    }
    match m
    case Lock(_) =>
    case Gate(_) =>
    case Commit(_) =>
    case Run(_, _) =>
    case WriteEntry(r) =>
      if s.requests[r].ok {
        assert Owes(s, r, s.threads[s.requests[r].threadId].gated[s.requests[r].at]);
      }
    case Finish(_) =>
    case Fail(_) =>
    case ChatStarts(_, _) =>
    case ChatPauses(_, _) =>
    case ChatEnds(_) =>
    case ChatReturns(_) =>
  }

  lemma OwedIsEarned(s: Service, s': Service, m: Move, r: CallId, id: string)
    requires StagesMatch(s) && ThreadsSound(s) && LedgerEarned(s) && NextMove(s, s', m)
    requires r in s'.requests && Owes(s', r, id)
    ensures Happened(s', id)
  {
    MoveExtendsEffects(s, s', m);
    if r in s.requests && Owes(s, r, id) {
      HappenedStays(s, s', id);
    } else {
      assert m.Run? && m.r == r;
      assert s'.effects[|s'.effects| - 1].actionId == id;
    }
  }

  lemma MoveKeepsInv(s: Service, s': Service, m: Move)
    requires Inv(s) && OneRunPerThread(s) && NextMove(s, s', m)
    ensures Inv(s')
  {
    MoveKeepsLocks(s, s', m);
    MoveKeepsStages(s, s', m);
    MoveKeepsThreads(s, s', m);
    MoveKeepsDisjoint(s, s', m);
    MoveKeepsOwned(s, s', m);
    MoveKeepsRecorded(s, s', m);
    MoveKeepsOnce(s, s', m);
    MoveKeepsEarned(s, s', m);
  }

  lemma MoveKeepsLocks(s: Service, s': Service, m: Move)
    requires LocksInv(s) && NextMove(s, s', m)
    ensures LocksInv(s')
  {
    if m.Lock? {
      assert ResumeLock.Next(s.locks, s'.locks);
      StepKeepsInv(s.locks, s'.locks);
    }
    MoveKeepsLeases(s, s', m);
  }

  /** Whatever was released when, the lock table is sound and leases belong to requests. */
  lemma {:induction false} HistoryKeepsLocks(trace: seq<Service>)
    requires History(trace)
    ensures LocksInv(trace[|trace| - 1])
  {
    var n := |trace| - 1;
    if n > 0 {
      assert History(trace[..n]);
      HistoryKeepsLocks(trace[..n]);
      assert Next(trace[n - 1], trace[n]);
      var m :| NextMove(trace[n - 1], trace[n], m);
      MoveKeepsLocks(trace[n - 1], trace[n], m);
    }
  }

  /** As long as no runs have overlapped, gate, checkpoints, ledger and side effects are in step. */
  lemma {:induction false} HistoryKeepsInv(trace: seq<Service>)
    requires History(trace) && Calm(trace[..|trace| - 1])
    ensures Inv(trace[|trace| - 1])
  {
    var n := |trace| - 1;
    if n > 0 {
      var before := trace[..n];
      assert History(before);
      assert Calm(before[..n - 1]) by {
        assert forall i | 0 <= i < n - 1 :: before[..n - 1][i] == before[i];
      }
      HistoryKeepsInv(before);
      assert before[n - 1] == trace[n - 1];
      assert Next(trace[n - 1], trace[n]);
      var m :| NextMove(trace[n - 1], trace[n], m);
      MoveKeepsInv(trace[n - 1], trace[n], m);
    }
  }

  /** Only an early release exposes a run. */
  lemma ExposedByEarlyRelease(s: Service, s': Service, m: Move, r: CallId)
    requires LocksInv(s) && NextMove(s, s', m) && !ReleasesEarly(s, m)
    requires Exposed(s', r)
    ensures Exposed(s, r)
  {
    if m.Lock? {
      LockExposesNothing(s, s', m.step, r);
    } else {
      RunExposesNothing(s, s', m, r);
    }
  }

  lemma RunExposesNothing(s: Service, s': Service, m: Move, r: CallId)
    requires NextMove(s, s', m) && !m.Lock? && Exposed(s', r)
    ensures Exposed(s, r)
  {
    RequestShape(s, s', m);
  }

  lemma LockExposesNothing(s: Service, s': Service, step: ResumeLock.Step, r: CallId)
    requires LocksInv(s) && LockMove(s, s', step) && !ReleasesEarly(s, Move.Lock(step)) && Exposed(s', r)
    ensures Exposed(s, r)
  {
    LockKeepsCalls(s, s', step);
    LockKeepsOwner(s, s', step, r);
    if r in s.locks.leases {
      LockStepShape(s.locks, s'.locks, step);
    } else {
      NewLeaseIsHeld(s, s', step, r);
    }
  }

  lemma AdvancedWasActive(s: Service, s': Service, m: Move, r: CallId)
    requires LocksInv(s) && NextMove(s, s', m) && r in s'.requests && Advanced(s'.requests[r])
    ensures r in s.requests && Active(s.requests[r]) && s.requests[r].threadId == s'.requests[r].threadId
  {
    if m.Lock? {
      LockKeepsCalls(s, s', m.step);
    } else {
      RequestShape(s, s', m);
    }
  }

  /** Two runs admitted under open leases are one; an admitted and an advanced one see different stages;
      and only one of the runs before the move can have advanced. */
  lemma NoNewOverlap(s: Service, s': Service, m: Move, r: CallId, q: CallId)
    requires Inv(s) && OneRunPerThread(s) && NextMove(s, s', m) && LocksInv(s') && StagesMatch(s')
    requires r in s'.requests && q in s'.requests && Active(s'.requests[r]) && Active(s'.requests[q])
    requires s'.requests[r].threadId == s'.requests[q].threadId
    requires !Exposed(s', r) && !Exposed(s', q)
    ensures r == q
  {
    if s'.requests[r].Admitted? && s'.requests[q].Admitted? {
      OpenLeasesAreUnique(s'.locks, r, q);
    } else if Advanced(s'.requests[r]) && Advanced(s'.requests[q]) {
      AdvancedWasActive(s, s', m, r);
      AdvancedWasActive(s, s', m, q);
    }
  }

  lemma OrderlyPrefix(trace: seq<Service>, n: nat)
    requires Orderly(trace) && 0 < n <= |trace|
    ensures Orderly(trace[..n])
  {
  }

  lemma OrderlyIsHistory(trace: seq<Service>)
    requires Orderly(trace)
    ensures History(trace)
  {
    forall i | 0 <= i < |trace| - 1 ensures Next(trace[i], trace[i + 1]) {
      assert OrderlyNext(trace[i], trace[i + 1]);
    }
  }

  lemma OrderlyStep(s: Service, s': Service, m: Move)
    requires Inv(s) && OneRunPerThread(s) && NoneExposed(s) && NextMove(s, s', m) && !ReleasesEarly(s, m)
    ensures Inv(s') && OneRunPerThread(s') && NoneExposed(s')
  {
    MoveKeepsInv(s, s', m);
    forall r | r in s'.requests ensures !Exposed(s', r) {
      if Exposed(s', r) {
        ExposedByEarlyRelease(s, s', m, r);
      }
    }
    forall r, q | r in s'.requests && q in s'.requests && Active(s'.requests[r]) && Active(s'.requests[q]) &&
                  s'.requests[q].threadId == s'.requests[r].threadId
      ensures q == r
    {
      NoNewOverlap(s, s', m, r, q);
    }
  }

  /** Without early releases no run is ever exposed and no two runs overlap. */
  lemma {:induction false} OrderlyKeepsInv(trace: seq<Service>)
    requires Orderly(trace)
    ensures var s := trace[|trace| - 1]; Inv(s) && OneRunPerThread(s) && NoneExposed(s)
  {
    var n := |trace| - 1;
    if n > 0 {
      OrderlyPrefix(trace, n);
      OrderlyKeepsInv(trace[..n]);
      assert OrderlyNext(trace[n - 1], trace[n]);
      var m :| NextMove(trace[n - 1], trace[n], m) && !ReleasesEarly(trace[n - 1], m);
      OrderlyStep(trace[n - 1], trace[n], m);
    }
  }

  lemma OrderlyIsCalm(trace: seq<Service>)
    requires Orderly(trace)
    ensures Calm(trace)
  {
    forall k | 0 <= k < |trace| ensures OneRunPerThread(trace[k]) {
      OrderlyPrefix(trace, k + 1);
      OrderlyKeepsInv(trace[..k + 1]);
    }
  }

  // ----- only the owner resumes a thread -----

  /** Every request has a caller, and whoever runs a thread, or had one of its side effects, may resume it. */
  ghost predicate OwnersMatch(s: Service) {
    && (forall r | r in s.requests :: r in s.callers)
    && (forall r | r in s.requests && Active(s.requests[r]) && r in s.callers ::
          s.requests[r].threadId in s.threads && MayResume(s.threads[s.requests[r].threadId].owner, s.callers[r]))
    && (forall i | 0 <= i < |s.effects| ::
          s.effects[i].threadId in s.threads && MayResume(s.threads[s.effects[i].threadId].owner, s.effects[i].caller))
  }

  /** No move changes who owns a thread or who made a request. */
  lemma OwnersStay(s: Service, s': Service, m: Move)
    requires NextMove(s, s', m)
    ensures forall t | t in s.threads :: t in s'.threads && s'.threads[t].owner == s.threads[t].owner
    ensures !m.Lock? ==> s'.callers == s.callers
  {
  }

  lemma EnteringIsNew(s: Service, s': Service, step: ResumeLock.Step)
    requires LocksInv(s) && LockMove(s, s', step)
    ensures step.Enter? ==> step.call !in s.requests
    ensures forall r | r in s'.requests :: r in s.requests || (s'.requests[r].Entered? && r in s'.callers)
    ensures forall r | r in s.requests :: s'.requests[r] == s.requests[r]
    ensures s'.effects == s.effects && s'.threads == s.threads
  {
    LockKeepsCalls(s, s', step);
  }

  lemma LockKeepsOwners(s: Service, s': Service, step: ResumeLock.Step)
    requires LocksInv(s) && OwnersMatch(s) && LockMove(s, s', step)
    ensures OwnersMatch(s')
  {
    EnteringIsNew(s, s', step);
  }

  /** Only the gate makes a request active, and it asks for the owner. */
  lemma RunKeepsOwners(s: Service, s': Service, m: Move)
    requires OwnersMatch(s) && NextMove(s, s', m) && !m.Lock?
    ensures OwnersMatch(s')
  {
    OwnersStay(s, s', m);
    RequestShape(s, s', m);
    forall r | r in s'.requests && Active(s'.requests[r])
      ensures s'.requests[r].threadId in s'.threads && r in s.callers &&
              MayResume(s'.threads[s'.requests[r].threadId].owner, s.callers[r])
    {
      RunnerIsOwner(s, s', m, r);
    }
    NewEffectIsOwners(s, s', m);
  }

  lemma RunnerIsOwner(s: Service, s': Service, m: Move, r: CallId)
    requires OwnersMatch(s) && NextMove(s, s', m) && !m.Lock? && r in s'.requests && Active(s'.requests[r])
    ensures r in s.callers && s'.requests[r].threadId in s.threads
    ensures MayResume(s.threads[s'.requests[r].threadId].owner, s.callers[r])
  {
    RequestShape(s, s', m);
    if !Active(s.requests[r]) {
      assert m == Gate(r);
    }
  }

  lemma NewEffectIsOwners(s: Service, s': Service, m: Move)
    requires OwnersMatch(s) && NextMove(s, s', m) && !m.Lock?
    ensures forall i | 0 <= i < |s'.effects| ::
              && s'.effects[i].threadId in s.threads
              && MayResume(s.threads[s'.effects[i].threadId].owner, s'.effects[i].caller)
  {
  }

  lemma {:induction false} HistoryKeepsOwners(trace: seq<Service>)
    requires History(trace)
    ensures OwnersMatch(trace[|trace| - 1])
  {
    var n := |trace| - 1;
    if n > 0 {
      assert History(trace[..n]);
      HistoryKeepsOwners(trace[..n]);
      HistoryKeepsLocks(trace[..n]);
      assert Next(trace[n - 1], trace[n]);
      var m :| NextMove(trace[n - 1], trace[n], m);
      if m.Lock? {
        LockKeepsOwners(trace[n - 1], trace[n], m.step);
      } else {
        RunKeepsOwners(trace[n - 1], trace[n], m);
      }
    }
  }

  /** Over every history, early releases included: a request that runs a thread was made by its owner, and
      every side effect of a resumed thread was resumed by its owner. */
  lemma OnlyOwnersResume(trace: seq<Service>, r: CallId, e: Effect)
    requires History(trace)
    ensures var s := trace[|trace| - 1];
            && (r in s.requests && Active(s.requests[r]) ==>
                  && r in s.callers && s.requests[r].threadId in s.threads
                  && MayResume(s.threads[s.requests[r].threadId].owner, s.callers[r]))
            && (e in s.effects ==> e.threadId in s.threads && MayResume(s.threads[e.threadId].owner, e.caller))
  {
    HistoryKeepsOwners(trace);
  }

  /** What the gate does: it lets in exactly the owner of a known thread that awaits approval; anybody else
      is sent away, and nobody's thread, ledger or side effects change. */
  lemma GateAdmitsIff(s: Service, s': Service, r: CallId)
    requires Gates(s, s', r)
    ensures var t := s.requests[r].threadId;
            var open := && t in s.threads && s.threads[t].stage == AwaitingApproval
                        && s.threads[t].owner.Some? && s.threads[t].owner.value != ANONYMOUS
                        && s.callers[r] != ANONYMOUS
                        && s.threads[t].owner.value.userId == s.callers[r].userId
                        && s.threads[t].owner.value.orgId == s.callers[r].orgId;
            r in s'.requests && s'.requests[r] == if open then Admitted(t) else Leaving(t)
    ensures s'.threads == s.threads && s'.ledger == s.ledger && s'.effects == s.effects && s'.locks == s.locks
    ensures forall q | q in s.requests && q != r :: q in s'.requests && s'.requests[q] == s.requests[q]
  {
  }

  // ----- what every history guarantees -----

  /** Two resumes never run on one thread at once, and a resume runs only once the chat that created the
      thread has committed its pause. */
  lemma RunsNeverOverlap(trace: seq<Service>, r: CallId, q: CallId)
    requires Orderly(trace)
    requires var s := trace[|trace| - 1];
             && r in s.requests && q in s.requests && Active(s.requests[r]) && Active(s.requests[q])
             && s.requests[r].threadId == s.requests[q].threadId
    ensures var s := trace[|trace| - 1];
            && r == q && s.requests[r].threadId in s.threads
            && s.threads[s.requests[r].threadId].stage == if s.requests[r].Admitted? then AwaitingApproval else Executing
  {
    OrderlyKeepsInv(trace);
  }

  predicate Resumed(s: Service, t: ThreadId) {
    t in s.threads && s.threads[t].resumes > 0
  }

  lemma MoveKeepsResumed(s: Service, s': Service, m: Move, t: ThreadId)
    requires ThreadsSound(s) && NextMove(s, s', m) && Resumed(s, t)
    ensures Resumed(s', t)
  {
  }

  lemma StateIsSound(trace: seq<Service>, k: nat)
    requires History(trace) && Calm(trace) && k < |trace|
    ensures StagesMatch(trace[k]) && ThreadsSound(trace[k])
  {
    assert History(trace[..k + 1]);
    assert Calm(trace[..k + 1][..k]) by {
      assert forall i | 0 <= i < k :: trace[..k + 1][..k][i] == trace[i];
    }
    HistoryKeepsInv(trace[..k + 1]);
  }

  lemma StepKeepsResumed(trace: seq<Service>, k: nat, t: ThreadId)
    requires History(trace) && Calm(trace) && k < |trace| - 1 && Resumed(trace[k], t)
    ensures Resumed(trace[k + 1], t)
  {
    StateIsSound(trace, k);
    assert Next(trace[k], trace[k + 1]);
    var m :| NextMove(trace[k], trace[k + 1], m);
    MoveKeepsResumed(trace[k], trace[k + 1], m, t);
  }

  ghost predicate NeverForgotten(trace: seq<Service>, t: ThreadId) {
    forall k | 0 <= k < |trace| - 1 && Resumed(trace[k], t) :: Resumed(trace[k + 1], t)
  }

  lemma {:induction false} ResumedForGood(trace: seq<Service>, i: nat, j: nat, t: ThreadId)
    requires NeverForgotten(trace, t) && i <= j < |trace| && Resumed(trace[i], t)
    ensures Resumed(trace[j], t)
    decreases j
  {
    if i < j {
      ResumedForGood(trace, i, j - 1, t);
    }
  }

  /** A commit is the first of its thread. */
  lemma CommitIsFirst(s: Service, s': Service, r: CallId)
    requires StagesMatch(s) && ThreadsSound(s) && Commits(s, s', r)
    ensures !Resumed(s, s.requests[r].threadId) && Resumed(s', s.requests[r].threadId)
  {
  }

  lemma CommitIsFirstAt(trace: seq<Service>, k: nat, r: CallId)
    requires History(trace) && Calm(trace) && k < |trace| - 1 && Commits(trace[k], trace[k + 1], r)
    ensures var t := trace[k].requests[r].threadId; !Resumed(trace[k], t) && Resumed(trace[k + 1], t)
  {
    StateIsSound(trace, k);
    CommitIsFirst(trace[k], trace[k + 1], r);
  }

  /** Over a whole history at most one request takes a given thread out of awaiting approval: two
      commits, by whichever requests, are on different threads. */
  lemma OneResumePerThread(trace: seq<Service>, i: nat, j: nat, r: CallId, q: CallId)
    requires Orderly(trace) && i < j < |trace| - 1
    requires Commits(trace[i], trace[i + 1], r) && Commits(trace[j], trace[j + 1], q)
    ensures trace[i].requests[r].threadId != trace[j].requests[q].threadId
  {
    OrderlyIsHistory(trace);
    OrderlyIsCalm(trace);
    CommitIsFirstAt(trace, i, r);
    CommitIsFirstAt(trace, j, q);
    var t := trace[i].requests[r].threadId;
    forall k | 0 <= k < |trace| - 1 && Resumed(trace[k], t) ensures Resumed(trace[k + 1], t) {
      StepKeepsResumed(trace, k, t);
    }
    ResumedForGood(trace, i + 1, j, t);
  }

  /** Each gated action has at most one successful side effect, and every successful entry of the ledger
      stands for one. */
  lemma OneEffectPerAction(trace: seq<Service>)
    requires Orderly(trace)
    ensures var s := trace[|trace| - 1];
            && (forall i, j | 0 <= i < j < |s.effects| :: s.effects[i].actionId != s.effects[j].actionId)
            && (forall e | e in s.effects :: e.threadId in s.threads && e.actionId in s.threads[e.threadId].gated)
            && (forall id | id in s.ledger :: exists e | e in s.effects :: e.actionId == id)
  {
    OrderlyKeepsInv(trace);
    var s := trace[|trace| - 1];
    forall id | id in s.ledger ensures exists e | e in s.effects :: e.actionId == id {
      assert Happened(s, id);
    }
  }
}
