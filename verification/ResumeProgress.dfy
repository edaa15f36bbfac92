/** The resume protocol gets things done: a thread that awaits approval can be resumed by its owner whenever
    its lock is free, and a run that took the thread on can see every gated action through. */
module ResumeProgress {
  import opened Rbac
  import opened ResumeLock
  import opened ResumeProtocol
  import opened ResumeOverlap

  /** The request is at the `at`-th gated action of its thread. */
  predicate WorksAt(s: Service, r: CallId, t: ThreadId, at: nat) {
    && r in s.requests && s.requests[r] == Working(t, at) && r in s.callers
    && t in s.threads && at <= |s.threads[t].gated|
  }

  /** The next action succeeds, now or according to the ledger. */
  lemma OneActionDone(s: Service, r: CallId, t: ThreadId, at: nat) returns (s': Service)
    requires WorksAt(s, r, t, at) && at < |s.threads[t].gated|
    ensures Leads(s, s') && WorksAt(s', r, t, at + 1)
    ensures var id := s.threads[t].gated[at];
            && s'.requests == s.requests[r := Working(t, at + 1)] && s'.threads == s.threads && s'.callers == s.callers
            && s'.ledger == s.ledger + {id}
            && s'.effects == s.effects + if id in s.ledger then [] else [Effect(t, id, s.callers[r])]
  {
    var id := s.threads[t].gated[at];
    if id in s.ledger {
      s' := s.(requests := s.requests[r := Working(t, at + 1)]);
      LeadsByMove(s, s', Move.Run(r, Succeeded));
    } else {
      var s1 := s.(requests := s.requests[r := Recording(t, at, true)],
                   effects := s.effects + [Effect(t, id, s.callers[r])]);
      LeadsByMove(s, s1, Move.Run(r, Succeeded));
      s' := s1.(requests := s1.requests[r := Working(t, at + 1)], ledger := s1.ledger + {id});
      LeadsByMove(s1, s', Move.WriteEntry(r));
      LeadsOn(s, s1, s');
    }
  }

  /** A run that is at work can finish: every gated action left is then in the ledger, those that were not
      there before have had their side effect, and the thread has ended. */
  lemma {:induction false} RunCanFinish(s: Service, r: CallId, t: ThreadId, at: nat) returns (s': Service)
    requires WorksAt(s, r, t, at)
    ensures Leads(s, s') && s'.requests == s.requests[r := Leaving(t)]
    ensures s'.threads == s.threads[t := s.threads[t].(stage := Ended)]
    ensures s.ledger <= s'.ledger && s.effects <= s'.effects
    ensures forall i | at <= i < |s.threads[t].gated| :: s.threads[t].gated[i] in s'.ledger
    ensures forall i | at <= i < |s.threads[t].gated| && s.threads[t].gated[i] !in s.ledger ::
              Effect(t, s.threads[t].gated[i], s.callers[r]) in s'.effects
    decreases |s.threads[t].gated| - at
  {
    if at == |s.threads[t].gated| {
      s' := s.(threads := s.threads[t := s.threads[t].(stage := Ended)], requests := s.requests[r := Leaving(t)]);
      LeadsByMove(s, s', Move.Finish(r));
    } else {
      var s1 := OneActionDone(s, r, t, at);
      s' := RunCanFinish(s1, r, t, at + 1);
      LeadsOn(s, s1, s');
      assert forall e | e in s1.effects :: e in s'.effects;
      forall i | at <= i < |s.threads[t].gated| && s.threads[t].gated[i] !in s.ledger
        ensures Effect(t, s.threads[t].gated[i], s.callers[r]) in s'.effects
      {
        if s.threads[t].gated[i] == s.threads[t].gated[at] {
          assert s1.effects[|s.effects|] in s1.effects;
        }
      }
    }
  }

  /** Whatever happened before: while the lock of a thread that awaits approval is free, its owner can resume
      it once, and see every gated action done and recorded. */
  lemma OwnerCanResume(trace: seq<Service>, t: ThreadId, p: Principal) returns (s': Service)
    requires History(trace)
    requires var s := trace[|trace| - 1];
             && t in s.threads && s.threads[t].stage == AwaitingApproval && MayResume(s.threads[t].owner, p)
             && LockFree(s.locks, t)
    ensures Extends(trace, s')
    ensures var s := trace[|trace| - 1];
            && t in s'.threads && s'.threads[t] == s.threads[t].(stage := Ended, resumes := s.threads[t].resumes + 1)
            && forall id | id in s.threads[t].gated :: id in s'.ledger && (id in s.ledger || Happened(s', id))
  {
    var s := trace[|trace| - 1];
    HistoryKeepsLocks(trace);
    var s1, r := FreeLockAdmits(s, t, p);
    var s2 := CommitStep(s1, r, t);
    LeadsOn(s, s1, s2);
    s' := RunCanFinish(s2, r, t, 0);
    LeadsOn(s, s2, s');
    HistoryGoesOn(trace, s');
    forall id | id in s.threads[t].gated ensures id in s'.ledger && (id in s.ledger || Happened(s', id)) {
      var i :| 0 <= i < |s.threads[t].gated| && s.threads[t].gated[i] == id;
      assert s2.threads[t].gated[i] == id;
    }
  }
}
