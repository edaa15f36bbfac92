/** What an early release costs. A run that has passed the gate and lost its lease before taking the
    thread on can always be joined by a second run on the same thread; both then commit, and both may
    perform the same action. So the absence of such releases is exactly what the guarantees of the
    resume protocol rest on. */
module ResumeOverlap {
  import opened Collections
  import opened Rbac
  import opened ResumeLock
  import opened ResumeProtocol
  import Streaming

  // ----- continuing a history -----

  ghost predicate Path(path: seq<Service>) {
    |path| > 0 && forall i | 0 <= i < |path| - 1 :: ResumeProtocol.Next(path[i], path[i + 1])
  }

  ghost predicate Leads(s: Service, s': Service) {
    exists path :: Path(path) && path[0] == s && path[|path| - 1] == s'
  }

  lemma LeadsByMove(s: Service, s': Service, m: Move)
    requires NextMove(s, s', m)
    ensures Leads(s, s')
  {
    var path := [s, s'];
    assert ResumeProtocol.Next(path[0], path[1]);
    assert Path(path);
  }

  lemma PathsJoin(a: seq<Service>, b: seq<Service>)
    requires Path(a) && Path(b) && a[|a| - 1] == b[0]
    ensures Path(a + b[1..])
    ensures (a + b[1..])[|a| + |b| - 2] == b[|b| - 1]
  {
    var whole := a + b[1..];
    forall i | 0 <= i < |whole| - 1 ensures ResumeProtocol.Next(whole[i], whole[i + 1]) {
      if i < |a| - 1 {
        assert ResumeProtocol.Next(a[i], a[i + 1]);
      } else {
        assert ResumeProtocol.Next(b[i - |a| + 1], b[i - |a| + 2]);
      }
    }
  }

  lemma LeadsOn(s: Service, mid: Service, s': Service)
    requires Leads(s, mid) && Leads(mid, s')
    ensures Leads(s, s')
  {
    var a :| Path(a) && a[0] == s && a[|a| - 1] == mid;
    var b :| Path(b) && b[0] == mid && b[|b| - 1] == s';
    PathsJoin(a, b);
    assert (a + b[1..])[0] == s;
  }

  /** A longer history that ends in `s'`. */
  ghost predicate Extends(trace: seq<Service>, s': Service) {
    exists longer :: History(longer) && trace <= longer && longer[|longer| - 1] == s'
  }

  lemma HistoryGoesOn(trace: seq<Service>, s': Service)
    requires History(trace) && Leads(trace[|trace| - 1], s')
    ensures Extends(trace, s')
  {
    var b :| Path(b) && b[0] == trace[|trace| - 1] && b[|b| - 1] == s';
    PathsJoin(trace, b);
    assert trace <= trace + b[1..];
  }

  // ----- letting a second request in -----

  lemma {:induction false} BoundExists(ids: set<CallId>) returns (n: CallId)
    ensures forall id | id in ids :: id < n
  {
    if id :| id in ids {
      var m := BoundExists(ids - {id});
      n := if id < m then m else id + 1;
      forall x | x in ids ensures x < n {
        assert x != id ==> x in ids - {id};
      }
    } else {
      n := 0;
    }
  }

  /** Nothing but the request and the lock table changed. */
  predicate OnlyAdmits(s: Service, s': Service, q: CallId, t: ThreadId) {
    && q in s'.requests && s'.requests[q] == Admitted(t) && s'.threads == s.threads
    && s'.ledger == s.ledger && s'.effects == s.effects && q in s'.callers
    && (forall r | r in s.requests && Active(s.requests[r]) :: r in s'.requests && s'.requests[r] == s.requests[r])
    && (forall r | r in s.callers && r in s.requests :: r in s'.callers && s'.callers[r] == s.callers[r])
  }

  predicate LockFree(s: Locks, t: ThreadId) {
    t in s.table ==> s.table[t] < |s.heap| && !s.heap[s.table[t]].locked
  }

  /** A newcomer enters and acquires. */
  lemma FreeLockIsTaken(s: Service, t: ThreadId, p: Principal) returns (s': Service, q: CallId)
    requires LocksInv(s) && LockFree(s.locks, t)
    ensures Leads(s, s') && q !in s.requests
    ensures s' == s.(locks := s'.locks, requests := s.requests[q := Entered(t)], callers := s.callers[q := p]) && Held(s', q)
  {
    q := BoundExists(s.locks.calls.Keys);
    var l := s.locks;
    var e := if t in l.table then l.table[t] else |l.heap|;
    var l1 := if t in l.table
              then l.(heap := l.heap[e := l.heap[e].(refs := l.heap[e].refs + 1)], calls := l.calls[q := Waiting(t, e)])
              else l.(heap := l.heap + [Entry(t, false, 1)], table := l.table[t := e], calls := l.calls[q := Waiting(t, e)]);
    var s1 := s.(locks := l1, requests := s.requests[q := Entered(t)], callers := s.callers[q := p]);
    assert Enters(l, l1, q, t);
    assert NextMove(s, s1, Move.Lock(Enter(q, t)));
    LeadsByMove(s, s1, Move.Lock(Enter(q, t)));
    s' := FreshWaiterAcquires(s1, q, t, e);
    LeadsOn(s, s1, s');
  }

  lemma FreshWaiterAcquires(s: Service, q: CallId, t: ThreadId, e: EntryId) returns (s': Service)
    requires q in s.locks.calls && s.locks.calls[q] == Waiting(t, e)
    requires e < |s.locks.heap| && !s.locks.heap[e].locked
    ensures Leads(s, s') && s' == s.(locks := s'.locks) && Held(s', q)
  {
    var l := s.locks;
    s' := s.(locks := l.(heap := l.heap[e := l.heap[e].(locked := true)],
                         leases := l.leases[q := Lease(t, e, false)], calls := l.calls[q := Finished]));
    assert Acquires(l, s'.locks, q);
    LeadsByMove(s, s', Move.Lock(Acquire(q)));
  }

  /** The gate lets the owner in while the thread awaits approval. */
  lemma HolderIsAdmitted(s: Service, q: CallId, t: ThreadId) returns (s': Service)
    requires q in s.requests && s.requests[q] == Entered(t) && Held(s, q)
    requires t in s.threads && s.threads[t].stage == AwaitingApproval
    requires q in s.callers && MayResume(s.threads[t].owner, s.callers[q])
    ensures Leads(s, s') && OnlyAdmits(s, s', q, t)
  {
    s' := s.(requests := s.requests[q := Admitted(t)]);
    LeadsByMove(s, s', Gate(q));
  }

  lemma FreeLockAdmits(s: Service, t: ThreadId, p: Principal) returns (s': Service, q: CallId)
    requires LocksInv(s) && LockFree(s.locks, t)
    requires t in s.threads && s.threads[t].stage == AwaitingApproval && MayResume(s.threads[t].owner, p)
    ensures Leads(s, s') && q !in s.requests && OnlyAdmits(s, s', q, t)
  {
    var s1;
    s1, q := FreeLockIsTaken(s, t, p);
    assert q in s1.callers && s1.callers[q] == p;
    s' := HolderIsAdmitted(s1, q, t);
    LeadsOn(s, s1, s');
    EntrantIsAdmitted(s, s1, s', q, t);
  }

  lemma EntrantIsAdmitted(s: Service, s1: Service, s': Service, q: CallId, t: ThreadId)
    requires q !in s.requests && OnlyAdmits(s1, s', q, t)
    requires s1.requests == s.requests[q := Entered(t)] && q in s1.callers && s1.callers == s.callers[q := s1.callers[q]]
    requires s1.threads == s.threads && s1.ledger == s.ledger && s1.effects == s.effects
    ensures OnlyAdmits(s, s', q, t)
  {
    forall r | r in s.requests ensures r in s1.requests && s1.requests[r] == s.requests[r] {}
  }

  /** A release under way frees the lock first. */
  lemma PendingUnlockAdmits(s: Service, t: ThreadId, c: CallId, p: Principal) returns (s': Service, q: CallId)
    requires LocksInv(s) && c in s.locks.calls && s.locks.calls[c].Unlocking?
    requires s.locks.calls[c].lease in s.locks.leases && s.locks.leases[s.locks.calls[c].lease].threadId == t
    requires t in s.threads && s.threads[t].stage == AwaitingApproval && MayResume(s.threads[t].owner, p)
    ensures Leads(s, s') && q !in s.requests && OnlyAdmits(s, s', q, t)
  {
    var l := s.locks;
    var lease := l.calls[c].lease;
    var e := l.leases[lease].entry;
    ClaimIsInTable(l, c, e);
    var s1 := s.(locks := l.(heap := l.heap[e := l.heap[e].(locked := false)], calls := l.calls[c := Decrementing(lease)],
                             unlocks := l.unlocks + [lease]));
    assert Unlocks(l, s1.locks, c);
    assert NextMove(s, s1, Move.Lock(Unlock(c)));
    MoveKeepsLocks(s, s1, Move.Lock(Unlock(c)));
    LeadsByMove(s, s1, Move.Lock(Unlock(c)));
    s', q := FreeLockAdmits(s1, t, p);
    LeadsOn(s, s1, s');
  }

  /** A request that is leaving releases first. */
  lemma LeaverAdmits(s: Service, t: ThreadId, l: CallId, p: Principal) returns (s': Service, q: CallId)
    requires LocksInv(s) && l in s.requests && s.requests[l] == Leaving(t) && Held(s, l)
    requires t in s.threads && s.threads[t].stage == AwaitingApproval && MayResume(s.threads[t].owner, p)
    ensures Leads(s, s') && q !in s.requests && OnlyAdmits(s, s', q, t)
  {
    var c := BoundExists(s.locks.calls.Keys);
    var k := s.locks;
    var s1 := s.(locks := k.(leases := k.leases[l := k.leases[l].(released := true)], calls := k.calls[c := Unlocking(l)]));
    assert Releases(k, s1.locks, c, l);
    assert NextMove(s, s1, Move.Lock(Release(c, l)));
    MoveKeepsLocks(s, s1, Move.Lock(Release(c, l)));
    LeadsByMove(s, s1, Move.Lock(Release(c, l)));
    s', q := PendingUnlockAdmits(s1, t, c, p);
    LeadsOn(s, s1, s');
  }

  /** A stranger at the gate is sent away and releases. */
  lemma StrangerAdmits(s: Service, t: ThreadId, l: CallId, p: Principal) returns (s': Service, q: CallId)
    requires LocksInv(s) && l in s.requests && s.requests[l] == Entered(t) && Held(s, l)
    requires l in s.callers && !(t in s.threads && MayResume(s.threads[t].owner, s.callers[l]))
    requires t in s.threads && s.threads[t].stage == AwaitingApproval && MayResume(s.threads[t].owner, p)
    ensures Leads(s, s') && q !in s.requests && OnlyAdmits(s, s', q, t)
  {
    var s1 := s.(requests := s.requests[l := Leaving(t)]);
    assert NextMove(s, s1, Gate(l));
    MoveKeepsLocks(s, s1, Gate(l));
    LeadsByMove(s, s1, Gate(l));
    s', q := LeaverAdmits(s1, t, l, p);
    LeadsOn(s, s1, s');
    StrangerIsPassed(s, s1, s', l, q, t);
  }

  lemma StrangerIsPassed(s: Service, s1: Service, s': Service, l: CallId, q: CallId, t: ThreadId)
    requires l in s.requests && !Active(s.requests[l]) && OnlyAdmits(s1, s', q, t)
    requires s1 == s.(requests := s.requests[l := Leaving(t)])
    ensures OnlyAdmits(s, s', q, t)
  {
    forall r | r in s.requests && r != l ensures r in s1.requests && s1.requests[r] == s.requests[r] {}
  }

  /** Whoever is in the way, a second request of the owner can reach the gate of an exposed run's thread
      and pass. */
  lemma ExposedIsJoined(s: Service, r: CallId, t: ThreadId) returns (s': Service, q: CallId)
    requires LocksInv(s) && OneRunPerThread(s) && OwnersMatch(s) && Exposed(s, r) && s.requests[r].threadId == t
    requires t in s.threads && s.threads[t].stage == AwaitingApproval
    ensures Leads(s, s') && q != r && OnlyAdmits(s, s', q, t)
  {
    var l, p := s.locks, s.callers[r];
    if LockFree(l, t) {
      s', q := FreeLockAdmits(s, t, p);
    } else {
      var e := l.table[t];
      var c :| HoldsOn(l, c, e);
      if l.calls[c].Unlocking? {
        s', q := PendingUnlockAdmits(s, t, c, p);
      } else {
        assert c in s.requests && s.requests[c].threadId == t && Held(s, c);
        assert !Active(s.requests[c]);
        if s.requests[c].Leaving? {
          s', q := LeaverAdmits(s, t, c, p);
        } else if MayResume(s.threads[t].owner, s.callers[c]) {
          q := c;
          s' := HolderIsAdmitted(s, q, t);
        } else {
          s', q := StrangerAdmits(s, t, c, p);
        }
      }
    }
  }

  /** Two runs overlap on some thread. */
  ghost predicate Overlaps(s: Service) {
    exists r, q | r in s.requests && q in s.requests ::
      r != q && Active(s.requests[r]) && Active(s.requests[q]) && s.requests[r].threadId == s.requests[q].threadId
  }

  lemma ExposedThreadAwaits(trace: seq<Service>, r: CallId)
    requires History(trace) && Calm(trace) && Exposed(trace[|trace| - 1], r)
    ensures var s := trace[|trace| - 1];
            && ResumeProtocol.Inv(s) && OwnersMatch(s) && OneRunPerThread(s) && s.requests[r].threadId in s.threads
            && s.threads[s.requests[r].threadId].stage == AwaitingApproval
  {
    assert Calm(trace[..|trace| - 1]) by {
      assert forall i | 0 <= i < |trace| - 1 :: trace[..|trace| - 1][i] == trace[i];
    }
    HistoryKeepsInv(trace);
    HistoryKeepsOwners(trace);
  }

  /** Any history with an exposed run has two overlapping runs in it, or goes on to one that has: the
      absence of early releases cannot be weakened. */
  lemma ExposedRunMayOverlap(trace: seq<Service>, r: CallId)
    requires History(trace) && Exposed(trace[|trace| - 1], r)
    ensures (exists i | 0 <= i < |trace| :: !OneRunPerThread(trace[i])) ||
            (exists s' :: Extends(trace, s') && Overlaps(s'))
  {
    if Calm(trace) {
      var s := trace[|trace| - 1];
      ExposedThreadAwaits(trace, r);
      var s', q := ExposedIsJoined(s, r, s.requests[r].threadId);
      HistoryGoesOn(trace, s');
      assert r in s'.requests && q in s'.requests;
      assert Overlaps(s');
    }
  }

  // ----- and running everything twice -----

  lemma CommitStep(s: Service, r: CallId, t: ThreadId) returns (s': Service)
    requires r in s.requests && s.requests[r] == Admitted(t) && t in s.threads
    ensures Leads(s, s') && s'.requests == s.requests[r := Working(t, 0)]
    ensures s'.threads == s.threads[t := s.threads[t].(stage := Executing, resumes := s.threads[t].resumes + 1)]
    ensures s'.ledger == s.ledger && s'.effects == s.effects && s'.callers == s.callers
  {
    s' := s.(threads := s.threads[t := s.threads[t].(stage := Executing, resumes := s.threads[t].resumes + 1)],
             requests := s.requests[r := Working(t, 0)]);
    LeadsByMove(s, s', Commit(r));
  }

  lemma FirstActionRuns(s: Service, r: CallId, t: ThreadId) returns (s': Service)
    requires r in s.requests && s.requests[r] == Working(t, 0) && t in s.threads && r in s.callers
    requires s.threads[t].gated != [] && s.threads[t].gated[0] !in s.ledger
    ensures Leads(s, s') && s'.requests == s.requests[r := Recording(t, 0, true)]
    ensures s'.effects == s.effects + [Effect(t, s.threads[t].gated[0], s.callers[r])]
    ensures s'.threads == s.threads && s'.ledger == s.ledger && s'.callers == s.callers
  {
    s' := s.(requests := s.requests[r := Recording(t, 0, true)],
             effects := s.effects + [Effect(t, s.threads[t].gated[0], s.callers[r])]);
    LeadsByMove(s, s', Move.Run(r, Succeeded));
  }

  /** Two admitted runs both take the thread on and both run its first action. */
  lemma BothRunIt(s: Service, r: CallId, q: CallId, t: ThreadId) returns (s': Service)
    requires r != q && r in s.requests && q in s.requests
    requires s.requests[r] == Admitted(t) && s.requests[q] == Admitted(t) && t in s.threads
    requires r in s.callers && q in s.callers
    requires s.threads[t].gated != [] && s.threads[t].gated[0] !in s.ledger
    ensures Leads(s, s') && t in s'.threads && s'.threads[t].resumes == s.threads[t].resumes + 2
    ensures s'.effects == s.effects + [Effect(t, s.threads[t].gated[0], s.callers[r]),
                                       Effect(t, s.threads[t].gated[0], s.callers[q])]
  {
    var s1 := CommitStep(s, r, t);
    var s2 := CommitStep(s1, q, t);
    var s3 := FirstActionRuns(s2, r, t);
    s' := FirstActionRuns(s3, q, t);
    LeadsOn(s, s1, s2);
    LeadsOn(s, s2, s3);
    LeadsOn(s, s3, s');
  }

  /** What awaits approval is not in the ledger yet. */
  lemma AwaitingIsUnrecorded(s: Service, t: ThreadId, id: string)
    requires IdsDisjoint(s) && EffectsOwned(s) && LedgerEarned(s)
    requires t in s.threads && s.threads[t].stage == AwaitingApproval && id in s.threads[t].gated
    ensures id !in s.ledger
  {
  }

  /** From an exposed run two requests can both take the thread out of awaiting approval and both have
      the side effect of one gated action. */
  lemma ExposedRunMayRunTwice(trace: seq<Service>, r: CallId, t: ThreadId)
    requires History(trace) && Calm(trace) && Exposed(trace[|trace| - 1], r)
    requires trace[|trace| - 1].requests[r].threadId == t
    requires t in trace[|trace| - 1].threads && trace[|trace| - 1].threads[t].gated != []
    ensures exists s' :: Extends(trace, s') && RunTwice(s', t, trace[|trace| - 1].threads[t].gated[0])
  {
    var s := trace[|trace| - 1];
    ExposedThreadAwaits(trace, r);
    var id := s.threads[t].gated[0];
    AwaitingIsUnrecorded(s, t, id);
    var s1, q := ExposedIsJoined(s, r, t);
    var s' := BothRunIt(s1, r, q, t);
    LeadsOn(s, s1, s');
    HistoryGoesOn(trace, s');
    var n := |s.effects|;
    assert IsEffect(s'.effects[n], t, id) && IsEffect(s'.effects[n + 1], t, id);
    assert RunTwice(s', t, id);
  }

  ghost predicate RunTwice(s: Service, t: ThreadId, id: string) {
    && t in s.threads && s.threads[t].resumes >= 2
    && exists i, j | 0 <= i < j < |s.effects| :: IsEffect(s.effects[i], t, id) && IsEffect(s.effects[j], t, id)
  }

  predicate IsEffect(e: Effect, t: ThreadId, id: string) {
    e.threadId == t && e.actionId == id
  }

  // ----- when a streamed resume releases early -----

  /** Where a streamed resume of a thread is when `k` of the `pulled` chunks are pulled. */
  function StatusAt(source: Streaming.Source, pulled: nat, k: nat, t: ThreadId): Request {
    if k >= pulled then Leaving(t) else if k <= source.commits then Admitted(t) else Working(t, 0)
  }

  /** The release of a streamed resume's lease is early exactly if the stream counts it as such; so a
      stream whose client stays past the commit contributes no early release. */
  lemma StreamedReleaseIsEarlyIff(s: Service, r: CallId, call: CallId, source: Streaming.Source, pulled: nat, heldFor: nat)
    requires r in s.requests && s.requests[r] == StatusAt(source, pulled, heldFor, s.requests[r].threadId)
    ensures ReleasesEarly(s, Move.Lock(Release(call, r))) <==> Streaming.ReleasedEarly(source, pulled, heldFor)
  {
  }

  // ----- such histories exist -----

  function Locked(t: ThreadId, released: bool): Locks {
    Locks([Entry(t, true, 1)], map[t := 0], map[0 := Lease(t, 0, released)],
          if released then map[0 := Finished, 1 := Unlocking(0)] else map[0 := Finished], [])
  }

  /** One chat, one resume, and a cleanup that releases between the gate and the commit. */
  function Scene(t: ThreadId, id: string, p: Principal, n: nat): Service {
    var nobody := Locks([], map[], map[], map[], []);
    var waiting := Locks([Entry(t, false, 1)], map[t := 0], map[], map[0 := Waiting(t, 0)], []);
    var paused := map[t := Thread(Some(p), AwaitingApproval, [id], true, 0)];
    if n == 0 then Service(nobody, map[], map[], map[], {}, [])
    else if n == 1 then Service(nobody, map[t := Thread(Some(p), Planning, [], true, 0)], map[], map[], {}, [])
    else if n == 2 then Service(nobody, paused, map[], map[], {}, [])
    else if n == 3 then Service(waiting, paused, map[0 := Entered(t)], map[0 := p], {}, [])
    else if n == 4 then Service(Locked(t, false), paused, map[0 := Entered(t)], map[0 := p], {}, [])
    else if n == 5 then Service(Locked(t, false), paused, map[0 := Admitted(t)], map[0 := p], {}, [])
    else Service(Locked(t, true), paused, map[0 := Admitted(t)], map[0 := p], {}, [])
  }

  lemma SceneGoesOn(t: ThreadId, id: string, p: Principal, n: nat)
    requires n < 6 && p != ANONYMOUS
    ensures ResumeProtocol.Next(Scene(t, id, p, n), Scene(t, id, p, n + 1))
    ensures n < 5 ==> OrderlyNext(Scene(t, id, p, n), Scene(t, id, p, n + 1))
  {
    var s, s' := Scene(t, id, p, n), Scene(t, id, p, n + 1);
    if n == 0 {
      assert NextMove(s, s', ChatStarts(t, Some(p)));
    } else if n == 1 {
      assert NextMove(s, s', ChatPauses(t, [id]));
    } else if n < 4 {
      SceneLocks(t, id, p, n);
    } else if n == 4 {
      assert NextMove(s, s', Gate(0));
    } else {
      assert Releases(s.locks, s'.locks, 1, 0);
      assert NextMove(s, s', Move.Lock(Release(1, 0)));
    }
  }

  lemma SceneLocks(t: ThreadId, id: string, p: Principal, n: nat)
    requires 2 <= n < 4
    ensures NextMove(Scene(t, id, p, n), Scene(t, id, p, n + 1), Move.Lock(if n == 2 then Enter(0, t) else Acquire(0)))
  {
    var s, s' := Scene(t, id, p, n), Scene(t, id, p, n + 1);
    if n == 2 {
      assert Enters(s.locks, s'.locks, 0, t);
    } else {
      assert Acquires(s.locks, s'.locks, 0);
    }
  }

  /** The pause is in the checkpoint before the chat's run has returned, and the gate reads the checkpoint
      only: a resume can be running, in an orderly history, while the chat still is. */
  lemma ResumeMayMeetChat(t: ThreadId, id: string, p: Principal) returns (trace: seq<Service>)
    requires p != ANONYMOUS
    ensures Orderly(trace)
    ensures var s := trace[|trace| - 1];
            && 0 in s.requests && s.requests[0] == Admitted(t)
            && t in s.threads && s.threads[t].chatting && s.threads[t].stage == AwaitingApproval
  {
    trace := seq(6, n requires 0 <= n < 6 => Scene(t, id, p, n));
    forall n | 0 <= n < 5 ensures OrderlyNext(trace[n], trace[n + 1]) {
      SceneGoesOn(t, id, p, n);
    }
  }

  lemma EarlyReleaseHappens(t: ThreadId, id: string, p: Principal) returns (trace: seq<Service>)
    requires p != ANONYMOUS
    ensures History(trace) && Calm(trace) && trace[|trace| - 1] == Scene(t, id, p, 6)
  {
    trace := seq(7, n requires 0 <= n < 7 => Scene(t, id, p, n));
    forall n | 0 <= n < 6 ensures ResumeProtocol.Next(trace[n], trace[n + 1]) {
      SceneGoesOn(t, id, p, n);
    }
  }

  /** So two runs of one thread can overlap, and its gated action can take effect twice. */
  lemma OverlapHappens(t: ThreadId, id: string, p: Principal) returns (trace: seq<Service>)
    requires p != ANONYMOUS
    ensures History(trace) && !Calm(trace) && RunTwice(trace[|trace| - 1], t, id)
  {
    var start := EarlyReleaseHappens(t, id, p);
    ExposedRunMayRunTwice(start, 0, t);
    var s' :| Extends(start, s') && RunTwice(s', t, id);
    trace :| History(trace) && start <= trace && trace[|trace| - 1] == s';
    if Calm(trace) {
      assert Calm(trace[..|trace| - 1]) by {
        assert forall i | 0 <= i < |trace| - 1 :: trace[..|trace| - 1][i] == trace[i];
      }
      HistoryKeepsInv(trace);
    }
  }
}
