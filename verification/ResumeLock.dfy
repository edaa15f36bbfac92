/** The refcounted, per-thread resume lock table with idempotent leases, as interleaved steps.

    Every acquire and every release is a call with its own program counter. A section guarded by a
    Python lock is one atomic step; between steps any other call may run. */
module ResumeLock {

  type ThreadId = string
  type EntryId = nat
  type CallId = nat

  /** A lock object. `threadId` is the key it was inserted under. */
  datatype Entry = Entry(threadId: ThreadId, locked: bool, refs: int)

  /** A lease is named by the call that acquired it. */
  datatype Lease = Lease(threadId: ThreadId, entry: EntryId, released: bool)

  datatype Pc =
    | Waiting(threadId: ThreadId, entry: EntryId)   // refcount bumped, blocked on the lock
    | Unlocking(lease: CallId)                      // won the released flag
    | Decrementing(lease: CallId)                   // lock released, refcount not yet dropped
    | Finished

  /** `heap` holds every entry ever created, so an index is an object identity; `unlocks` is the
      history of leases whose lock was actually released. */
  datatype Locks = Locks(heap: seq<Entry>, table: map<ThreadId, EntryId>, leases: map<CallId, Lease>,
                         calls: map<CallId, Pc>, unlocks: seq<CallId>)

  datatype Step =
    | Enter(call: CallId, threadId: ThreadId)
    | Acquire(call: CallId)
    | Release(call: CallId, lease: CallId)
    | Unlock(call: CallId)
    | Decrement(call: CallId)

  ghost predicate Init(s: Locks) {
    s == Locks([], map[], map[], map[], [])
  }

  /** The guarded section of acquire: find or create the entry and bump its refcount. */
  ghost predicate Enters(s: Locks, s': Locks, call: CallId, threadId: ThreadId) {
    && call !in s.calls
    && if threadId in s.table
       then
         && var e := s.table[threadId];
            e < |s.heap| &&
            s' == s.(heap := s.heap[e := s.heap[e].(refs := s.heap[e].refs + 1)],
                     calls := s.calls[call := Waiting(threadId, e)])
       else
         s' == s.(heap := s.heap + [Entry(threadId, false, 1)],
                  table := s.table[threadId := |s.heap|],
                  calls := s.calls[call := Waiting(threadId, |s.heap|)])
  }

  /** Blocking acquire: enabled only while the entry is unlocked. */
  ghost predicate Acquires(s: Locks, s': Locks, call: CallId) {
    && call in s.calls && s.calls[call].Waiting?
    && var e := s.calls[call].entry;
       && e < |s.heap| && !s.heap[e].locked
       && s' == s.(heap := s.heap[e := s.heap[e].(locked := true)],
                   leases := s.leases[call := Lease(s.calls[call].threadId, e, false)],
                   calls := s.calls[call := Finished])
  }

  /** The guarded test-and-set of the released flag; every later caller returns at once. */
  ghost predicate Releases(s: Locks, s': Locks, call: CallId, lease: CallId) {
    && call !in s.calls && lease in s.leases
    && if s.leases[lease].released
       then s' == s.(calls := s.calls[call := Finished])
       else s' == s.(leases := s.leases[lease := s.leases[lease].(released := true)],
                     calls := s.calls[call := Unlocking(lease)])
  }

  ghost predicate Unlocks(s: Locks, s': Locks, call: CallId) {
    && call in s.calls && s.calls[call].Unlocking? && s.calls[call].lease in s.leases
    && var l := s.calls[call].lease;
       var e := s.leases[l].entry;
       && e < |s.heap|
       && s' == s.(heap := s.heap[e := s.heap[e].(locked := false)],
                   calls := s.calls[call := Decrementing(l)], unlocks := s.unlocks + [l])
  }

  /** Drop the refcount; delete the entry if it reached zero and is the one in the table. */
  ghost predicate Decrements(s: Locks, s': Locks, call: CallId) {
    && call in s.calls && s.calls[call].Decrementing? && s.calls[call].lease in s.leases
    && var threadId := s.leases[s.calls[call].lease].threadId;
       var e := s.leases[s.calls[call].lease].entry;
       && e < |s.heap|
       && var refs := s.heap[e].refs - 1;
          var drop := refs == 0 && threadId in s.table && s.table[threadId] == e;
          s' == s.(heap := s.heap[e := s.heap[e].(refs := refs)],
                   table := if drop then s.table - {threadId} else s.table,
                   calls := s.calls[call := Finished])
  }

  ghost predicate NextStep(s: Locks, s': Locks, step: Step) {
    match step
    case Enter(call, threadId) => Enters(s, s', call, threadId)
    case Acquire(call) => Acquires(s, s', call)
    case Release(call, lease) => Releases(s, s', call, lease)
    case Unlock(call) => Unlocks(s, s', call)
    case Decrement(call) => Decrements(s, s', call)
  }

  ghost predicate Next(s: Locks, s': Locks) {
    exists step :: NextStep(s, s', step)
  }

  ghost predicate Run(trace: seq<Locks>) {
    |trace| > 0 && Init(trace[0]) && forall i | 0 <= i < |trace| - 1 :: Next(trace[i], trace[i + 1])
  }

  // ----- who owes a reference to an entry, and who holds its lock -----

  predicate OpenOn(s: Locks, l: CallId, e: EntryId) {
    l in s.leases && s.leases[l].entry == e && !s.leases[l].released
  }

  /** The call bumped `refs` of entry `e` and nobody has yet decremented on its behalf. */
  predicate ClaimsOn(s: Locks, c: CallId, e: EntryId) {
    c in s.calls &&
    match s.calls[c]
    case Waiting(_, entry) => entry == e
    case Unlocking(l) => l in s.leases && s.leases[l].entry == e
    case Decrementing(l) => l in s.leases && s.leases[l].entry == e
    case Finished => OpenOn(s, c, e)
  }

  predicate HoldsOn(s: Locks, c: CallId, e: EntryId) {
    c in s.calls && !s.calls[c].Waiting? && !s.calls[c].Decrementing? && ClaimsOn(s, c, e)
  }

  function Claims(s: Locks, e: EntryId): set<CallId> {
    set c | c in s.calls && ClaimsOn(s, c, e)
  }

  predicate Releasing(pc: Pc) {
    pc.Unlocking? || pc.Decrementing?
  }

  ghost predicate WellFormed(s: Locks) {
    && (forall t | t in s.table :: s.table[t] < |s.heap| && s.heap[s.table[t]].threadId == t)
    && (forall l | l in s.leases ::
          && s.leases[l].entry < |s.heap|
          && s.heap[s.leases[l].entry].threadId == s.leases[l].threadId
          && l in s.calls && s.calls[l].Finished?)
    && (forall c | c in s.calls && s.calls[c].Waiting? ::
          && s.calls[c].entry < |s.heap| && s.heap[s.calls[c].entry].threadId == s.calls[c].threadId)
  }

  /** At most one call got past the released flag of a lease. */
  ghost predicate OneReleaser(s: Locks) {
    && (forall c | c in s.calls && Releasing(s.calls[c]) ::
          s.calls[c].lease in s.leases && s.leases[s.calls[c].lease].released)
    && (forall c, d | c in s.calls && d in s.calls && Releasing(s.calls[c]) && Releasing(s.calls[d]) &&
                      s.calls[c].lease == s.calls[d].lease :: c == d)
  }

  /** A lease whose flag is set was unlocked once, or is about to be by the call that set it. */
  ghost predicate UnlockedOnce(s: Locks) {
    && (forall i, j | 0 <= i < j < |s.unlocks| :: s.unlocks[i] != s.unlocks[j])
    && (forall l | l in s.unlocks :: l in s.leases && s.leases[l].released)
    && (forall c | c in s.calls && s.calls[c].Unlocking? :: s.calls[c].lease !in s.unlocks)
    && (forall l | l in s.leases && s.leases[l].released ::
          l in s.unlocks || exists c | c in s.calls :: s.calls[c] == Unlocking(l))
  }

  ghost predicate RefsExact(s: Locks) {
    forall e | 0 <= e < |s.heap| :: s.heap[e].refs == |Claims(s, e)|
  }

  ghost predicate TableIsLive(s: Locks) {
    forall e | 0 <= e < |s.heap| ::
      s.heap[e].refs > 0 <==> s.heap[e].threadId in s.table && s.table[s.heap[e].threadId] == e
  }

  ghost predicate LockIsHeld(s: Locks) {
    && (forall c, e | 0 <= e < |s.heap| && HoldsOn(s, c, e) :: s.heap[e].locked)
    && (forall e | 0 <= e < |s.heap| && s.heap[e].locked :: exists c :: HoldsOn(s, c, e))
    && (forall c, d, e | 0 <= e < |s.heap| && HoldsOn(s, c, e) && HoldsOn(s, d, e) :: c == d)
  }

  ghost predicate Inv(s: Locks) {
    WellFormed(s) && OneReleaser(s) && UnlockedOnce(s) && RefsExact(s) && TableIsLive(s) && LockIsHeld(s)
  }

  // ----- each step keeps the invariant -----

  /** What every step has in common: one call moves, entries keep their key, flags are only set. */
  lemma StepShape(s: Locks, s': Locks, step: Step)
    requires NextStep(s, s', step)
    ensures step.call in s'.calls
    ensures forall c | c != step.call :: c in s'.calls <==> c in s.calls
    ensures forall c | c != step.call && c in s.calls :: s'.calls[c] == s.calls[c]
    ensures |s.heap| <= |s'.heap|
    ensures forall e | 0 <= e < |s.heap| :: s'.heap[e].threadId == s.heap[e].threadId
  {
  }

  /** The flag of a lease is only ever set, and only an acquire adds a lease. */
  lemma LeaseShape(s: Locks, s': Locks, step: Step)
    requires WellFormed(s) && NextStep(s, s', step)
    ensures forall l | l in s.leases ::
              && l in s'.leases && s'.leases[l].entry == s.leases[l].entry
              && s'.leases[l].threadId == s.leases[l].threadId
              && (s.leases[l].released ==> s'.leases[l].released)
    ensures forall l | l in s'.leases && l !in s.leases :: step == Acquire(l) && !s'.leases[l].released
  {
  }

  lemma LeasesKept(s: Locks, s': Locks, step: Step)
    requires WellFormed(s) && NextStep(s, s', step)
    ensures forall l | l in s'.leases ::
              && s'.leases[l].entry < |s'.heap|
              && s'.heap[s'.leases[l].entry].threadId == s'.leases[l].threadId
              && l in s'.calls && s'.calls[l].Finished?
  {
    StepShape(s, s', step);
    LeaseShape(s, s', step);
  }

  lemma TableKept(s: Locks, s': Locks, step: Step)
    requires WellFormed(s) && NextStep(s, s', step)
    ensures forall t | t in s'.table :: s'.table[t] < |s'.heap| && s'.heap[s'.table[t]].threadId == t
  {
    StepShape(s, s', step);
  }

  lemma WellFormedKept(s: Locks, s': Locks, step: Step)
    requires WellFormed(s) && NextStep(s, s', step)
    ensures WellFormed(s')
  {
    LeasesKept(s, s', step);
    TableKept(s, s', step);
    StepShape(s, s', step);
  }

  /** A call is past the flag of a lease only if it was before, or it just set that flag. */
  lemma ReleaserShape(s: Locks, s': Locks, step: Step, c: CallId)
    requires NextStep(s, s', step) && c in s'.calls && Releasing(s'.calls[c])
    ensures || (c in s.calls && Releasing(s.calls[c]) && s.calls[c].lease == s'.calls[c].lease)
            || (&& step == Release(c, s'.calls[c].lease) && s'.calls[c].lease in s.leases
                && !s.leases[s'.calls[c].lease].released && s'.leases[s'.calls[c].lease].released)
  {
  }

  lemma OneReleaserKept(s: Locks, s': Locks, step: Step)
    requires WellFormed(s) && OneReleaser(s) && NextStep(s, s', step)
    ensures OneReleaser(s')
  {
    LeaseShape(s, s', step);
    forall c | c in s'.calls && Releasing(s'.calls[c])
      ensures s'.calls[c].lease in s'.leases && s'.leases[s'.calls[c].lease].released
    {
      ReleaserShape(s, s', step, c);
    }
    forall c, d | c in s'.calls && d in s'.calls && Releasing(s'.calls[c]) && Releasing(s'.calls[d]) &&
                  s'.calls[c].lease == s'.calls[d].lease
      ensures c == d
    {
      ReleaserShape(s, s', step, c);
      ReleaserShape(s, s', step, d);
    }
  }

  /** Only an unlock adds to the history, and what it adds was pending. */
  lemma HistoryShape(s: Locks, s': Locks, step: Step)
    requires NextStep(s, s', step)
    ensures if step.Unlock? then
              && step.call in s.calls && s.calls[step.call].Unlocking? && !s'.calls[step.call].Unlocking?
              && s'.unlocks == s.unlocks + [s.calls[step.call].lease]
            else s'.unlocks == s.unlocks
  {
  }

  lemma PendingNotInHistory(s: Locks, s': Locks, step: Step, c: CallId)
    requires OneReleaser(s) && UnlockedOnce(s) && NextStep(s, s', step)
    requires c in s'.calls && s'.calls[c].Unlocking?
    ensures s'.calls[c].lease !in s'.unlocks
  {
    HistoryShape(s, s', step);
    ReleaserShape(s, s', step, c);
    StepShape(s, s', step);
  }

  lemma UnlockedOnceKept(s: Locks, s': Locks, step: Step)
    requires WellFormed(s) && OneReleaser(s) && UnlockedOnce(s) && NextStep(s, s', step)
    ensures UnlockedOnce(s')
  {
    HistoryIsDistinct(s, s', step);
    UnlockPending(s, s', step);
    forall c | c in s'.calls && s'.calls[c].Unlocking? ensures s'.calls[c].lease !in s'.unlocks {
      PendingNotInHistory(s, s', step, c);
    }
  }

  lemma HistoryIsDistinct(s: Locks, s': Locks, step: Step)
    requires WellFormed(s) && OneReleaser(s) && UnlockedOnce(s) && NextStep(s, s', step)
    ensures forall i, j | 0 <= i < j < |s'.unlocks| :: s'.unlocks[i] != s'.unlocks[j]
    ensures forall l | l in s'.unlocks :: l in s'.leases && s'.leases[l].released
  {
    HistoryShape(s, s', step);
    LeaseShape(s, s', step);
  }

  lemma UnlockPending(s: Locks, s': Locks, step: Step)
    requires WellFormed(s) && OneReleaser(s) && UnlockedOnce(s) && NextStep(s, s', step)
    ensures forall l | l in s'.leases && s'.leases[l].released ::
              l in s'.unlocks || exists c | c in s'.calls :: s'.calls[c] == Unlocking(l)
  {
    StepShape(s, s', step);
    LeaseShape(s, s', step);
    forall l | l in s'.leases && s'.leases[l].released && l !in s'.unlocks
      ensures exists c | c in s'.calls :: s'.calls[c] == Unlocking(l)
    {
      if s.leases[l].released {
        assert l !in s.unlocks;
        var c :| c in s.calls && s.calls[c] == Unlocking(l);
        assert c in s'.calls && s'.calls[c] == Unlocking(l);
      } else {
        assert s'.calls[step.call] == Unlocking(l);
      }
    }
  }

  /** Steps that leave every claim and every refcount alone. */
  lemma RefsKept(s: Locks, s': Locks)
    requires RefsExact(s) && TableIsLive(s) && s'.table == s.table && |s'.heap| == |s.heap|
    requires forall e | 0 <= e < |s.heap| ::
               s'.heap[e].refs == s.heap[e].refs && s'.heap[e].threadId == s.heap[e].threadId
    requires forall c, e :: ClaimsOn(s', c, e) <==> ClaimsOn(s, c, e)
    ensures RefsExact(s') && TableIsLive(s')
  {
    forall e ensures Claims(s', e) == Claims(s, e) {}
  }

  /** Steps that change the claims on one entry and bring its refcount in line. */
  lemma RefsMoved(s: Locks, s': Locks, e: EntryId)
    requires RefsExact(s) && |s'.heap| == |s.heap| && e < |s.heap|
    requires s'.heap[e].refs == |Claims(s', e)|
    requires forall e' | 0 <= e' < |s.heap| && e' != e :: s'.heap[e'] == s.heap[e']
    requires forall c, e' | e' != e :: ClaimsOn(s', c, e') <==> ClaimsOn(s, c, e')
    ensures RefsExact(s')
  {
    forall e' | e' != e ensures Claims(s', e') == Claims(s, e') {}
  }

  /** Steps that change neither a lock nor who holds it. */
  lemma HoldersKept(s: Locks, s': Locks)
    requires LockIsHeld(s) && |s.heap| <= |s'.heap|
    requires forall e | 0 <= e < |s.heap| :: s'.heap[e].locked == s.heap[e].locked
    requires forall e | |s.heap| <= e < |s'.heap| :: !s'.heap[e].locked && forall c :: !HoldsOn(s', c, e)
    requires forall c, e :: HoldsOn(s', c, e) <==> HoldsOn(s, c, e)
    ensures LockIsHeld(s')
  {
  }

  lemma EnterKeepsRefs(s: Locks, s': Locks, call: CallId, threadId: ThreadId)
    requires WellFormed(s) && RefsExact(s) && TableIsLive(s) && Enters(s, s', call, threadId)
    requires threadId in s.table
    ensures RefsExact(s') && TableIsLive(s')
  {
    var e := s.table[threadId];
    forall c, e' | c != call ensures ClaimsOn(s', c, e') <==> ClaimsOn(s, c, e') {}
    assert Claims(s', e) == Claims(s, e) + {call};
    RefsMoved(s, s', e);
  }

  lemma EnterNewKeepsRefs(s: Locks, s': Locks, call: CallId, threadId: ThreadId)
    requires WellFormed(s) && RefsExact(s) && Enters(s, s', call, threadId)
    requires threadId !in s.table
    ensures RefsExact(s')
  {
    var e := |s.heap|;
    FreshEntryIsUnclaimed(s, e);
    forall c, e' | c != call ensures ClaimsOn(s', c, e') <==> ClaimsOn(s, c, e') {}
    assert Claims(s', e) == {call};
    forall e' | 0 <= e' < |s.heap| ensures Claims(s', e') == Claims(s, e') {}
  }

  lemma EnterNewKeepsTable(s: Locks, s': Locks, call: CallId, threadId: ThreadId)
    requires WellFormed(s) && TableIsLive(s) && Enters(s, s', call, threadId)
    requires threadId !in s.table
    ensures TableIsLive(s')
  {
  }

  lemma FreshEntryIsUnclaimed(s: Locks, e: EntryId)
    requires WellFormed(s) && |s.heap| <= e
    ensures Claims(s, e) == {}
  {
  }

  lemma EnterKeepsHolders(s: Locks, s': Locks, call: CallId, threadId: ThreadId)
    requires WellFormed(s) && LockIsHeld(s) && Enters(s, s', call, threadId)
    ensures LockIsHeld(s')
  {
    forall c, e' ensures HoldsOn(s', c, e') <==> HoldsOn(s, c, e') {}
    HoldersKept(s, s');
  }

  lemma AcquireKeepsInv(s: Locks, s': Locks, call: CallId)
    requires Inv(s) && Acquires(s, s', call)
    ensures RefsExact(s') && TableIsLive(s') && LockIsHeld(s')
  {
    var e := s.calls[call].entry;
    forall c, e' ensures ClaimsOn(s', c, e') <==> ClaimsOn(s, c, e') {}
    RefsKept(s, s');
    assert HoldsOn(s', call, e);
    forall c, e' | c != call ensures HoldsOn(s', c, e') <==> HoldsOn(s, c, e') {}
  }

  lemma StaleReleaseKeepsInv(s: Locks, s': Locks, call: CallId, lease: CallId)
    requires Inv(s) && Releases(s, s', call, lease) && s.leases[lease].released
    ensures RefsExact(s') && TableIsLive(s') && LockIsHeld(s')
  {
    forall c, e ensures ClaimsOn(s', c, e) <==> ClaimsOn(s, c, e) {}
    forall c, e ensures HoldsOn(s', c, e) <==> HoldsOn(s, c, e) {}
    RefsKept(s, s');
    HoldersKept(s, s');
  }

  lemma FirstReleaseKeepsRefs(s: Locks, s': Locks, call: CallId, lease: CallId)
    requires WellFormed(s) && RefsExact(s) && TableIsLive(s)
    requires Releases(s, s', call, lease) && !s.leases[lease].released
    ensures RefsExact(s') && TableIsLive(s')
  {
    var e := s.leases[lease].entry;
    forall c, e' | c != call && c != lease ensures ClaimsOn(s', c, e') <==> ClaimsOn(s, c, e') {}
    assert lease in Claims(s, e) && call !in Claims(s, e);
    assert Claims(s', e) == Claims(s, e) - {lease} + {call};
    RefsMoved(s, s', e);
  }

  lemma FirstReleaseKeepsHolders(s: Locks, s': Locks, call: CallId, lease: CallId)
    requires WellFormed(s) && LockIsHeld(s)
    requires Releases(s, s', call, lease) && !s.leases[lease].released
    ensures LockIsHeld(s')
  {
    var e := s.leases[lease].entry;
    assert HoldsOn(s, lease, e) && HoldsOn(s', call, e);
    forall e' ensures !HoldsOn(s', lease, e') {}
    forall c, e' | c != call && c != lease ensures HoldsOn(s', c, e') <==> HoldsOn(s, c, e') {}
  }

  lemma UnlockKeepsInv(s: Locks, s': Locks, call: CallId)
    requires Inv(s) && Unlocks(s, s', call)
    ensures RefsExact(s') && TableIsLive(s') && LockIsHeld(s')
  {
    var e := s.leases[s.calls[call].lease].entry;
    forall c, e' ensures ClaimsOn(s', c, e') <==> ClaimsOn(s, c, e') {}
    RefsKept(s, s');
    assert HoldsOn(s, call, e);
    forall c, e' | c != call ensures HoldsOn(s', c, e') <==> HoldsOn(s, c, e') {}
  }

  lemma DecrementKeepsRefs(s: Locks, s': Locks, call: CallId)
    requires WellFormed(s) && RefsExact(s) && TableIsLive(s) && Decrements(s, s', call)
    ensures RefsExact(s') && TableIsLive(s')
  {
    var e := s.leases[s.calls[call].lease].entry;
    forall c, e' | c != call ensures ClaimsOn(s', c, e') <==> ClaimsOn(s, c, e') {}
    assert call in Claims(s, e);
    assert Claims(s', e) == Claims(s, e) - {call};
    RefsMoved(s, s', e);
  }

  lemma DecrementKeepsHolders(s: Locks, s': Locks, call: CallId)
    requires WellFormed(s) && LockIsHeld(s) && Decrements(s, s', call)
    ensures LockIsHeld(s')
  {
    forall c, e' ensures HoldsOn(s', c, e') <==> HoldsOn(s, c, e') {}
    HoldersKept(s, s');
  }

  lemma StepKeepsInv(s: Locks, s': Locks)
    requires Inv(s) && Next(s, s')
    ensures Inv(s')
  {
    var step :| NextStep(s, s', step);
    WellFormedKept(s, s', step);
    OneReleaserKept(s, s', step);
    UnlockedOnceKept(s, s', step);
    match step
    case Enter(call, threadId) =>
      if threadId in s.table {
        EnterKeepsRefs(s, s', call, threadId);
      } else {
        EnterNewKeepsRefs(s, s', call, threadId);
        EnterNewKeepsTable(s, s', call, threadId);
      }
      EnterKeepsHolders(s, s', call, threadId);
    case Acquire(call) => AcquireKeepsInv(s, s', call);
    case Release(call, lease) =>
      if s.leases[lease].released {
        StaleReleaseKeepsInv(s, s', call, lease);
      } else {
        FirstReleaseKeepsRefs(s, s', call, lease);
        FirstReleaseKeepsHolders(s, s', call, lease);
      }
    case Unlock(call) => UnlockKeepsInv(s, s', call);
    case Decrement(call) =>
      DecrementKeepsRefs(s, s', call);
      DecrementKeepsHolders(s, s', call);
  }

  lemma {:induction false} RunKeepsInv(trace: seq<Locks>)
    requires Run(trace)
    ensures Inv(trace[|trace| - 1])
  {
    var n := |trace| - 1;
    if n > 0 {
      assert Run(trace[..n]);
      RunKeepsInv(trace[..n]);
      assert Next(trace[n - 1], trace[n]);
      StepKeepsInv(trace[n - 1], trace[n]);
    }
  }

  // ----- what every reachable state guarantees -----

  /** However calls interleave, two leases that are both still open belong to different threads. */
  lemma MutualExclusion(trace: seq<Locks>, l: CallId, m: CallId)
    requires Run(trace)
    requires var s := trace[|trace| - 1];
             && l in s.leases && m in s.leases && !s.leases[l].released && !s.leases[m].released
             && s.leases[l].threadId == s.leases[m].threadId
    ensures l == m
  {
    RunKeepsInv(trace);
    OpenLeasesAreUnique(trace[|trace| - 1], l, m);
  }

  lemma OpenLeasesAreUnique(s: Locks, l: CallId, m: CallId)
    requires Inv(s) && l in s.leases && m in s.leases && !s.leases[l].released && !s.leases[m].released
    requires s.leases[l].threadId == s.leases[m].threadId
    ensures l == m
  {
    ClaimIsInTable(s, l, s.leases[l].entry);
    ClaimIsInTable(s, m, s.leases[m].entry);
    assert HoldsOn(s, l, s.leases[l].entry) && HoldsOn(s, m, s.leases[m].entry);
  }

  /** An entry somebody still claims is the one the table maps its thread to. */
  lemma ClaimIsInTable(s: Locks, c: CallId, e: EntryId)
    requires Inv(s) && ClaimsOn(s, c, e)
    ensures e < |s.heap| && s.heap[e].threadId in s.table && s.table[s.heap[e].threadId] == e
  {
    assert c in Claims(s, e);
    assert Claims(s, e) != {} ==> |Claims(s, e)| > 0;
  }

  /** The refcount is exact, and an entry is in the table exactly while it is referenced; so a thread
      never has two live entries and a waiter is always queued on the current one. */
  lemma RefcountsAreExact(trace: seq<Locks>)
    requires Run(trace)
    ensures var s := trace[|trace| - 1];
            && RefsExact(s) && TableIsLive(s)
            && (forall e, f | 0 <= e < |s.heap| && 0 <= f < |s.heap| && s.heap[e].refs > 0 &&
                              s.heap[f].refs > 0 && s.heap[e].threadId == s.heap[f].threadId :: e == f)
            && (forall c | c in s.calls && s.calls[c].Waiting? ::
                  s.calls[c].threadId in s.table && s.table[s.calls[c].threadId] == s.calls[c].entry)
  {
    RunKeepsInv(trace);
    var s := trace[|trace| - 1];
    forall c | c in s.calls && s.calls[c].Waiting?
      ensures s.calls[c].threadId in s.table && s.table[s.calls[c].threadId] == s.calls[c].entry
    {
      ClaimIsInTable(s, c, s.calls[c].entry);
    }
  }

  /** When a decrement brings the refcount to zero the identity test on the table succeeds. */
  lemma IdentityCheckAlwaysHolds(trace: seq<Locks>, call: CallId)
    requires Run(trace)
    requires var s := trace[|trace| - 1]; call in s.calls && s.calls[call].Decrementing?
    ensures var s := trace[|trace| - 1];
            var l := s.calls[call].lease;
            && l in s.leases && s.leases[l].threadId in s.table
            && s.table[s.leases[l].threadId] == s.leases[l].entry
  {
    RunKeepsInv(trace);
    var s := trace[|trace| - 1];
    ClaimIsInTable(s, call, s.leases[s.calls[call].lease].entry);
  }

  /** Unlocking never hits an unlocked lock and never releases another caller's hold: the call that
      unlocks is the only holder of that thread, and no lease is unlocked twice. */
  lemma UnlockIsOwnerSafe(trace: seq<Locks>, call: CallId)
    requires Run(trace)
    requires var s := trace[|trace| - 1]; call in s.calls && s.calls[call].Unlocking?
    ensures var s := trace[|trace| - 1];
            var l := s.calls[call].lease;
            && l in s.leases && s.leases[l].entry < |s.heap| && s.heap[s.leases[l].entry].locked
            && l !in s.unlocks
            && (forall m | m in s.leases && s.leases[m].threadId == s.leases[l].threadId ::
                  s.leases[m].released)
  {
    RunKeepsInv(trace);
    var s := trace[|trace| - 1];
    var l := s.calls[call].lease;
    var e := s.leases[l].entry;
    assert HoldsOn(s, call, e);
    ClaimIsInTable(s, call, e);
    forall m | m in s.leases && s.leases[m].threadId == s.leases[l].threadId
      ensures s.leases[m].released
    {
      if !s.leases[m].released {
        ClaimIsInTable(s, m, s.leases[m].entry);
        assert HoldsOn(s, m, e);
      }
    }
  }

  /** A waiter is blocked only while somebody on its own thread holds a lease or is giving it back. */
  lemma BlockedOnlyByHolder(trace: seq<Locks>, call: CallId)
    requires Run(trace)
    requires var s := trace[|trace| - 1]; call in s.calls && s.calls[call].Waiting?
    ensures var s := trace[|trace| - 1];
            || (exists s' :: Acquires(s, s', call))
            || (exists c :: HoldsOn(s, c, s.calls[call].entry))
  {
    RunKeepsInv(trace);
    var s := trace[|trace| - 1];
    var e := s.calls[call].entry;
    if !s.heap[e].locked {
      var s' := s.(heap := s.heap[e := s.heap[e].(locked := true)],
                   leases := s.leases[call := Lease(s.calls[call].threadId, e, false)],
                   calls := s.calls[call := Finished]);
      assert Acquires(s, s', call);
    }
  }

  /** Once every call has returned and every lease was released, nothing is left behind: the table is
      empty, every lock is free, and each lease was unlocked exactly once. */
  lemma QuiescentTableIsEmpty(trace: seq<Locks>)
    requires Run(trace)
    requires var s := trace[|trace| - 1];
             && (forall c | c in s.calls :: s.calls[c].Finished?)
             && (forall l | l in s.leases :: s.leases[l].released)
    ensures var s := trace[|trace| - 1];
            && s.table == map[]
            && (forall e | 0 <= e < |s.heap| :: s.heap[e].refs == 0 && !s.heap[e].locked)
            && (forall l | l in s.leases :: l in s.unlocks)
            && (forall i, j | 0 <= i < j < |s.unlocks| :: s.unlocks[i] != s.unlocks[j])
  {
    RunKeepsInv(trace);
    var s := trace[|trace| - 1];
    assert forall t | t in s.table :: s.heap[s.table[t]].refs > 0;
    forall e | 0 <= e < |s.heap| ensures s.heap[e].refs == 0 {
      assert Claims(s, e) == {};
    }
  }
}
