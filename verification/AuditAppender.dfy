/** The Postgres appender: concurrent transactions that lock, read the tail, link, insert, commit. */
module AuditAppender {
  import opened Collections
  import opened AuditChain

  type TxId = nat

  datatype Phase =
    | Begun                           // blocked on, or not yet at, the advisory lock
    | Locked
    | TailRead(tail: Option<Record>)
    | Inserted(record: Record)        // invisible to the others until commit
    | Committed
    | Aborted

  datatype Tx = Tx(event: AuditEvent, phase: Phase)

  /** Shared database state. `table` holds the committed rows by primary key; `lockOrder` and
      `commitOrder` are the history of lock acquisitions and commits. */
  datatype Db = Db(table: map<int, Record>, holder: Option<TxId>, txs: map<TxId, Tx>,
                   lockOrder: seq<TxId>, commitOrder: seq<TxId>)

  datatype Step =
    | Begin(tx: TxId, event: AuditEvent)
    | Lock(tx: TxId)
    | ReadTail(tx: TxId, tail: Option<Record>)
    | Insert(tx: TxId)
    | Conflict(tx: TxId)              // primary-key violation
    | Commit(tx: TxId)
    | Abort(tx: TxId)

  ghost predicate Init(db: Db) {
    db == Db(map[], None, map[], [], [])
  }

  /** SELECT ... ORDER BY seq DESC LIMIT 1 over the committed rows. */
  ghost predicate SelectsTail(table: map<int, Record>, tail: Option<Record>) {
    match tail
    case None => table == map[]
    case Some(row) => exists k | k in table :: table[k] == row && forall j | j in table :: j <= k
  }

  predicate AtPhase(db: Db, tx: TxId, phase: Phase) {
    tx in db.txs && db.txs[tx].phase == phase
  }

  function SetPhase(db: Db, tx: TxId, phase: Phase): Db
    requires tx in db.txs
  {
    db.(txs := db.txs[tx := db.txs[tx].(phase := phase)])
  }

  /** Ending a transaction releases the lock it holds, if it holds it. */
  function End(db: Db, tx: TxId, phase: Phase): Db
    requires tx in db.txs
  {
    SetPhase(db, tx, phase).(holder := if db.holder == Some(tx) then None else db.holder)
  }

  ghost predicate NextStep(db: Db, db': Db, step: Step) {
    match step
    case Begin(tx, event) =>
      tx !in db.txs && db' == db.(txs := db.txs[tx := Tx(event, Begun)])
    case Lock(tx) =>
      AtPhase(db, tx, Begun) && db.holder.None? &&
      db' == SetPhase(db, tx, Locked).(holder := Some(tx), lockOrder := db.lockOrder + [tx])
    case ReadTail(tx, tail) =>
      AtPhase(db, tx, Locked) && SelectsTail(db.table, tail) && db' == SetPhase(db, tx, TailRead(tail))
    case Insert(tx) =>
      && tx in db.txs && db.txs[tx].phase.TailRead?
      && var record := Link(db.txs[tx].phase.tail, db.txs[tx].event);
         record.seqNo !in db.table && db' == SetPhase(db, tx, Inserted(record))
    case Conflict(tx) =>
      && tx in db.txs && db.txs[tx].phase.TailRead?
      && Link(db.txs[tx].phase.tail, db.txs[tx].event).seqNo in db.table
      && db' == End(db, tx, Aborted)
    case Commit(tx) =>
      && tx in db.txs && db.txs[tx].phase.Inserted?
      && var record := db.txs[tx].phase.record;
         db' == End(db, tx, Committed).(table := db.table[record.seqNo := record],
                                        commitOrder := db.commitOrder + [tx])
    case Abort(tx) =>
      && tx in db.txs && !db.txs[tx].phase.Committed? && !db.txs[tx].phase.Aborted?
      && db' == End(db, tx, Aborted)
  }

  ghost predicate Next(db: Db, db': Db) {
    exists step :: NextStep(db, db', step)
  }

  /** Any interleaving: a finite sequence of states joined by steps of any transactions. */
  ghost predicate Run(trace: seq<Db>) {
    |trace| > 0 && Init(trace[0]) && forall i | 0 <= i < |trace| - 1 :: Next(trace[i], trace[i + 1])
  }

  // ----- what the committed table must be -----

  ghost predicate Known(txs: map<TxId, Tx>, order: seq<TxId>) {
    forall i | 0 <= i < |order| :: order[i] in txs
  }

  function EventsOf(txs: map<TxId, Tx>, order: seq<TxId>): (events: seq<AuditEvent>)
    requires Known(txs, order)
    ensures |events| == |order|
  {
    seq(|order|, i requires 0 <= i < |order| => txs[order[i]].event)
  }

  function Rows(records: seq<Record>): map<int, Record> {
    map i | 0 <= i < |records| :: records[i]
  }

  /** The transactions of `order` that committed, in the same order. */
  function CommittedIn(txs: map<TxId, Tx>, order: seq<TxId>): seq<TxId> {
    if order == [] then []
    else
      var last := order[|order| - 1];
      CommittedIn(txs, order[..|order| - 1]) + if AtCommitted(txs, last) then [last] else []
  }

  predicate AtCommitted(txs: map<TxId, Tx>, tx: TxId) {
    tx in txs && txs[tx].phase.Committed?
  }

  predicate HoldsLock(phase: Phase) {
    phase.Locked? || phase.TailRead? || phase.Inserted?
  }

  ghost predicate TableIsChain(db: Db)
    requires Known(db.txs, db.commitOrder)
  {
    var chain := ChainOf(EventsOf(db.txs, db.commitOrder));
    && db.table == Rows(chain)
    && forall tx | tx in db.txs ::
         && (db.txs[tx].phase.TailRead? ==> db.txs[tx].phase.tail == TailOf(chain))
         && (db.txs[tx].phase.Inserted? ==>
               db.txs[tx].phase.record == Link(TailOf(chain), db.txs[tx].event))
  }

  ghost predicate LockDiscipline(db: Db) {
    && (forall tx | tx in db.txs :: HoldsLock(db.txs[tx].phase) <==> db.holder == Some(tx))
    && (db.holder.Some? ==> db.holder.value in db.txs && db.lockOrder != [] &&
                            db.lockOrder[|db.lockOrder| - 1] == db.holder.value)
  }

  ghost predicate HistoryIsLockOrder(db: Db) {
    && Known(db.txs, db.lockOrder) && Distinct(db.lockOrder)
    && (forall i | 0 <= i < |db.lockOrder| :: !db.txs[db.lockOrder[i]].phase.Begun?)
    && (forall tx | AtCommitted(db.txs, tx) :: tx in db.lockOrder)
    && db.commitOrder == CommittedIn(db.txs, db.lockOrder)
  }

  ghost predicate Inv(db: Db) {
    LockDiscipline(db) && HistoryIsLockOrder(db) && Known(db.txs, db.commitOrder) && TableIsChain(db)
  }

  // ----- proof -----

  lemma {:induction false} LinkedSeqNo(events: seq<AuditEvent>)
    ensures Verifies(ChainOf(events)) && Events(ChainOf(events)) == events
    ensures forall e :: Link(TailOf(ChainOf(events)), e).seqNo == |events|
  {
    var chain := ChainOf(events);
    if events != [] {
      var n := |events| - 1;
      LinkedSeqNo(events[..n]);
      AppendKeepsVerifying(ChainOf(events[..n]), events[n]);
      assert events == events[..n] + [events[n]];
      assert Fault(chain, n) == None;
    }
  }

  /** Only the last acquirer can change between committed and not, so the filter keeps its prefix. */
  lemma {:induction false} CommittedInFrame(txs: map<TxId, Tx>, txs': map<TxId, Tx>, order: seq<TxId>)
    requires forall i | 0 <= i < |order| :: AtCommitted(txs, order[i]) <==> AtCommitted(txs', order[i])
    ensures CommittedIn(txs, order) == CommittedIn(txs', order)
  {
    if order != [] {
      assert order[|order| - 1] in order;
      CommittedInFrame(txs, txs', order[..|order| - 1]);
    }
  }

  lemma TailIsUnique(records: seq<Record>, tail: Option<Record>)
    requires Verifies(records) && SelectsTail(Rows(records), tail)
    ensures tail == TailOf(records)
  {
    if records != [] {
      assert 0 in Rows(records) && |records| - 1 in Rows(records);
    }
  }

  /** A step touches one transaction and never rewrites the event it carries. */
  lemma StepShape(db: Db, db': Db, step: Step)
    requires NextStep(db, db', step)
    ensures step.tx in db'.txs
    ensures forall tx | tx in db.txs :: tx in db'.txs && db'.txs[tx].event == db.txs[tx].event
    ensures forall tx | tx in db'.txs && tx != step.tx :: tx in db.txs && db'.txs[tx] == db.txs[tx]
  {
  }

  lemma HistoryKept(db: Db, db': Db, step: Step)
    requires LockDiscipline(db) && HistoryIsLockOrder(db) && NextStep(db, db', step)
    requires !step.Commit? && !step.Lock?
    ensures HistoryIsLockOrder(db')
  {
    StepShape(db, db', step);
    CommittedInFrame(db.txs, db'.txs, db.lockOrder);
  }

  lemma HistoryKeptByLock(db: Db, db': Db, tx: TxId)
    requires LockDiscipline(db) && HistoryIsLockOrder(db) && NextStep(db, db', Lock(tx))
    ensures HistoryIsLockOrder(db')
  {
    StepShape(db, db', Lock(tx));
    CommittedInFrame(db.txs, db'.txs, db.lockOrder);
    assert db'.lockOrder[..|db.lockOrder|] == db.lockOrder;
  }

  lemma HistoryKeptByCommit(db: Db, db': Db, tx: TxId)
    requires LockDiscipline(db) && HistoryIsLockOrder(db) && NextStep(db, db', Commit(tx))
    ensures HistoryIsLockOrder(db')
  {
    StepShape(db, db', Commit(tx));
    var n := |db.lockOrder| - 1;
    assert db.lockOrder[n] == tx;
    CommittedInFrame(db.txs, db'.txs, db.lockOrder[..n]);
  }

  lemma TableKept(db: Db, db': Db, step: Step)
    requires LockDiscipline(db) && Known(db.txs, db.commitOrder) && TableIsChain(db)
    requires NextStep(db, db', step) && !step.Commit?
    ensures Known(db'.txs, db'.commitOrder) && TableIsChain(db')
  {
    StepShape(db, db', step);
    var events := EventsOf(db.txs, db.commitOrder);
    assert EventsOf(db'.txs, db'.commitOrder) == events;
    if step.ReadTail? {
      LinkedSeqNo(events);
      TailIsUnique(ChainOf(events), step.tail);
    }
  }

  lemma TableKeptByCommit(db: Db, db': Db, tx: TxId)
    requires LockDiscipline(db) && Known(db.txs, db.commitOrder) && TableIsChain(db)
    requires NextStep(db, db', Commit(tx))
    ensures Known(db'.txs, db'.commitOrder) && TableIsChain(db')
  {
    StepShape(db, db', Commit(tx));
    var events, event := EventsOf(db.txs, db.commitOrder), db.txs[tx].event;
    LinkedSeqNo(events);
    assert EventsOf(db'.txs, db'.commitOrder) == events + [event];
    ChainGrows(events, event);
  }

  lemma ChainGrows(events: seq<AuditEvent>, event: AuditEvent)
    ensures var chain := ChainOf(events);
            var record := Link(TailOf(chain), event);
            && ChainOf(events + [event]) == chain + [record]
            && Rows(chain + [record]) == Rows(chain)[|events| := record]
  {
    assert (events + [event])[..|events|] == events;
    RowsGrow(ChainOf(events), Link(TailOf(ChainOf(events)), event));
  }

  lemma RowsGrow(records: seq<Record>, record: Record)
    ensures Rows(records + [record]) == Rows(records)[|records| := record]
  {
  }

  lemma LockKept(db: Db, db': Db, step: Step)
    requires LockDiscipline(db) && NextStep(db, db', step)
    ensures LockDiscipline(db')
  {
    StepShape(db, db', step);
  }

  lemma StepKeepsInv(db: Db, db': Db)
    requires Inv(db) && Next(db, db')
    ensures Inv(db')
  {
    var step :| NextStep(db, db', step);
    LockKept(db, db', step);
    if step.Commit? {
      HistoryKeptByCommit(db, db', step.tx);
      TableKeptByCommit(db, db', step.tx);
    } else {
      if step.Lock? {
        HistoryKeptByLock(db, db', step.tx);
      } else {
        HistoryKept(db, db', step);
      }
      TableKept(db, db', step);
    }
  }

  lemma {:induction false} RunKeepsInv(trace: seq<Db>)
    requires Run(trace)
    ensures Inv(trace[|trace| - 1])
  {
    var n := |trace| - 1;
    if n == 0 {
      assert Rows(ChainOf([])) == map[];
    } else {
      assert Run(trace[..n]);
      RunKeepsInv(trace[..n]);
      assert Next(trace[n - 1], trace[n]);
      StepKeepsInv(trace[n - 1], trace[n]);
    }
  }

  ghost predicate Contiguous(table: map<int, Record>) {
    forall k :: k in table <==> 0 <= k < |table|
  }

  /** SELECT ... ORDER BY seq ASC. */
  function Load(table: map<int, Record>): seq<Record>
    requires Contiguous(table)
  {
    seq(|table|, i requires 0 <= i < |table| => table[i])
  }

  lemma {:induction false} RowsLoadBack(records: seq<Record>)
    ensures Contiguous(Rows(records)) && Load(Rows(records)) == records
  {
    if records != [] {
      var n := |records| - 1;
      RowsLoadBack(records[..n]);
      assert Rows(records) == Rows(records[..n])[n := records[n]];
    }
  }

  /** However appenders interleave and abort, the stored chain is contiguous, verifies, never forks,
      and holds each committed event exactly once, in the order the lock was taken. */
  lemma AppendsNeverFork(trace: seq<Db>)
    requires Run(trace)
    ensures var db := trace[|trace| - 1];
            && Contiguous(db.table)
            && Verifies(Load(db.table))
            && Known(db.txs, db.commitOrder)
            && Events(Load(db.table)) == EventsOf(db.txs, db.commitOrder)
            && db.commitOrder == CommittedIn(db.txs, db.lockOrder)
            && Distinct(db.commitOrder)
            && (forall tx :: tx in db.commitOrder <==> AtCommitted(db.txs, tx))
  {
    RunKeepsInv(trace);
    var db := trace[|trace| - 1];
    var events := EventsOf(db.txs, db.commitOrder);
    LinkedSeqNo(events);
    RowsLoadBack(ChainOf(events));
    CommittedInIsFilter(db.txs, db.lockOrder);
  }

  lemma {:induction false} CommittedInIsFilter(txs: map<TxId, Tx>, order: seq<TxId>)
    requires Distinct(order)
    ensures Distinct(CommittedIn(txs, order))
    ensures forall tx :: tx in CommittedIn(txs, order) <==> tx in order && AtCommitted(txs, tx)
  {
    if order != [] {
      var n := |order| - 1;
      CommittedInIsFilter(txs, order[..n]);
      assert order == order[..n] + [order[n]];
      assert order[n] !in order[..n];
    }
  }

  /** The lock makes the primary-key violation unreachable. */
  lemma InsertNeverConflicts(trace: seq<Db>, db': Db, tx: TxId)
    requires Run(trace)
    ensures !NextStep(trace[|trace| - 1], db', Conflict(tx))
  {
    RunKeepsInv(trace);
    var db := trace[|trace| - 1];
    LinkedSeqNo(EventsOf(db.txs, db.commitOrder));
  }

  // ----- nobody is stuck -----

  lemma RunGoesOn(trace: seq<Db>, db': Db, step: Step)
    requires Run(trace) && NextStep(trace[|trace| - 1], db', step)
    ensures Run(trace + [db'])
  {
    var longer := trace + [db'];
    forall i | 0 <= i < |longer| - 1 ensures Next(longer[i], longer[i + 1]) {
      if i < |trace| - 1 {
        assert Next(trace[i], trace[i + 1]);
      }
    }
  }

  lemma TailIsSelected(records: seq<Record>)
    ensures SelectsTail(Rows(records), TailOf(records))
  {
    if records != [] {
      var k := |records| - 1;
      assert k in Rows(records) && Rows(records)[k] == records[k];
    }
  }

  /** The holder of the lock can take its next step towards the commit. */
  lemma HolderGoesOn(db: Db, tx: TxId) returns (db': Db, step: Step)
    requires Inv(db) && db.holder == Some(tx)
    ensures NextStep(db, db', step) && step.tx == tx && db'.txs[tx].event == db.txs[tx].event
    ensures db.txs[tx].phase.Locked? ==> db'.txs[tx].phase.TailRead?
    ensures db.txs[tx].phase.TailRead? ==> db'.txs[tx].phase.Inserted?
    ensures db.txs[tx].phase.Inserted? ==>
              AtCommitted(db'.txs, tx) && db'.commitOrder == db.commitOrder + [tx] && db'.holder == None
    ensures !db.txs[tx].phase.Inserted? ==> db'.holder == Some(tx) && db'.commitOrder == db.commitOrder
  {
    var events := EventsOf(db.txs, db.commitOrder);
    var phase, event := db.txs[tx].phase, db.txs[tx].event;
    LinkedSeqNo(events);
    if phase.Locked? {
      TailIsSelected(ChainOf(events));
      step := ReadTail(tx, TailOf(ChainOf(events)));
      db' := SetPhase(db, tx, TailRead(step.tail));
    } else if phase.TailRead? {
      step := Insert(tx);
      db' := SetPhase(db, tx, Inserted(Link(phase.tail, event)));
    } else {
      step := Commit(tx);
      db' := End(db, tx, Committed).(table := db.table[phase.record.seqNo := phase.record],
                                     commitOrder := db.commitOrder + [tx]);
    }
  }

  lemma HolderStep(trace: seq<Db>, tx: TxId) returns (longer: seq<Db>)
    requires Run(trace) && trace[|trace| - 1].holder == Some(tx) && tx in trace[|trace| - 1].txs
    ensures Run(longer) && |longer| == |trace| + 1 && trace <= longer
    ensures var db, db' := trace[|trace| - 1], longer[|trace|];
            && tx in db'.txs && db'.txs[tx].event == db.txs[tx].event
            && (db.txs[tx].phase.Locked? ==> db'.txs[tx].phase.TailRead?)
            && (db.txs[tx].phase.TailRead? ==> db'.txs[tx].phase.Inserted?)
            && (db.txs[tx].phase.Inserted? ==>
                  AtCommitted(db'.txs, tx) && db'.commitOrder == db.commitOrder + [tx] && db'.holder == None)
            && (!db.txs[tx].phase.Inserted? ==> db'.holder == Some(tx) && db'.commitOrder == db.commitOrder)
  {
    var db := trace[|trace| - 1];
    RunKeepsInv(trace);
    var db', step := HolderGoesOn(db, tx);
    StepShape(db, db', step);
    RunGoesOn(trace, db', step);
    longer := trace + [db'];
  }

  /** Whenever the lock is free, an append that waits for it can be carried through to its commit, after which
      its event is the last of the chain. */
  lemma AppendCanComplete(trace: seq<Db>, tx: TxId) returns (longer: seq<Db>)
    requires Run(trace) && trace[|trace| - 1].holder == None && AtPhase(trace[|trace| - 1], tx, Begun)
    ensures Run(longer) && trace <= longer
    ensures var db, db' := trace[|trace| - 1], longer[|longer| - 1];
            && AtCommitted(db'.txs, tx) && db'.txs[tx].event == db.txs[tx].event
            && db'.commitOrder == db.commitOrder + [tx]
  {
    var db := trace[|trace| - 1];
    var locked := SetPhase(db, tx, Locked).(holder := Some(tx), lockOrder := db.lockOrder + [tx]);
    RunGoesOn(trace, locked, Lock(tx));
    longer := HolderStep(trace + [locked], tx);
    longer := HolderStep(longer, tx);
    longer := HolderStep(longer, tx);
  }

  /** And the lock always becomes free: its holder can be carried through too. */
  lemma HolderCanComplete(trace: seq<Db>, tx: TxId) returns (longer: seq<Db>)
    requires Run(trace) && trace[|trace| - 1].holder == Some(tx)
    ensures Run(longer) && trace <= longer && AtCommitted(longer[|longer| - 1].txs, tx)
    ensures longer[|longer| - 1].holder == None
  {
    RunKeepsInv(trace);
    longer := trace;
    if longer[|longer| - 1].txs[tx].phase.Locked? {
      longer := HolderStep(longer, tx);
    }
    if longer[|longer| - 1].txs[tx].phase.TailRead? {
      longer := HolderStep(longer, tx);
    }
    longer := HolderStep(longer, tx);
  }
}
