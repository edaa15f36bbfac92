/** The idempotency question in its two forms: the Python test over events and the SQL test over the
    `detail` column, which casts whatever JSON value `ok` holds. */
module LedgerBackends {
  import opened Collections
  import opened Text
  import opened AuditChain
  import Orchestration

  // ----- the cast `(detail->>'ok')::boolean` -----

  predicate PgSpace(c: char) {
    c == ' ' || 9 <= c as int <= 13
  }

  function TrimLeft(s: string): string {
    if s == "" || !PgSpace(s[0]) then s else TrimLeft(s[1..])
  }

  function TrimRight(s: string): string {
    if s == "" || !PgSpace(s[|s| - 1]) then s else TrimRight(s[..|s| - 1])
  }

  /** Postgres's boolean input: any prefix of true, yes, false or no, `on`, `of`, `off`, 1 or 0, in any
      case and with white space around it; `None` is the error it raises for anything else. */
  function PgBoolean(text: string): Option<bool> {
    var t := Lower(TrimRight(TrimLeft(text)));
    if t != "" && (t <= "true" || t <= "yes" || t == "on" || t == "1") then Some(true)
    else if t != "" && (t <= "false" || t <= "no" || t == "of" || t == "off" || t == "0") then Some(false)
    else None
  }

  datatype RowTest = Yes | No | Raises

  function FromCast(b: Option<bool>): RowTest {
    if b.None? then Raises else if b.value then Yes else No
  }

  /** COALESCE((detail->>'ok')::boolean, true) = true, on one row. */
  function SqlTest(ok: OkField): RowTest {
    match ok
    case Absent => Yes
    case Null => Yes
    case Bool(b) => if b then Yes else No
    case Text(text) => FromCast(PgBoolean(text))
    case Other(json) => FromCast(PgBoolean(json))
  }

  /** detail.get("ok", True) is True. */
  predicate PythonTest(ok: OkField) {
    ok == Absent || ok == Bool(true)
  }

  // ----- the two answers -----

  predicate IsExecution(event: AuditEvent, actionId: string) {
    event.eventType == Executed && event.actionId == actionId
  }

  /** The `ok` values stored for the executions of an id. */
  function StoredOks(events: seq<AuditEvent>, actionId: string): set<OkField> {
    set i | 0 <= i < |events| && IsExecution(events[i], actionId) :: events[i].ok
  }

  datatype SqlAnswer = Exists(yes: bool) | CastError

  /** What the EXISTS may answer. The order in which it reads the rows is the planner's, so with both a
      matching row and one that cannot be cast it may stop early or raise. */
  ghost predicate SqlMayAnswer(events: seq<AuditEvent>, actionId: string, answer: SqlAnswer) {
    match answer
    case Exists(true) => exists i | 0 <= i < |events| :: IsExecution(events[i], actionId) && SqlTest(events[i].ok) == Yes
    case CastError => exists i | 0 <= i < |events| :: IsExecution(events[i], actionId) && SqlTest(events[i].ok) == Raises
    case Exists(false) => forall i | 0 <= i < |events| && IsExecution(events[i], actionId) :: SqlTest(events[i].ok) == No
  }

  ghost predicate BackendsAgree(events: seq<AuditEvent>, actionId: string) {
    forall answer | SqlMayAnswer(events, actionId, answer) :: answer == Exists(HasExecuted(events, actionId))
  }

  /** Every value can be cast, and one that only SQL takes for a success comes with one that Python takes
      for a success too. */
  ghost predicate Agreeable(oks: set<OkField>) {
    && (forall ok | ok in oks :: !SqlTest(ok).Raises?)
    && ((exists ok | ok in oks :: SqlTest(ok).Yes? && !PythonTest(ok)) ==> exists ok | ok in oks :: PythonTest(ok))
  }

  lemma HasExecutedByOks(events: seq<AuditEvent>, actionId: string)
    ensures HasExecuted(events, actionId) <==> exists ok | ok in StoredOks(events, actionId) :: PythonTest(ok)
  {
    if HasExecuted(events, actionId) {
      var i :| 0 <= i < |events| && CountsAsExecuted(events[i]) && events[i].actionId == actionId;
      assert events[i].ok in StoredOks(events, actionId);
    }
  }

  lemma SqlAnswersByOks(events: seq<AuditEvent>, actionId: string)
    ensures SqlMayAnswer(events, actionId, Exists(true)) <==>
            exists ok | ok in StoredOks(events, actionId) :: SqlTest(ok).Yes?
    ensures SqlMayAnswer(events, actionId, CastError) <==>
            exists ok | ok in StoredOks(events, actionId) :: SqlTest(ok).Raises?
    ensures SqlMayAnswer(events, actionId, Exists(false)) <==>
            forall ok | ok in StoredOks(events, actionId) :: SqlTest(ok).No?
  {
    forall i | 0 <= i < |events| && IsExecution(events[i], actionId) ensures events[i].ok in StoredOks(events, actionId) {}
  }

  /** The backends give the same answer exactly if the stored values are agreeable. */
  lemma BackendsAgreeIff(events: seq<AuditEvent>, actionId: string)
    ensures BackendsAgree(events, actionId) <==> Agreeable(StoredOks(events, actionId))
  {
    var oks := StoredOks(events, actionId);
    HasExecutedByOks(events, actionId);
    SqlAnswersByOks(events, actionId);
    if BackendsAgree(events, actionId) {
      assert SqlMayAnswer(events, actionId, CastError) ==> CastError == Exists(HasExecuted(events, actionId));
      assert SqlMayAnswer(events, actionId, Exists(true)) ==> HasExecuted(events, actionId);
    }
    if Agreeable(oks) {
      forall answer | SqlMayAnswer(events, actionId, answer) ensures answer == Exists(HasExecuted(events, actionId)) {
        assert answer in {Exists(true), Exists(false), CastError};
      }
    }
  }

  /** What the executor itself writes is a true boolean, on which they always agree. */
  lemma OwnEntriesAgree(events: seq<AuditEvent>, actionId: string)
    requires forall i | 0 <= i < |events| && IsExecution(events[i], actionId) :: events[i].ok == Bool(true)
    ensures BackendsAgree(events, actionId)
  {
    BackendsAgreeIff(events, actionId);
  }

  /** So they agree, over every run, on every id that nobody else writes under. */
  lemma RunsKeepBackendsAgreeing(ctx: Orchestration.Context, trace: seq<Orchestration.System>, actionId: string)
    requires Orchestration.Run(ctx, trace) && actionId !in trace[|trace| - 1].foreign
    ensures BackendsAgree(trace[|trace| - 1].log, actionId)
  {
    var s := trace[|trace| - 1];
    Orchestration.RunKeepsInv(ctx, trace);
    forall i | 0 <= i < |s.log| && IsExecution(s.log[i], actionId) ensures s.log[i].ok == Bool(true) {
      assert Orchestration.EntryHasEffect(s, i);
    }
    OwnEntriesAgree(s.log, actionId);
  }

  /** A single stored value is enough to part them: SQL replays where Python runs again on a null, on the
      number 1 and on the text "true", and raises on text that is no boolean. */
  lemma OneValueParts(event: AuditEvent)
    requires event.eventType == Executed
    requires event.ok in {Null, Other("1"), Text("true"), Text(" YES "), Text("maybe"), Other("2")}
    ensures !BackendsAgree([event], event.actionId) && !HasExecuted([event], event.actionId)
    ensures event.ok in {Null, Other("1"), Text("true"), Text(" YES ")} ==>
              SqlMayAnswer([event], event.actionId, Exists(true))
    ensures event.ok in {Text("maybe"), Other("2")} ==> SqlMayAnswer([event], event.actionId, CastError)
  {
    CastExamples();
    var log := [event];
    assert IsExecution(log[0], event.actionId) && !CountsAsExecuted(event);
    assert SqlTest(event.ok).Yes? ==> SqlMayAnswer(log, event.actionId, Exists(true));
    assert SqlTest(event.ok).Raises? ==> SqlMayAnswer(log, event.actionId, CastError);
  }

  lemma CastExamples()
    ensures PgBoolean("1") == PgBoolean("true") == PgBoolean(" YES ") == Some(true)
    ensures PgBoolean("maybe") == PgBoolean("2") == None
  {
    PaddedYesIsTrue();
    assert Lower("true") == "true" && Lower("maybe") == "maybe";
  }

  lemma PaddedYesIsTrue()
    ensures PgBoolean(" YES ") == Some(true)
  {
    assert TrimLeft(" YES ") == TrimLeft("YES ") == "YES ";
    assert "YES "[..3] == "YES";
    assert TrimRight("YES ") == TrimRight("YES") == "YES";
    assert Lower("YES") == "yes";
  }
}
