/** The append-only, hash-chained audit log and its tamper-evidence check. */
module AuditChain {
  import opened Collections

  datatype EventType =
    | Proposed | Approved | Rejected | Executed | ReplaySkipped | Failed | Skipped | Denied | Ingested

  /** The `ok` key of an event's detail, which may be any JSON value; `json` is the text of a number, a
      list or an object. */
  datatype OkField = Absent | Null | Bool(b: bool) | Text(text: string) | Other(json: string)

  datatype AuditEvent = AuditEvent(eventType: EventType, actionId: string, actor: string,
                                   ok: OkField, detail: string)

  /** A digest is symbolic: distinct contents give distinct digests and none is the genesis value.
      `Forged` stands for any stored hash text that no event produces. */
  datatype Hash = Genesis | Digest(prev: Hash, event: AuditEvent) | Forged(text: string)

  datatype Record = Record(seqNo: int, event: AuditEvent, prevHash: Hash, eventHash: Hash)

  datatype Reason = NonContiguous | PrevMismatch | HashMismatch

  datatype Verification = Intact | Broken(brokenAt: int, reason: Reason)

  function Link(tail: Option<Record>, event: AuditEvent): Record {
    var prev := if tail.None? then Genesis else tail.value.eventHash;
    Record(if tail.None? then 0 else tail.value.seqNo + 1, event, prev, Digest(prev, event))
  }

  function TailOf(records: seq<Record>): Option<Record> {
    if records == [] then None else Some(records[|records| - 1])
  }

  function ExpectedPrev(records: seq<Record>, i: nat): Hash
    requires i <= |records|
  {
    if i == 0 then Genesis else records[i - 1].eventHash
  }

  /** What is wrong with the record at `i`, in the order the check asks. */
  function Fault(records: seq<Record>, i: nat): Option<Reason>
    requires i < |records|
  {
    var r := records[i];
    if r.seqNo != i then Some(NonContiguous)
    else if r.prevHash != ExpectedPrev(records, i) then Some(PrevMismatch)
    else if r.eventHash != Digest(r.prevHash, r.event) then Some(HashMismatch)
    else None
  }

  predicate Verifies(records: seq<Record>) {
    forall i | 0 <= i < |records| :: Fault(records, i) == None
  }

  method VerifyChain(records: seq<Record>) returns (result: Verification)
    ensures result.Intact? <==> Verifies(records)
    ensures result.Broken? ==>
              exists i | 0 <= i < |records| ::
                && Verifies(records[..i])
                && Fault(records, i) == Some(result.reason)
                && result.brokenAt == records[i].seqNo
  {
    var expectedPrev := Genesis;
    for index := 0 to |records|
      invariant expectedPrev == ExpectedPrev(records, index)
      invariant forall i | 0 <= i < index :: Fault(records, i) == None
    {
      var record := records[index];
      assert forall i | 0 <= i < index :: Fault(records[..index], i) == Fault(records, i);
      assert Fault(records, index) == None ==> record.seqNo == index;
      if record.seqNo != index {
        return Broken(record.seqNo, NonContiguous);
      }
      if record.prevHash != expectedPrev {
        return Broken(record.seqNo, PrevMismatch);
      }
      if Digest(record.prevHash, record.event) != record.eventHash {
        return Broken(record.seqNo, HashMismatch);
      }
      expectedPrev := record.eventHash;
    }
    return Intact;
  }

  function Events(records: seq<Record>): (events: seq<AuditEvent>)
    ensures |events| == |records|
    ensures forall i | 0 <= i < |records| :: events[i] == records[i].event
  {
    seq(|records|, i requires 0 <= i < |records| => records[i].event)
  }

  /** The chain that appending the events one by one builds. */
  function ChainOf(events: seq<AuditEvent>): (records: seq<Record>)
    ensures |records| == |events|
  {
    if events == [] then []
    else
      var chain := ChainOf(events[..|events| - 1]);
      chain + [Link(TailOf(chain), events[|events| - 1])]
  }

  lemma AppendKeepsVerifying(records: seq<Record>, event: AuditEvent)
    requires Verifies(records)
    ensures Verifies(records + [Link(TailOf(records), event)])
    ensures Events(records + [Link(TailOf(records), event)]) == Events(records) + [event]
  {
    var longer := records + [Link(TailOf(records), event)];
    if records != [] {
      assert Fault(records, |records| - 1) == None;
    }
    forall i | 0 <= i < |longer| ensures Fault(longer, i) == None {
      if i < |records| {
        assert Fault(records, i) == None;
      }
    }
  }

  /** Everything `link` builds verifies, and a chain verifies only if `link` could have built it. */
  lemma {:induction false} VerifiesIffLinked(records: seq<Record>)
    ensures Verifies(records) <==> records == ChainOf(Events(records))
    decreases |records|
  {
    if records != [] {
      var n := |records| - 1;
      var shorter := records[..n];
      assert forall i | 0 <= i < n :: Fault(shorter, i) == Fault(records, i);
      assert Events(records)[..n] == Events(shorter);
      assert records == shorter + [records[n]];
      VerifiesIffLinked(shorter);
      if Verifies(records) {
        assert Fault(records, n) == None;
        if n > 0 {
          assert Fault(records, n - 1) == None;
        }
        assert records[n] == Link(TailOf(shorter), records[n].event);
      }
      if records == ChainOf(Events(records)) {
        AppendKeepsVerifying(shorter, records[n].event);
      }
    }
  }

  lemma PrefixVerifies(records: seq<Record>, n: nat)
    requires Verifies(records) && n <= |records|
    ensures Verifies(records[..n])
  {
    forall i | 0 <= i < n ensures Fault(records[..n], i) == None {
      assert Fault(records, i) == None;
    }
  }

  /** A verified chain is determined by its last hash alone, its length included. */
  lemma {:induction false} LastHashDeterminesChain(a: seq<Record>, b: seq<Record>)
    requires Verifies(a) && Verifies(b) && a != [] && b != []
    requires a[|a| - 1].eventHash == b[|b| - 1].eventHash
    ensures a == b
    decreases |a|
  {
    var m, n := |a| - 1, |b| - 1;
    assert Fault(a, m) == None && Fault(b, n) == None;
    if m > 0 { assert Fault(a, m - 1) == None; }
    if n > 0 { assert Fault(b, n - 1) == None; }
    if m > 0 && n > 0 {
      PrefixVerifies(a, m);
      PrefixVerifies(b, n);
      LastHashDeterminesChain(a[..m], b[..n]);
    }
    assert a == a[..m] + [a[m]] && b == b[..n] + [b[n]];
  }

  /** Two verified chains that differ at one index differ in hash there and at every later index. */
  lemma DivergencePropagates(a: seq<Record>, b: seq<Record>, i: nat, j: nat)
    requires Verifies(a) && Verifies(b)
    requires i <= j < |a| && j < |b| && a[i] != b[i]
    ensures a[j].eventHash != b[j].eventHash
  {
    PrefixVerifies(a, j + 1);
    PrefixVerifies(b, j + 1);
    assert a[..j + 1][i] != b[..j + 1][i];
    if a[j].eventHash == b[j].eventHash {
      LastHashDeterminesChain(a[..j + 1], b[..j + 1]);
    }
  }

  /** Deleting one record is noticed unless it is the last one. */
  lemma DeletionDetectedIff(records: seq<Record>, i: nat)
    requires Verifies(records) && i < |records|
    ensures Verifies(records[..i] + records[i + 1..]) <==> i == |records| - 1
  {
    var shorter := records[..i] + records[i + 1..];
    if i == |records| - 1 {
      assert shorter == records[..i];
      PrefixVerifies(records, i);
    } else {
      assert shorter[i] == records[i + 1];
      assert Fault(records, i + 1) == None;
      assert Fault(shorter, i) == Some(NonContiguous);
    }
  }

  /** Replacing one record is noticed unless it is the last one and its links are recomputed. */
  lemma EditDetectedIff(records: seq<Record>, i: nat, forged: Record)
    requires Verifies(records) && i < |records| && forged != records[i]
    ensures Verifies(records[i := forged]) <==>
            i == |records| - 1 && forged == Link(TailOf(records[..i]), forged.event)
  {
    var edited := records[i := forged];
    var n := |records| - 1;
    PrefixVerifies(records, i);
    if i < n {
      assert edited[i] != records[i];
      if Verifies(edited) {
        LastHashDeterminesChain(records, edited);
      }
    } else {
      assert edited == records[..i] + [forged];
      VerifiesIffLinked(edited);
      VerifiesIffLinked(records[..i]);
      assert Events(edited)[..i] == Events(records[..i]);
      if forged == Link(TailOf(records[..i]), forged.event) {
        AppendKeepsVerifying(records[..i], forged.event);
      }
      assert edited[i] == forged;
    }
  }

  /** Inserting one record is noticed unless it is a proper append. */
  lemma InsertionDetectedIff(records: seq<Record>, i: nat, forged: Record)
    requires Verifies(records) && i <= |records|
    ensures Verifies(records[..i] + [forged] + records[i..]) <==>
            i == |records| && forged == Link(TailOf(records), forged.event)
  {
    var longer := records[..i] + [forged] + records[i..];
    if i < |records| {
      assert longer[i + 1] == records[i];
      assert Fault(records, i) == None;
      assert Fault(longer, i + 1) == Some(NonContiguous);
    } else {
      assert longer == records + [forged];
      VerifiesIffLinked(longer);
      VerifiesIffLinked(records);
      assert Events(longer)[..i] == Events(records);
      if forged == Link(TailOf(records), forged.event) {
        AppendKeepsVerifying(records, forged.event);
      }
    }
  }

  /** Reordering a verified chain never verifies. */
  lemma ReorderDetected(records: seq<Record>, shuffled: seq<Record>)
    requires Verifies(records) && multiset(shuffled) == multiset(records) && shuffled != records
    ensures !Verifies(shuffled)
  {
    if Verifies(shuffled) {
      assert |multiset(shuffled)| == |shuffled| && |multiset(records)| == |records|;
      forall i | 0 <= i < |records| ensures shuffled[i] == records[i] {
        assert shuffled[i] in multiset(shuffled);
        assert shuffled[i] in records;
        var j :| 0 <= j < |records| && records[j] == shuffled[i];
        assert Fault(records, j) == None && Fault(shuffled, i) == None;
      }
    }
  }

  // ----- the idempotency question the executor asks of the log -----

  /** Only a successful EXECUTED counts; a failed or legacy `ok=False` entry never does. */
  predicate CountsAsExecuted(event: AuditEvent) {
    event.eventType == Executed && (event.ok == Absent || event.ok == Bool(true))
  }

  predicate HasExecuted(events: seq<AuditEvent>, actionId: string) {
    exists i | 0 <= i < |events| :: CountsAsExecuted(events[i]) && events[i].actionId == actionId
  }

  /** The development backend: a list that only ever grows. */
  class InMemoryAuditLog {
    var records: seq<Record>

    ghost predicate Valid()
      reads this
    {
      Verifies(records)
    }

    constructor ()
      ensures Valid() && records == []
    {
      records := [];
    }

    method Append(event: AuditEvent)
      requires Valid()
      modifies this
      ensures Valid()
      ensures old(records) <= records && Events(records) == old(Events(records)) + [event]
    {
      AppendKeepsVerifying(records, event);
      var tail := if |records| > 0 then Some(records[|records| - 1]) else None;
      records := records + [Link(tail, event)];
    }

    method AlreadyExecuted(actionId: string) returns (yes: bool)
      ensures yes == HasExecuted(Events(records), actionId)
    {
      yes := false;
      for i := 0 to |records|
        invariant yes == HasExecuted(Events(records)[..i], actionId)
      {
        assert Events(records)[..i + 1] == Events(records)[..i] + [records[i].event];
        if CountsAsExecuted(records[i].event) && records[i].event.actionId == actionId {
          assert CountsAsExecuted(Events(records)[i]);
          return true;
        }
      }
      assert Events(records)[..|records|] == Events(records);
    }
  }
}
