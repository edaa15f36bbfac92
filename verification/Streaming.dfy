/** Streaming one graph run as server-sent events: the producer that drains the run and gives the
    lease back, and the trace the client sees. */
module Streaming {
  import opened Collections

  /** A chunk of the graph stream: a model message of some node, the approval interrupt, or a
      per-node update. */
  datatype Chunk = Message(node: string, text: string) | Interrupt | Update(nodes: seq<string>)

  /** A graph run: it may fail to start, and it may raise after its last chunk. A resumed run takes its
      thread out of awaiting approval during the pull of chunk number `commits`. */
  datatype Source = Source(startFails: bool, chunks: seq<Chunk>, raises: bool, commits: nat)

  function Yielded(source: Source): seq<Chunk> {
    if source.startFails then [] else source.chunks
  }

  predicate ProducerRaises(source: Source) {
    source.startFails || source.raises
  }

  // ----- the lease -----

  /** A resume lease; `unlocks` counts the releases that really unlocked. */
  class ResumeLease {
    var released: bool
    var unlocks: nat

    constructor ()
      ensures !released && unlocks == 0
    {
      released, unlocks := false, 0;
    }

    method Release()
      modifies this
      ensures released
      ensures unlocks == old(unlocks) + if old(released) then 0 else 1
    {
      if released {
        return;
      }
      released := true;
      unlocks := unlocks + 1;
    }
  }

  // ----- the producer -----

  /** How many chunks the producer pulls: all of them, unless its task is cancelled first. */
  function PullLimit(source: Source, cancelAt: Option<nat>): nat {
    if cancelAt.Some? then Min(cancelAt.value, |Yielded(source)|) else |Yielded(source)|
  }

  /** Release a lease and note, if this is what unlocks it, how far the run had come. */
  method ReleaseAfter(lease: ResumeLease, pulled: nat, heldFor: nat) returns (heldFor': nat)
    modifies lease
    ensures lease.released
    ensures lease.unlocks == old(lease.unlocks) + if old(lease.released) then 0 else 1
    ensures heldFor' == if old(lease.released) then heldFor else pulled
  {
    heldFor' := if lease.released then heldFor else pulled;
    lease.Release();
  }

  /** Push chunks until the consumer is gone (after `detachAt` sends), then drain silently; release the
      lease on every way out. The task may be cancelled after `cancelAt` pulls, and one of the cleanups
      of the response may release the lease after `outsideAt` pulls, while the run still goes on.
      `heldFor` is how many chunks had been pulled when the lease was unlocked. */
  method RunGraphStream(source: Source, detachAt: nat, cancelAt: Option<nat>, outsideAt: Option<nat>, lease: ResumeLease)
    returns (sent: seq<Chunk>, pulled: nat, raised: bool, heldFor: nat)
    modifies lease
    ensures pulled == PullLimit(source, cancelAt)
    ensures sent == Yielded(source)[..Min(detachAt, pulled)]
    ensures raised <==> ProducerRaises(source) || (cancelAt.Some? && cancelAt.value <= |Yielded(source)|)
    ensures lease.released
    ensures lease.unlocks == old(lease.unlocks) + if old(lease.released) then 0 else 1
    ensures heldFor == if old(lease.released) then 0 else if outsideAt.Some? then Min(outsideAt.value, pulled) else pulled
  {
    sent, pulled, raised, heldFor := [], 0, false, 0;
    if source.startFails {
      lease.Release();          // the start handler
      raised := true;
      lease.Release();          // the finally block
      return;
    }
    var chunks := source.chunks;
    while pulled < |chunks| && !(cancelAt.Some? && cancelAt.value <= pulled)
      invariant pulled <= PullLimit(source, cancelAt)
      invariant sent == chunks[..Min(detachAt, pulled)]
      invariant lease.released == (old(lease.released) || (outsideAt.Some? && outsideAt.value < pulled))
      invariant lease.unlocks == old(lease.unlocks) + if lease.released && !old(lease.released) then 1 else 0
      invariant heldFor == if lease.released && !old(lease.released) then outsideAt.value else 0
    {
      if outsideAt == Some(pulled) {
        heldFor := ReleaseAfter(lease, pulled, heldFor);
      }
      if |sent| == pulled && pulled < detachAt {
        sent := sent + [chunks[pulled]];
      }                         // otherwise nobody listens any more
      pulled := pulled + 1;
    }
    raised := source.raises || (cancelAt.Some? && cancelAt.value <= |chunks|);
    heldFor := ReleaseAfter(lease, pulled, heldFor);
  }

  // ----- the trace -----

  datatype SseEvent = Open | Node(name: string) | Token(text: string) | Awaiting | Completed | Error | Done

  predicate IsInternal(name: string) {
    "__" <= name
  }

  function NodeEvents(names: seq<string>): seq<SseEvent> {
    if names == [] then []
    else
      var n := |names| - 1;
      NodeEvents(names[..n]) + if IsInternal(names[n]) then [] else [Node(names[n])]
  }

  /** What the client sees up to the end of the chunks, and whether they end in the approval interrupt. */
  datatype Body = Body(events: seq<SseEvent>, interrupted: bool)

  function AddChunk(body: Body, c: Chunk): Body {
    if body.interrupted then body
    else
      match c
      case Message(node, text) =>
        if node == "responder" && text != "" then body.(events := body.events + [Token(text)]) else body
      case Interrupt => body.(interrupted := true)
      case Update(names) => body.(events := body.events + NodeEvents(names))
  }

  function BodyOf(chunks: seq<Chunk>): Body {
    if chunks == [] then Body([Open], false)
    else AddChunk(BodyOf(chunks[..|chunks| - 1]), chunks[|chunks| - 1])
  }

  /** Failures of the interface itself: shaping the approval response, or reading the final state. */
  datatype Faults = Faults(responseFails: bool, snapshotFails: bool)

  function Ending(source: Source, faults: Faults, interrupted: bool): seq<SseEvent> {
    if interrupted then
      if faults.responseFails then [Error] else [Awaiting] + if ProducerRaises(source) then [Error] else []
    else if ProducerRaises(source) || faults.snapshotFails then [Error]
    else [Completed]
  }

  function FullTrace(source: Source, faults: Faults): seq<SseEvent> {
    var body := BodyOf(Yielded(source));
    body.events + Ending(source, faults, body.interrupted) + [Done]
  }

  /** Stopped at the `disconnectAt`-th yield, if the client goes away there. */
  function Cut(trace: seq<SseEvent>, disconnectAt: Option<nat>): seq<SseEvent> {
    if disconnectAt.Some? && disconnectAt.value < |trace| then trace[..disconnectAt.value] else trace
  }

  predicate Gone(trace: seq<SseEvent>, disconnectAt: Option<nat>) {
    disconnectAt == Some(|trace|)
  }

  /** Emit the progress events of one update, stopping if the client goes away. */
  method EmitNodes(names: seq<string>, before: seq<SseEvent>, disconnectAt: Option<nat>)
    returns (trace: seq<SseEvent>)
    requires disconnectAt.Some? ==> |before| < disconnectAt.value
    ensures trace == Cut(before + NodeEvents(names), disconnectAt)
  {
    trace := before;
    assert before + NodeEvents(names[..0]) == before;
    for i := 0 to |names|
      invariant trace == before + NodeEvents(names[..i])
      invariant disconnectAt.Some? ==> |trace| < disconnectAt.value
    {
      assert names[..i + 1][..i] == names[..i];
      if !IsInternal(names[i]) {
        trace := trace + [Node(names[i])];
        if Gone(trace, disconnectAt) {
          NodeEventsGrow(names, i + 1);
          assert trace <= before + NodeEvents(names);
          return;
        }
      }
    }
    assert names[..|names|] == names;
  }

  lemma {:induction false} NodeEventsGrow(names: seq<string>, n: nat)
    requires n <= |names|
    ensures NodeEvents(names[..n]) <= NodeEvents(names)
    decreases |names|
  {
    if n == |names| {
      assert names[..n] == names;
    } else {
      assert names[..|names| - 1][..n] == names[..n];
      NodeEventsGrow(names[..|names| - 1], n);
    }
  }

  lemma {:induction false} BodyGrows(chunks: seq<Chunk>, n: nat)
    requires n <= |chunks|
    ensures BodyOf(chunks[..n]).events <= BodyOf(chunks).events
    ensures BodyOf(chunks[..n]).interrupted ==> BodyOf(chunks) == BodyOf(chunks[..n])
    decreases |chunks|
  {
    if n == |chunks| {
      assert chunks[..n] == chunks;
    } else {
      assert chunks[..|chunks| - 1][..n] == chunks[..n];
      BodyGrows(chunks[..|chunks| - 1], n);
    }
  }

  /** Forward one chunk, unless it is the interrupt. */
  method Forward(c: Chunk, before: seq<SseEvent>, disconnectAt: Option<nat>)
    returns (trace: seq<SseEvent>, interrupted: bool)
    requires disconnectAt.Some? ==> |before| < disconnectAt.value
    ensures trace == Cut(AddChunk(Body(before, false), c).events, disconnectAt)
    ensures interrupted == AddChunk(Body(before, false), c).interrupted
    ensures interrupted ==> trace == before
    ensures disconnectAt.Some? ==> |trace| <= disconnectAt.value
  {
    trace, interrupted := before, false;
    match c {
      case Message(node, text) =>
        if node == "responder" && text != "" {
          trace := trace + [Token(text)];
        }
      case Interrupt =>
        interrupted := true;
      case Update(names) =>
        trace := EmitNodes(names, trace, disconnectAt);
    }
  }

  lemma BodyStep(chunks: seq<Chunk>, n: nat)
    requires n < |chunks|
    ensures BodyOf(chunks[..n + 1]) == AddChunk(BodyOf(chunks[..n]), chunks[n])
  {
    assert chunks[..n + 1][..n] == chunks[..n];
  }

  /** The consumer may stop after `n` chunks: at the end, at the interrupt, or when the client left. */
  lemma StopsRightly(chunks: seq<Chunk>, n: nat, disconnectAt: Option<nat>)
    requires n <= |chunks|
    requires var body := BodyOf(chunks[..n]);
             n == |chunks| || body.interrupted || (disconnectAt.Some? && disconnectAt.value <= |body.events|)
    ensures Cut(BodyOf(chunks[..n]).events, disconnectAt) == Cut(BodyOf(chunks).events, disconnectAt)
    ensures n == |chunks| || BodyOf(chunks[..n]).interrupted ==> BodyOf(chunks) == BodyOf(chunks[..n])
  {
    BodyGrows(chunks, n);
    assert n == |chunks| ==> chunks[..n] == chunks;
  }

  /** The consumer loop: forward chunks until they end, the interrupt arrives, or the client is gone. */
  method Consume(chunks: seq<Chunk>, disconnectAt: Option<nat>)
    returns (trace: seq<SseEvent>, interrupted: bool, consumed: nat)
    requires disconnectAt.Some? ==> 1 < disconnectAt.value
    ensures trace == Cut(BodyOf(chunks).events, disconnectAt)
    ensures !Gone(trace, disconnectAt) ==> interrupted == BodyOf(chunks).interrupted
    ensures consumed <= |chunks| && trace == Cut(BodyOf(chunks[..consumed]).events, disconnectAt)
    ensures interrupted == BodyOf(chunks[..consumed]).interrupted
  {
    trace, interrupted, consumed := [Open], false, 0;
    ghost var body := Body(trace, false);
    while consumed < |chunks| && !interrupted && !Gone(trace, disconnectAt)
      invariant consumed <= |chunks| && body == BodyOf(chunks[..consumed])
      invariant trace == Cut(body.events, disconnectAt) && interrupted == body.interrupted
      invariant disconnectAt.Some? ==> |trace| <= disconnectAt.value
      invariant !Gone(trace, disconnectAt) ==> trace == body.events
    {
      BodyStep(chunks, consumed);
      body := AddChunk(body, chunks[consumed]);
      trace, interrupted := Forward(chunks[consumed], trace, disconnectAt);
      consumed := consumed + 1;
    }
    StopsRightly(chunks, consumed, disconnectAt);
  }

  /** Emit one event after another until the client is gone. */
  method EmitAll(events: seq<SseEvent>, before: seq<SseEvent>, disconnectAt: Option<nat>)
    returns (trace: seq<SseEvent>)
    requires disconnectAt.Some? ==> |before| < disconnectAt.value
    ensures trace == Cut(before + events, disconnectAt)
  {
    trace := before;
    for i := 0 to |events|
      invariant trace == before + events[..i]
      invariant disconnectAt.Some? ==> |trace| < disconnectAt.value
    {
      trace := trace + [events[i]];
      if Gone(trace, disconnectAt) {
        assert trace == (before + events)[..|trace|];
        return;
      }
    }
    assert events[..|events|] == events;
  }

  /** After the body: how the run ended, and the closing event. */
  method EmitEnding(source: Source, faults: Faults, interrupted: bool, seen: seq<SseEvent>, disconnectAt: Option<nat>)
    returns (trace: seq<SseEvent>)
    requires var body := BodyOf(Yielded(source));
             && seen == Cut(body.events, disconnectAt)
             && (!Gone(seen, disconnectAt) ==> interrupted == body.interrupted)
    ensures trace == Cut(FullTrace(source, faults), disconnectAt)
  {
    trace := seen;
    if !Gone(trace, disconnectAt) {
      trace := EmitAll(Ending(source, faults, interrupted), trace, disconnectAt);
      if !Gone(trace, disconnectAt) {
        trace := EmitAll([Done], trace, disconnectAt);
      }
    }
  }

  /** The events a client may get while the run is still going: the body, and the first event after an
      interrupt. Whatever follows is sent after the producer was awaited. */
  function SentWhileRunning(source: Source): nat {
    var body := BodyOf(Yielded(source));
    |body.events| + if body.interrupted then 1 else 0
  }

  predicate LeavesEarly(source: Source, disconnectAt: Option<nat>) {
    disconnectAt.Some? && disconnectAt.value <= SentWhileRunning(source)
  }

  /** The lease went while the run had not committed yet and went on. */
  predicate ReleasedEarly(source: Source, pulled: nat, heldFor: nat) {
    heldFor < pulled && heldFor <= source.commits
  }

  /** What the client has been sent once `k` chunks are forwarded. */
  function SentBy(source: Source, k: nat): nat
    requires k <= |Yielded(source)|
  {
    var body := BodyOf(Yielded(source)[..k]);
    |body.events| + if body.interrupted then 1 else 0
  }

  /** The client gets more than what the chunks up to the commit have for it. */
  predicate StaysPastCommit(source: Source, disconnectAt: Option<nat>) {
    disconnectAt.None? || disconnectAt.value > SentBy(source, Min(source.commits + 1, |Yielded(source)|))
  }

  /** One streamed run from start to end. `buffered` is how many sends still succeed after the consumer
      has stopped reading. The lease is released by the producer, by the generator's cleanup and by the
      response's background task, and unlocks once whatever their order. If the client leaves while the
      run goes on, after `consumed` chunks, the producer may be cancelled (`cancelAt` pulls later) and a
      cleanup may come before the producer is done (`outsideAt` pulls later); if it stays, the lease covers
      the whole run, and if it stays past the commit, the release is not early. */
  method StreamLifecycle(source: Source, faults: Faults, disconnectAt: Option<nat>, buffered: nat,
                         cancelAt: Option<nat>, outsideAt: Option<nat>, lease: ResumeLease)
    returns (trace: seq<SseEvent>, consumed: nat, pulled: nat, heldFor: nat)
    modifies lease
    ensures trace == Cut(FullTrace(source, faults), disconnectAt)
    ensures lease.released
    ensures lease.unlocks == old(lease.unlocks) + if old(lease.released) then 0 else 1
    ensures heldFor <= pulled <= |Yielded(source)|
    ensures disconnectAt != Some(0) && (cancelAt.None? || !LeavesEarly(source, disconnectAt)) ==>
              pulled == |Yielded(source)|
    ensures !old(lease.released) && (outsideAt.None? || !LeavesEarly(source, disconnectAt)) ==> heldFor == pulled
    ensures !old(lease.released) && disconnectAt != Some(0) && LeavesEarly(source, disconnectAt) && outsideAt.Some? ==>
              heldFor == Min(consumed + outsideAt.value, pulled)
    ensures !old(lease.released) && StaysPastCommit(source, disconnectAt) ==> !ReleasedEarly(source, pulled, heldFor)
  {
    trace, consumed, pulled, heldFor := [], 0, 0, 0;
    if disconnectAt == Some(0) {
      lease.Release();          // background task; the body never ran
      return;
    }
    var sent, raised;
    if disconnectAt == Some(1) {
      trace := [Open];
      BodyGrows(Yielded(source), 0);
      OpenComesFirst(source);
      sent, pulled, raised, heldFor := RunGraphStream(source, buffered, cancelAt, outsideAt, lease);
    } else {
      var interrupted;
      trace, interrupted, consumed := Consume(Yielded(source), disconnectAt);
      var leftEarly := disconnectAt.Some? && disconnectAt.value <= |trace| + if interrupted then 1 else 0;
      EarlyLeaverIsKnown(source, disconnectAt, trace, interrupted);
      if leftEarly && StaysPastCommit(source, disconnectAt) {
        CommitIsConsumed(source, disconnectAt, trace, interrupted, consumed);
      }
      sent, pulled, raised, heldFor :=
        RunGraphStream(source, if leftEarly || interrupted then consumed + buffered else |Yielded(source)|,
                       if leftEarly && cancelAt.Some? then Some(consumed + cancelAt.value) else None,
                       if leftEarly && outsideAt.Some? then Some(consumed + outsideAt.value) else None, lease);
      assert |sent| >= consumed && sent <= Yielded(source);   // the consumer read a prefix of what was sent
      trace := EmitEnding(source, faults, interrupted, trace, disconnectAt);
    }
    lease.Release();            // generator cleanup
    lease.Release();            // background task
  }

  lemma OpenComesFirst(source: Source)
    ensures forall k | 0 <= k <= |Yielded(source)| :: SentBy(source, k) >= 1
  {
    forall k | 0 <= k <= |Yielded(source)| ensures SentBy(source, k) >= 1 {
      BodyGrows(Yielded(source)[..k], 0);
    }
  }

  /** A client that leaves after more than the chunks up to the commit had for it leaves after they were
      consumed. */
  lemma CommitIsConsumed(source: Source, disconnectAt: Option<nat>, trace: seq<SseEvent>, interrupted: bool, consumed: nat)
    requires consumed <= |Yielded(source)|
    requires trace == Cut(BodyOf(Yielded(source)[..consumed]).events, disconnectAt)
    requires interrupted == BodyOf(Yielded(source)[..consumed]).interrupted
    requires StaysPastCommit(source, disconnectAt)
    requires disconnectAt.Some? && disconnectAt.value <= |trace| + if interrupted then 1 else 0
    ensures consumed > source.commits
  {
    var k := Min(source.commits + 1, |Yielded(source)|);
    if consumed <= k {
      var chunks := Yielded(source)[..k];
      assert chunks[..consumed] == Yielded(source)[..consumed];
      BodyGrows(chunks, consumed);
    }
  }

  /** What the consumer sees tells whether the client left while the run was going. */
  lemma EarlyLeaverIsKnown(source: Source, disconnectAt: Option<nat>, trace: seq<SseEvent>, interrupted: bool)
    requires trace == Cut(BodyOf(Yielded(source)).events, disconnectAt)
    requires !Gone(trace, disconnectAt) ==> interrupted == BodyOf(Yielded(source)).interrupted
    ensures LeavesEarly(source, disconnectAt) <==>
            disconnectAt.Some? && disconnectAt.value <= |trace| + if interrupted then 1 else 0
  {
  }

  // ----- which run gives which trace -----

  function FirstInterrupt(chunks: seq<Chunk>): (k: nat)
    ensures k <= |chunks| && (forall j | 0 <= j < k :: !chunks[j].Interrupt?)
    ensures k < |chunks| ==> chunks[k].Interrupt?
  {
    if chunks == [] || chunks[0].Interrupt? then 0 else FirstInterrupt(chunks[1..]) + 1
  }

  lemma {:induction false} InterruptedIff(chunks: seq<Chunk>)
    ensures BodyOf(chunks).interrupted <==> Interrupt in chunks
  {
    if chunks != [] {
      var n := |chunks| - 1;
      InterruptedIff(chunks[..n]);
      assert chunks == chunks[..n] + [chunks[n]];
    }
  }

  /** The body stops growing at the interrupt. */
  lemma BodyStopsAtInterrupt(chunks: seq<Chunk>)
    ensures BodyOf(chunks).events == BodyOf(chunks[..FirstInterrupt(chunks)]).events
  {
    var k := FirstInterrupt(chunks);
    if k < |chunks| {
      InterruptedIff(chunks[..k]);
      BodyStep(chunks, k);
      BodyGrows(chunks, k + 1);
    } else {
      assert chunks[..k] == chunks;
    }
  }

  ghost predicate OnlyProgress(events: seq<SseEvent>) {
    forall e | e in events :: e.Open? || e.Node? || e.Token?
  }

  lemma {:induction false} NodesAreProgress(names: seq<string>)
    ensures OnlyProgress(NodeEvents(names))
  {
    if names != [] {
      NodesAreProgress(names[..|names| - 1]);
    }
  }

  lemma {:induction false} BodyIsProgress(chunks: seq<Chunk>)
    ensures OnlyProgress(BodyOf(chunks).events)
  {
    if chunks != [] {
      var n := |chunks| - 1;
      BodyIsProgress(chunks[..n]);
      if chunks[n].Update? {
        NodesAreProgress(chunks[n].nodes);
      }
    }
  }

  /** The undisturbed trace says how the run went: completed exactly after a run that started, did not raise,
      asked for no approval and could be read; awaiting exactly if an approval was asked for and could be
      shown; error exactly if the start, the run, the approval response or the final read failed. */
  lemma EndingTellsTheRun(source: Source, faults: Faults)
    ensures Completed in FullTrace(source, faults) <==>
            !source.startFails && !source.raises && Interrupt !in source.chunks && !faults.snapshotFails
    ensures Awaiting in FullTrace(source, faults) <==>
            !source.startFails && Interrupt in source.chunks && !faults.responseFails
    ensures Error in FullTrace(source, faults) <==>
            || source.startFails || source.raises
            || (if Interrupt in source.chunks then faults.responseFails else faults.snapshotFails)
  {
    BodyIsProgress(Yielded(source));
    InterruptedIff(Yielded(source));
    var body := BodyOf(Yielded(source));
    var end := Ending(source, faults, body.interrupted);
    assert forall e :: e in FullTrace(source, faults) <==> e in body.events || e in end || e == Done;
  }

  function TokensIn(trace: seq<SseEvent>): seq<string> {
    if trace == [] then []
    else
      var n := |trace| - 1;
      TokensIn(trace[..n]) + if trace[n].Token? then [trace[n].text] else []
  }

  function NodesIn(trace: seq<SseEvent>): seq<string> {
    if trace == [] then []
    else
      var n := |trace| - 1;
      NodesIn(trace[..n]) + if trace[n].Node? then [trace[n].name] else []
  }

  lemma {:induction false} TokensInConcat(a: seq<SseEvent>, b: seq<SseEvent>)
    ensures TokensIn(a + b) == TokensIn(a) + TokensIn(b)
    ensures NodesIn(a + b) == NodesIn(a) + NodesIn(b)
  {
    if b == [] {
      assert a + b == a;
    } else {
      var n := |b| - 1;
      TokensInConcat(a, b[..n]);
      assert (a + b)[..|a + b| - 1] == a + b[..n];
    }
  }

  /** What the responder said, piece by piece. */
  function ResponderTexts(chunks: seq<Chunk>): seq<string> {
    if chunks == [] then []
    else
      var n := |chunks| - 1;
      ResponderTexts(chunks[..n]) +
      if chunks[n].Message? && chunks[n].node == "responder" && chunks[n].text != "" then [chunks[n].text] else []
  }

  function VisibleNames(names: seq<string>): seq<string> {
    if names == [] then []
    else VisibleNames(names[..|names| - 1]) + if "__" <= names[|names| - 1] then [] else [names[|names| - 1]]
  }

  /** The nodes the run went through, internal ones left out. */
  function NodesVisited(chunks: seq<Chunk>): seq<string> {
    if chunks == [] then []
    else
      var n := |chunks| - 1;
      NodesVisited(chunks[..n]) + if chunks[n].Update? then VisibleNames(chunks[n].nodes) else []
  }

  lemma {:induction false} NodeEventsNameNodes(names: seq<string>)
    ensures TokensIn(NodeEvents(names)) == [] && NodesIn(NodeEvents(names)) == VisibleNames(names)
  {
    if names != [] {
      var n := |names| - 1;
      NodeEventsNameNodes(names[..n]);
      var before := NodeEvents(names[..n]);
      if IsInternal(names[n]) {
        assert NodeEvents(names) == before;
      } else {
        assert NodeEvents(names) == before + [Node(names[n])] && NodeEvents(names)[..|before|] == before;
      }
    }
  }

  lemma ChunkTells(body: Body, c: Chunk)
    requires !body.interrupted
    ensures TokensIn(AddChunk(body, c).events) == TokensIn(body.events) +
              if c.Message? && c.node == "responder" && c.text != "" then [c.text] else []
    ensures NodesIn(AddChunk(body, c).events) == NodesIn(body.events) +
              if c.Update? then VisibleNames(c.nodes) else []
  {
    match c
    case Message(_, text) =>
      assert (body.events + [Token(text)])[..|body.events|] == body.events;
    case Interrupt =>
    case Update(names) =>
      TokensInConcat(body.events, NodeEvents(names));
      NodeEventsNameNodes(names);
  }

  lemma {:induction false} BodyTells(chunks: seq<Chunk>)
    requires Interrupt !in chunks
    ensures TokensIn(BodyOf(chunks).events) == ResponderTexts(chunks)
    ensures NodesIn(BodyOf(chunks).events) == NodesVisited(chunks)
  {
    InterruptedIff(chunks);
    if chunks == [] {
      assert BodyOf(chunks).events[..0] == [];
    } else {
      var n := |chunks| - 1;
      InterruptedIff(chunks[..n]);
      BodyTells(chunks[..n]);
      ChunkTells(BodyOf(chunks[..n]), chunks[n]);
    }
  }

  lemma {:induction false} EndingIsSilent(end: seq<SseEvent>)
    requires forall i | 0 <= i < |end| :: !end[i].Token? && !end[i].Node?
    ensures TokensIn(end) == [] && NodesIn(end) == []
  {
    if end != [] {
      EndingIsSilent(end[..|end| - 1]);
    }
  }

  lemma OnlyTheBodyTells(source: Source, faults: Faults)
    ensures TokensIn(FullTrace(source, faults)) == TokensIn(BodyOf(Yielded(source)).events)
    ensures NodesIn(FullTrace(source, faults)) == NodesIn(BodyOf(Yielded(source)).events)
  {
    var body := BodyOf(Yielded(source));
    var end := Ending(source, faults, body.interrupted) + [Done];
    EndingIsSilent(end);
    assert FullTrace(source, faults) == body.events + end;
    TokensInConcat(body.events, end);
  }

  /** The tokens of the undisturbed trace are exactly what the responder said before the interrupt, and its
      progress events exactly the nodes visited before it, each in order. */
  lemma TraceTellsTheRun(source: Source, faults: Faults)
    ensures var before := Yielded(source)[..FirstInterrupt(Yielded(source))];
            && TokensIn(FullTrace(source, faults)) == ResponderTexts(before)
            && NodesIn(FullTrace(source, faults)) == NodesVisited(before)
  {
    var chunks := Yielded(source);
    OnlyTheBodyTells(source, faults);
    BodyStopsAtInterrupt(chunks);
    BodyTells(chunks[..FirstInterrupt(chunks)]);
  }

  // ----- the traces are exactly a regular language -----

  datatype Phase = Fresh | Underway | Waiting | Ended | Final | Dead

  function Advance(phase: Phase, e: SseEvent): Phase {
    match (phase, e)
    case (Fresh, Open) => Underway
    case (Underway, Node(name)) => if IsInternal(name) then Dead else Underway
    case (Underway, Token(text)) => if text == "" then Dead else Underway
    case (Underway, Awaiting) => Waiting
    case (Underway, Completed) => Ended
    case (Underway, Error) => Ended
    case (Waiting, Error) => Ended
    case (Waiting, Done) => Final
    case (Ended, Done) => Final
    case _ => Dead
  }

  /** open (node | token)* (awaiting error? | completed | error) done, as an automaton. */
  function After(trace: seq<SseEvent>): Phase {
    if trace == [] then Fresh else Advance(After(trace[..|trace| - 1]), trace[|trace| - 1])
  }

  lemma AfterAppend(trace: seq<SseEvent>, e: SseEvent)
    ensures After(trace + [e]) == Advance(After(trace), e)
  {
    assert (trace + [e])[..|trace|] == trace;
  }

  lemma {:induction false} AfterNodes(trace: seq<SseEvent>, names: seq<string>)
    requires After(trace) == Underway
    ensures After(trace + NodeEvents(names)) == Underway
  {
    if names == [] {
      assert trace + NodeEvents(names) == trace;
    } else {
      var n := |names| - 1;
      AfterNodes(trace, names[..n]);
      var head := trace + NodeEvents(names[..n]);
      if IsInternal(names[n]) {
        assert trace + NodeEvents(names) == head;
      } else {
        AfterAppend(head, Node(names[n]));
        assert trace + NodeEvents(names) == head + [Node(names[n])];
      }
    }
  }

  lemma {:induction false} AfterBody(chunks: seq<Chunk>)
    ensures After(BodyOf(chunks).events) == Underway
  {
    if chunks == [] {
      AfterAppend([], Open);
    } else {
      var n := |chunks| - 1;
      AfterBody(chunks[..n]);
      AfterChunk(BodyOf(chunks[..n]), chunks[n]);
    }
  }

  lemma AfterChunk(body: Body, c: Chunk)
    requires After(body.events) == Underway
    ensures After(AddChunk(body, c).events) == Underway
  {
    match c
    case Message(_, text) => AfterAppend(body.events, Token(text));
    case Interrupt =>
    case Update(names) => AfterNodes(body.events, names);
  }

  /** Every undisturbed trace is in the language. */
  lemma TraceIsWellFormed(source: Source, faults: Faults)
    ensures After(FullTrace(source, faults)) == Final
  {
    var body := BodyOf(Yielded(source));
    AfterBody(Yielded(source));
    assert [Awaiting] + [Error] == [Awaiting, Error] && [Awaiting] + [] == [Awaiting];
    AfterEnding(body.events, Ending(source, faults, body.interrupted));
  }

  lemma AfterEnding(head: seq<SseEvent>, end: seq<SseEvent>)
    requires After(head) == Underway
    requires end in {[Awaiting], [Awaiting, Error], [Completed], [Error]}
    ensures After(head + end + [Done]) == Final
  {
    AfterAppend(head, end[0]);
    if |end| == 1 {
      assert end == [end[0]];
    } else {
      assert head + end == head + [end[0]] + [end[1]];
      AfterAppend(head + [end[0]], end[1]);
    }
    AfterAppend(head + end, Done);
  }

  lemma {:induction false} BodyIsRealizable(trace: seq<SseEvent>) returns (chunks: seq<Chunk>)
    requires After(trace) == Underway
    ensures BodyOf(chunks) == Body(trace, false)
  {
    var n := |trace| - 1;
    var last := trace[n];
    assert trace == trace[..n] + [last];
    if n == 0 {
      chunks := [];
    } else {
      var before := BodyIsRealizable(trace[..n]);
      var c := if last.Node? then Update([last.name]) else Message("responder", last.text);
      chunks := before + [c];
      assert chunks[..|chunks| - 1] == before;
      if last.Node? {
        assert [last.name][..0] == [];
        assert NodeEvents([last.name]) == [Node(last.name)];
      }
    }
  }

  lemma PlainRun(u: seq<SseEvent>, last: SseEvent)
    requires After(u) == Underway && last in {Completed, Error}
    ensures exists source, faults :: FullTrace(source, faults) == u + [last] + [Done]
  {
    var chunks := BodyIsRealizable(u);
    var source := Source(false, chunks, last == Error, 0);
    assert FullTrace(source, Faults(false, false)) == u + [last] + [Done];
  }

  lemma InterruptedRun(u: seq<SseEvent>, raises: bool)
    requires After(u) == Underway
    ensures exists source, faults ::
              FullTrace(source, faults) == u + ([Awaiting] + if raises then [Error] else []) + [Done]
  {
    var chunks := BodyIsRealizable(u);
    var source := Source(false, chunks + [Interrupt], raises, 0);
    assert BodyOf(Yielded(source)) == Body(u, true) by {
      assert (chunks + [Interrupt])[..|chunks|] == chunks;
    }
    assert FullTrace(source, Faults(false, false)) == u + Ending(source, Faults(false, false), true) + [Done];
  }

  lemma LastEvent(trace: seq<SseEvent>) returns (before: seq<SseEvent>, e: SseEvent)
    requires After(trace) != Fresh
    ensures trace == before + [e] && After(trace) == Advance(After(before), e)
  {
    before, e := trace[..|trace| - 1], trace[|trace| - 1];
  }

  /** A word of the language is a body, one of four endings and the closing event. */
  lemma FinalShape(trace: seq<SseEvent>) returns (u: seq<SseEvent>, end: seq<SseEvent>)
    requires After(trace) == Final
    ensures After(u) == Underway && trace == u + end + [Done]
    ensures end == [Awaiting] || end == [Awaiting, Error] || end == [Completed] || end == [Error]
  {
    var t, done := LastEvent(trace);
    var v, last := LastEvent(t);
    if After(v) == Waiting {
      var awaiting;
      u, awaiting := LastEvent(v);
      end := [awaiting, last];
    } else {
      u, end := v, [last];
    }
  }

  /** And nothing else is: every trace of the language is the trace of some run. */
  lemma EveryWellFormedTraceHappens(trace: seq<SseEvent>)
    requires After(trace) == Final
    ensures exists source, faults :: FullTrace(source, faults) == trace
  {
    var u, end := FinalShape(trace);
    if end[0] == Awaiting {
      assert [Awaiting] + [] == [Awaiting] && [Awaiting] + [Error] == [Awaiting, Error];
      InterruptedRun(u, |end| == 2);
    } else {
      PlainRun(u, end[0]);
    }
  }
}
