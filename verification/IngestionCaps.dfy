/** The caps on what one document's extraction may leave in the graph. */
module IngestionCaps {
  import opened Collections
  import opened Text
  import opened ReadAccess
  import opened Chunking
  import opened KnowledgeStore
  import opened Ingestion
  import opened IngestionSafety
  import opened IngestionFrames
  import opened IngestionIsolation

  function IdsUnder(g: Graph, prefix: string): set<string> {
    set id | id in g.entities && prefix <= id
  }

  function EdgesUnder(relations: seq<Relation>, prefix: string): set<Relation> {
    set e | e in relations && Touches(e, prefix)
  }

  /** A document's extracted entities and the edges that touch them are within the caps. */
  ghost predicate WithinCaps(cfg: Config, g: Graph, owner: string, source: string) {
    var prefix := ExtractionPrefix(owner, source);
    |IdsUnder(g, prefix)| <= cfg.maxEntities && |EdgesUnder(g.relations, prefix)| <= cfg.maxRelations
  }

  lemma FewIds(es: seq<Entity>, ids: set<string>)
    requires forall id | id in ids :: HasId(es, id)
    ensures |ids| <= |es|
  {
    forall id | id in ids ensures id in Elements(Ids(es)) {
      var e :| e in es && e.id == id;
      var i :| 0 <= i < |es| && es[i] == e;
      assert Ids(es)[i] == id;
    }
    ElementsAreNoMore(Ids(es));
    SubsetIsNoLarger(ids, Elements(Ids(es)));
  }

  /** An enriched ingest leaves exactly its own, capped extraction under its prefix, whatever ids the
      rest of the graph uses. */
  lemma EnrichedIngestIsCapped(cfg: Config, r: Request, g: Graph, stamp: Stamp)
    requires ValidConfig(cfg) && Healthy(g) && Accepted(cfg, r) == Some(stamp) && Enriched(cfg, r)
    ensures WithinCaps(cfg, Ingest(cfg, r, g), stamp.owner, SourceId(cfg, r.doc))
  {
    var source, result := SourceId(cfg, r.doc), r.extraction.result;
    var prefix := ExtractionPrefix(stamp.owner, source);
    var es, rs := ConceptsOf(cfg, stamp, source, result.entities).entities, EdgesOf(cfg, stamp, source, result);
    var g' := Ingest(cfg, r, g);
    WriteChunks(cfg, r, stamp, g);
    ConceptsAreCapped(cfg, stamp, source, result.entities);
    EdgesAreGood(cfg, stamp, source, result);
    PersistContents(UpsertAll(g, WrittenChunks(cfg, r, stamp)), prefix, es, rs);
    forall id | id in IdsUnder(g', prefix) ensures HasId(es, id) {}
    FewIds(es, IdsUnder(g', prefix));
    ElementsAreNoMore(rs);
    SubsetIsNoLarger(EdgesUnder(g'.relations, prefix), Elements(rs));
  }

  /** The exact condition under which an ingest cannot break a document's caps: its own document does not
      lie within that document's extraction. */
  predicate KeepsClear(owner: string, source: string, owner': string, source': string) {
    !(ExtractionPrefix(owner, source) <= DocumentPrefix(owner', source'))
  }

  lemma NothingNewUnder(cfg: Config, r: Request, stamp: Stamp, owner: string, source: string, id: string)
    requires ValidConfig(cfg) && KeepsClear(owner, source, stamp.owner, SourceId(cfg, r.doc))
    requires !(Enriched(cfg, r) && ExtractionPrefix(stamp.owner, SourceId(cfg, r.doc)) <= ExtractionPrefix(owner, source))
    requires ExtractionPrefix(owner, source) <= id
    ensures !HasId(Written(cfg, r, stamp), id)
    ensures forall i: nat :: id != ChunkId(stamp.owner, SourceId(cfg, r.doc), i)
    ensures Enriched(cfg, r) ==> !(ExtractionPrefix(stamp.owner, SourceId(cfg, r.doc)) <= id)
  {
    var source' := SourceId(cfg, r.doc);
    var p, p' := ExtractionPrefix(owner, source), ExtractionPrefix(stamp.owner, source');
    PrefixShapes(owner, source);
    forall i: nat ensures id != ChunkId(stamp.owner, source', i) {
      ChunkUnder(p, stamp.owner, source', i);
    }
    assert Enriched(cfg, r) ==> !(p' <= id) by {
      if Enriched(cfg, r) && p' <= id {
        PrefixesCompare(p, p', id);
        ExtractionWithin(owner, source, stamp.owner, source');
      }
    }
    assert !Enriched(cfg, r) ==> Written(cfg, r, stamp) == WrittenChunks(cfg, r, stamp);
    if HasId(Written(cfg, r, stamp), id) {
      WrittenIsOwned(cfg, r, stamp, id);
    }
  }

  lemma NoNewEdgeUnder(cfg: Config, r: Request, g: Graph, stamp: Stamp, owner: string, source: string, e: Relation)
    requires ValidConfig(cfg) && Healthy(g) && KeepsClear(owner, source, stamp.owner, SourceId(cfg, r.doc))
    requires !(Enriched(cfg, r) && ExtractionPrefix(stamp.owner, SourceId(cfg, r.doc)) <= ExtractionPrefix(owner, source))
    requires Accepted(cfg, r) == Some(stamp) && e in Ingest(cfg, r, g).relations && Touches(e, ExtractionPrefix(owner, source))
    ensures e in g.relations
  {
    var source', chunks := SourceId(cfg, r.doc), WrittenChunks(cfg, r, stamp);
    UpsertAllContents(g, chunks);
    if Enriched(cfg, r) {
      var result := r.extraction.result;
      var es, rs := ConceptsOf(cfg, stamp, source', result.entities).entities, EdgesOf(cfg, stamp, source', result);
      var end := if ExtractionPrefix(owner, source) <= e.src then e.src else e.dst;
      WriteChunks(cfg, r, stamp, g);
      ConceptsAreCapped(cfg, stamp, source', result.entities);
      EdgesAreGood(cfg, stamp, source', result);
      PersistContents(UpsertAll(g, chunks), ExtractionPrefix(stamp.owner, source'), es, rs);
      NothingNewUnder(cfg, r, stamp, owner, source, end);
      forall id | HasId(es, id) ensures HasId(Written(cfg, r, stamp), id) {
        var c :| c in es && c.id == id;
        assert c in Written(cfg, r, stamp);
      }
    }
  }

  /** An ingest of a document outside this document's extraction keeps the caps: it adds nothing there, or
      it replaces all of it by its own capped extraction. */
  lemma ClearIngestKeepsCaps(cfg: Config, r: Request, g: Graph, stamp: Stamp, owner: string, source: string)
    requires ValidConfig(cfg) && Healthy(g) && Accepted(cfg, r) == Some(stamp) && WithinCaps(cfg, g, owner, source)
    requires KeepsClear(owner, source, stamp.owner, SourceId(cfg, r.doc))
    ensures WithinCaps(cfg, Ingest(cfg, r, g), owner, source)
  {
    var g' := Ingest(cfg, r, g);
    var p, p' := ExtractionPrefix(owner, source), ExtractionPrefix(stamp.owner, SourceId(cfg, r.doc));
    if Enriched(cfg, r) && p' <= p {
      EnrichedIngestIsCapped(cfg, r, g, stamp);
      forall id | id in IdsUnder(g', p) ensures id in IdsUnder(g', p') {
        PrefixOfPrefix(p', p, id);
      }
      forall e | e in EdgesUnder(g'.relations, p) ensures e in EdgesUnder(g'.relations, p') {
        PrefixOfPrefix(p', p, if p <= e.src then e.src else e.dst);
      }
      SubsetIsNoLarger(IdsUnder(g', p), IdsUnder(g', p'));
      SubsetIsNoLarger(EdgesUnder(g'.relations, p), EdgesUnder(g'.relations, p'));
    } else {
      forall id | id in IdsUnder(g', p) ensures id in IdsUnder(g, p) {
        NothingNewUnder(cfg, r, stamp, owner, source, id);
        IngestLookup(cfg, r, g, stamp, id);
        LastWithExists(Written(cfg, r, stamp), id);
      }
      forall e | e in EdgesUnder(g'.relations, p) ensures e in EdgesUnder(g.relations, p) {
        NoNewEdgeUnder(cfg, r, g, stamp, owner, source, e);
      }
      SubsetIsNoLarger(IdsUnder(g', p), IdsUnder(g, p));
      SubsetIsNoLarger(EdgesUnder(g'.relations, p), EdgesUnder(g.relations, p));
    }
  }

  /** An ingest of a document within this document's extraction breaks the caps with any text of more
      chunks than the cap. */
  lemma LongDocumentBreaksCaps(cfg: Config, r: Request, g: Graph, stamp: Stamp, owner: string, source: string)
    requires ValidConfig(cfg) && Healthy(g) && Accepted(cfg, r) == Some(stamp)
    requires !KeepsClear(owner, source, stamp.owner, SourceId(cfg, r.doc))
    requires |WrittenChunks(cfg, r, stamp)| > cfg.maxEntities
    ensures !WithinCaps(cfg, Ingest(cfg, r, g), owner, source)
  {
    var chunks, p := WrittenChunks(cfg, r, stamp), ExtractionPrefix(owner, source);
    IngestHoldsChunks(cfg, r, g);
    ChunksHaveDistinctIds(cfg, r, stamp);
    ElementsAreNoMore(Ids(chunks));
    PrefixShapes(owner, source);
    forall id | id in Elements(Ids(chunks)) ensures id in IdsUnder(Ingest(cfg, r, g), p) {
      var i :| 0 <= i < |chunks| && Ids(chunks)[i] == id;
      ChunkUnder(p, stamp.owner, SourceId(cfg, r.doc), i);
      assert chunks[i] in chunks;
    }
    SubsetIsNoLarger(Elements(Ids(chunks)), IdsUnder(Ingest(cfg, r, g), p));
  }

  /** So a request with a long text keeps another document's caps exactly if it keeps clear of that
      document's extraction. */
  lemma CapsKeptIff(cfg: Config, r: Request, g: Graph, stamp: Stamp, owner: string, source: string)
    requires ValidConfig(cfg) && Healthy(g) && Accepted(cfg, r) == Some(stamp) && WithinCaps(cfg, g, owner, source)
    requires |WrittenChunks(cfg, r, stamp)| > cfg.maxEntities
    ensures WithinCaps(cfg, Ingest(cfg, r, g), owner, source) <==>
            KeepsClear(owner, source, stamp.owner, SourceId(cfg, r.doc))
  {
    if KeepsClear(owner, source, stamp.owner, SourceId(cfg, r.doc)) {
      ClearIngestKeepsCaps(cfg, r, g, stamp, owner, source);
    } else {
      LongDocumentBreaksCaps(cfg, r, g, stamp, owner, source);
    }
  }

  lemma MulKeepsOrder(a: nat, b: nat, k: nat)
    requires a <= b
    ensures a * k <= b * k
  {
  }

  lemma CountExceeds(count: nat, cap: nat, step: nat, rest: nat)
    requires cap * step < rest <= count * step
    ensures count > cap
  {
    if count <= cap {
      MulKeepsOrder(count, cap, step);
    }
  }

  lemma ManyChunks(text: string, size: nat, overlap: nat, cap: nat)
    requires overlap < size < |text| && !IsSpace(text[0]) && !IsSpace(text[|text| - 1])
    requires cap * (size - overlap) < |text| - overlap
    ensures |ChunksOf(text, size, overlap)| > cap
  {
    assert Strip(text) == text;
    ChunkCount(text, size, overlap, 0);
    CountExceeds(|ChunksOf(text, size, overlap)|, cap, size - overlap, |text| - overlap);
  }

  /** There is a text of more chunks than any cap. */
  lemma LongTextExists(size: nat, overlap: nat, cap: nat) returns (text: string)
    requires overlap < size
    ensures |ChunksOf(text, size, overlap)| > cap
  {
    var step: nat := size - overlap;
    MulKeepsOrder(0, cap, step);
    text := PlainText(size + overlap + 1 + cap * step);
    ManyChunks(text, size, overlap, cap);
  }

  lemma PlainText(n: nat) returns (text: string)
    requires n > 0
    ensures |text| == n && !IsSpace(text[0]) && !IsSpace(text[n - 1])
  {
    text := seq(n, _ => 'x');
  }

  ghost predicate KeepsCaps(cfg: Config, r: Request, g: Graph, owner: string, source: string)
    requires ValidConfig(cfg)
  {
    Healthy(g) && WithinCaps(cfg, g, owner, source) ==> WithinCaps(cfg, Ingest(cfg, r, g), owner, source)
  }

  /** For a document somebody may ingest: every request for it, on every graph, keeps another document's
      caps exactly if it keeps clear of that document's extraction. */
  lemma DocumentKeepsCapsIff(cfg: Config, sample: Request, owner: string, source: string, owner': string, source': string)
    requires ValidConfig(cfg) && IsFor(cfg, sample, owner', source')
    ensures (forall r, g | IsFor(cfg, r, owner', source') :: KeepsCaps(cfg, r, g, owner, source)) <==>
            KeepsClear(owner, source, owner', source')
  {
    if KeepsClear(owner, source, owner', source') {
      forall r, g | IsFor(cfg, r, owner', source') ensures KeepsCaps(cfg, r, g, owner, source) {
        if Healthy(g) && WithinCaps(cfg, g, owner, source) {
          ClearIngestKeepsCaps(cfg, r, g, Accepted(cfg, r).value, owner, source);
        }
      }
    } else {
      var r := SomeRequestBreaksCaps(cfg, sample, owner, source, owner', source');
    }
  }

  lemma SomeRequestBreaksCaps(cfg: Config, sample: Request, owner: string, source: string, owner': string, source': string)
    returns (r: Request)
    requires ValidConfig(cfg) && IsFor(cfg, sample, owner', source') && !KeepsClear(owner, source, owner', source')
    ensures IsFor(cfg, r, owner', source') && !KeepsCaps(cfg, r, EMPTY, owner, source)
  {
    var text := LongTextExists(cfg.size, cfg.overlap, cfg.maxEntities);
    r := sample.(doc := sample.doc.(text := text), fault := NoFault);
    var stamp := Accepted(cfg, sample).value;
    assert Accepted(cfg, r) == Some(stamp);
    assert |WrittenChunks(cfg, r, stamp)| == |ChunksOf(text, cfg.size, cfg.overlap)|;
    assert IdsUnder(EMPTY, ExtractionPrefix(owner, source)) == {} && EdgesUnder([], ExtractionPrefix(owner, source)) == {};
    LongDocumentBreaksCaps(cfg, r, EMPTY, stamp, owner, source);
  }

  ghost predicate Clear(cfg: Config, r: Request, owner: string, source: string)
    requires ValidConfig(cfg)
  {
    Accepted(cfg, r).Some? ==> KeepsClear(owner, source, Accepted(cfg, r).value.owner, SourceId(cfg, r.doc))
  }

  /** After any sequence of ingests, failing extractors and store faults included, a document's extraction
      is within the caps, provided no ingested document lies within it. */
  lemma {:induction false} EveryDocumentIsCapped(cfg: Config, requests: seq<Request>, owner: string, source: string)
    requires ValidConfig(cfg) && forall i | 0 <= i < |requests| :: Clear(cfg, requests[i], owner, source)
    ensures WithinCaps(cfg, Replay(cfg, requests), owner, source)
  {
    if requests == [] {
      assert IdsUnder(EMPTY, ExtractionPrefix(owner, source)) == {};
      assert EdgesUnder([], ExtractionPrefix(owner, source)) == {};
    } else {
      var n := |requests| - 1;
      EveryDocumentIsCapped(cfg, requests[..n], owner, source);
      GraphStaysHealthy(cfg, requests[..n]);
      if Accepted(cfg, requests[n]).Some? {
        ClearIngestKeepsCaps(cfg, requests[n], Replay(cfg, requests[..n]), Accepted(cfg, requests[n]).value, owner, source);
      }
    }
  }

  /** Colon-free user and source ids are enough for that. */
  lemma PlainRequestsAreClear(cfg: Config, r: Request, owner: string, source: string)
    requires ValidConfig(cfg) && (r.principal.Some? ==> ColonFree(r.principal.value.userId))
    requires ColonFree(SourceId(cfg, r.doc)) && PlainOwner(owner) && ColonFree(source)
    ensures Clear(cfg, r, owner, source)
  {
    if Accepted(cfg, r).Some? {
      var stamp := Accepted(cfg, r).value;
      assert PlainOwner(stamp.owner);
      PrefixShapes(owner, source);
      if !KeepsClear(owner, source, stamp.owner, SourceId(cfg, r.doc)) {
        DocumentsAreSeparate(owner, source, stamp.owner, SourceId(cfg, r.doc));
      }
    }
  }
}
