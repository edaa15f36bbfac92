/** Re-ingesting the same document, reading it back, and what one ingest may touch. */
module IngestionFrames {
  import opened Collections
  import opened Text
  import opened ReadAccess
  import opened Chunking
  import opened KnowledgeStore
  import opened Ingestion
  import opened IngestionSafety

  // ----- chunk ids are distinct -----

  function Value(s: string): int {
    if s == "" then 0 else 10 * Value(s[..|s| - 1]) + (s[|s| - 1] as int - '0' as int)
  }

  lemma {:induction false} DecimalValue(n: nat)
    ensures Value(Decimal(n)) == n
  {
    var s := Decimal(n);
    if n < 10 {
      assert s[..0] == "";
    } else {
      DecimalValue(n / 10);
      assert s[..|s| - 1] == Decimal(n / 10);
    }
  }

  lemma {:induction false} LeadingZeros(k: nat, s: string)
    ensures Value(seq(k, _ => '0') + s) == Value(s)
  {
    var whole := seq(k, _ => '0') + s;
    if s != "" {
      LeadingZeros(k, s[..|s| - 1]);
      assert whole[..|whole| - 1] == seq(k, _ => '0') + s[..|s| - 1];
    } else if k > 0 {
      LeadingZeros(k - 1, "");
      assert whole[..k - 1] == seq(k - 1, _ => '0') + "";
    }
  }

  /** `{n:04d}`: at least four digits that read as the number, and zeros in front only to make four. */
  lemma PaddedReads(n: nat)
    ensures Value(Padded(n)) == n && |Padded(n)| >= 4
    ensures |Padded(n)| > 4 ==> Padded(n)[0] != '0'
  {
    DecimalValue(n);
    NoLeadingZero(n);
    if |Decimal(n)| < 4 {
      LeadingZeros(4 - |Decimal(n)|, Decimal(n));
    }
  }

  lemma {:induction false} NoLeadingZero(n: nat)
    ensures |Decimal(n)| > 1 ==> Decimal(n)[0] != '0'
  {
    if n >= 10 {
      NoLeadingZero(n / 10);
      DecimalValue(n / 10);
      assert Decimal(n)[0] == Decimal(n / 10)[0];
      if |Decimal(n / 10)| == 1 {
        assert Decimal(n / 10) == [Digit(n / 10)];
      }
    }
  }

  lemma PaddedIsInjective(i: nat, j: nat)
    requires Padded(i) == Padded(j)
    ensures i == j
  {
    PaddedReads(i);
    PaddedReads(j);
  }

  lemma ChunkIdIsInjective(owner: string, source: string, i: nat, j: nat)
    requires ChunkId(owner, source, i) == ChunkId(owner, source, j)
    ensures i == j
  {
    var n := |DocumentPrefix(owner, source)|;
    assert ChunkId(owner, source, i)[n..] == Padded(i) && ChunkId(owner, source, j)[n..] == Padded(j);
    PaddedIsInjective(i, j);
  }

  // ----- the audit entry of an ingest -----

  /** A number up to the next blank can be read in one way only. */
  lemma DecimalCut(a: nat, t: string, b: nat, u: string)
    requires Decimal(a) + t == Decimal(b) + u
    requires (t == "" || t[0] == ' ') && (u == "" || u[0] == ' ')
    ensures a == b && t == u
  {
    var m, n, x := |Decimal(a)|, |Decimal(b)|, Decimal(a) + t;
    assert (forall i | 0 <= i < m :: '0' <= x[i] <= '9') && (m < |x| ==> x[m] == ' ');
    assert (forall i | 0 <= i < n :: '0' <= x[i] <= '9') && (n < |x| ==> x[n] == ' ') by {
      assert x == Decimal(b) + u;
    }
    assert (Decimal(a) + t)[..m] == Decimal(a) && (Decimal(b) + u)[..m] == Decimal(b);
    assert (Decimal(a) + t)[m..] == t && (Decimal(b) + u)[m..] == u;
    DecimalValue(a);
    DecimalValue(b);
  }

  lemma CountTells(key: string, a: Option<nat>, t: string, b: Option<nat>, u: string)
    requires |key| > 1 && key[0] == ' ' && key[1] == 'e'
    requires t == "" || (|t| > 1 && t[0] == ' ' && t[1] == 'r')
    requires u == "" || (|u| > 1 && u[0] == ' ' && u[1] == 'r')
    requires ShowCount(key, a) + t == ShowCount(key, b) + u
    ensures a == b && t == u
  {
    var x := ShowCount(key, a) + t;
    assert if a.Some? then x[1] == 'e' else x == t;
    assert if b.Some? then x[1] == 'e' else x == u;
    if a.Some? {
      assert (key + Decimal(a.value) + t)[|key|..] == Decimal(a.value) + t;
      assert (key + Decimal(b.value) + u)[|key|..] == Decimal(b.value) + u;
      DecimalCut(a.value, t, b.value, u);
    }
  }

  lemma LastCountTells(key: string, a: Option<nat>, b: Option<nat>)
    requires |key| > 1 && ShowCount(key, a) == ShowCount(key, b)
    ensures a == b
  {
    if a.Some? && b.Some? {
      assert (key + Decimal(a.value))[|key|..] == Decimal(a.value) && (key + Decimal(b.value))[|key|..] == Decimal(b.value);
      DecimalValue(a.value);
      DecimalValue(b.value);
    }
  }

  function ScopeText(scope: Scope): string {
    if scope == Personal then "scope:personal entity_count:" else "scope:org entity_count:"
  }

  lemma JoinsAnyWay(scope: string, key: string, chunks: string, concepts: string, edges: string)
    ensures scope + key + chunks + concepts + edges == (scope + key) + (chunks + (concepts + edges))
  {
  }

  lemma DetailShape(report: Report, actor: string)
    ensures IngestEvent(report, actor).detail ==
            ScopeText(report.scope) + (Decimal(|report.entityIds|) +
              (ShowCount(" extracted_entity_count:", report.extractedCount) +
               ShowCount(" relation_count:", report.relationCount)))
  {
    var scope := if report.scope == Personal then "scope:personal" else "scope:org";
    assert scope + " entity_count:" == ScopeText(report.scope);
    JoinsAnyWay(scope, " entity_count:", Decimal(|report.entityIds|),
                ShowCount(" extracted_entity_count:", report.extractedCount),
                ShowCount(" relation_count:", report.relationCount));
  }

  lemma ScopeTells(a: Scope, x: string, b: Scope, y: string)
    requires ScopeText(a) + x == ScopeText(b) + y
    ensures a == b && x == y
  {
    var text := ScopeText(a) + x;
    assert text[6] == if a == Personal then 'p' else 'o';
    assert text[6] == if b == Personal then 'p' else 'o';
    assert text[|ScopeText(a)|..] == x;
  }

  lemma CountsTell(n: nat, a: Option<nat>, b: Option<nat>, m: nat, c: Option<nat>, d: Option<nat>)
    requires var e, r := " extracted_entity_count:", " relation_count:";
             Decimal(n) + (ShowCount(e, a) + ShowCount(r, b)) == Decimal(m) + (ShowCount(e, c) + ShowCount(r, d))
    ensures n == m && a == c && b == d
  {
    var e, r := " extracted_entity_count:", " relation_count:";
    DecimalCut(n, ShowCount(e, a) + ShowCount(r, b), m, ShowCount(e, c) + ShowCount(r, d));
    CountTells(e, a, ShowCount(r, b), c, ShowCount(r, d));
    LastCountTells(r, b, d);
  }

  /** The entry tells what was ingested: by whom, from which source, into which scope, and how many chunks,
      concepts and edges. */
  lemma IngestEventTells(x: Report, a: string, y: Report, b: string)
    requires IngestEvent(x, a) == IngestEvent(y, b)
    ensures a == b && x.sourceId == y.sourceId && x.scope == y.scope && |x.entityIds| == |y.entityIds|
    ensures x.extractedCount == y.extractedCount && x.relationCount == y.relationCount
  {
    DetailShape(x, a);
    DetailShape(y, b);
    var e, r := " extracted_entity_count:", " relation_count:";
    ScopeTells(x.scope, Decimal(|x.entityIds|) + (ShowCount(e, x.extractedCount) + ShowCount(r, x.relationCount)),
               y.scope, Decimal(|y.entityIds|) + (ShowCount(e, y.extractedCount) + ShowCount(r, y.relationCount)));
    CountsTell(|x.entityIds|, x.extractedCount, x.relationCount, |y.entityIds|, y.extractedCount, y.relationCount);
  }

  lemma ChunksHaveDistinctIds(cfg: Config, r: Request, stamp: Stamp)
    requires ValidConfig(cfg)
    ensures Distinct(Ids(WrittenChunks(cfg, r, stamp)))
  {
    var es := WrittenChunks(cfg, r, stamp);
    forall i, j | 0 <= i < j < |es| ensures es[i].id != es[j].id {
      if es[i].id == es[j].id {
        ChunkIdIsInjective(stamp.owner, SourceId(cfg, r.doc), i, j);
      }
    }
  }

  // ----- re-ingesting changes nothing -----

  ghost predicate Holds(g: Graph, es: seq<Entity>) {
    forall e | e in es :: e.id in g.entities && g.entities[e.id] == e
  }

  lemma {:induction false} UpsertedAreHeld(g: Graph, es: seq<Entity>)
    requires Distinct(Ids(es))
    ensures Holds(UpsertAll(g, es), es)
  {
    if es != [] {
      var n := |es| - 1;
      UpsertedAreHeld(g, es[..n]);
      forall e | e in es ensures e.id in UpsertAll(g, es).entities && UpsertAll(g, es).entities[e.id] == e {
        if e in es[..n] {
          var i :| 0 <= i < n && es[i] == e;
          assert es[i].id != es[n].id;
        }
      }
    }
  }

  lemma {:induction false} UpsertHeldIsIdle(g: Graph, es: seq<Entity>)
    requires Holds(g, es)
    ensures UpsertAll(g, es) == g
  {
    if es != [] {
      var n := |es| - 1;
      assert es[n] in es;
      UpsertHeldIsIdle(g, es[..n]);
      assert g.entities[es[n].id := es[n]] == g.entities;
    }
  }

  lemma {:induction false} KeepIdsIdle(ids: seq<string>, prefix: string)
    requires forall id | id in ids :: !(prefix <= id)
    ensures KeepIds(ids, prefix) == ids
  {
    if ids != [] {
      var n := |ids| - 1;
      assert ids[n] in ids && ids == ids[..n] + [ids[n]];
      assert forall id | id in ids[..n] :: id in ids;
      KeepIdsIdle(ids[..n], prefix);
    }
  }

  lemma {:induction false} KeepEdgesIdle(rs: seq<Relation>, prefix: string)
    requires forall r | r in rs :: !Touches(r, prefix)
    ensures KeepEdges(rs, prefix) == rs
  {
    if rs != [] {
      var n := |rs| - 1;
      assert rs[n] in rs && rs == rs[..n] + [rs[n]];
      KeepEdgesIdle(rs[..n], prefix);
    }
  }

  lemma {:induction false} KeepIdsAppend(ids: seq<string>, id: string, prefix: string)
    ensures KeepIds(ids + [id], prefix) == KeepIds(ids, prefix) + if prefix <= id then [] else [id]
  {
    assert (ids + [id])[..|ids|] == ids;
  }

  lemma {:induction false} KeepEdgesAppend(rs: seq<Relation>, r: Relation, prefix: string)
    ensures KeepEdges(rs + [r], prefix) == KeepEdges(rs, prefix) + if Touches(r, prefix) then [] else [r]
  {
    assert (rs + [r])[..|rs|] == rs;
  }

  /** Dropping the prefix forgets whatever was upserted under it. */
  lemma {:induction false} DropForgetsUpserts(g: Graph, es: seq<Entity>, prefix: string)
    requires forall e | e in es :: prefix <= e.id
    ensures var g' := UpsertAll(g, es);
            && KeepIds(g'.ids, prefix) == KeepIds(g.ids, prefix)
            && (map id | id in g'.entities && !(prefix <= id) :: g'.entities[id]) ==
               (map id | id in g.entities && !(prefix <= id) :: g.entities[id])
            && g'.relations == g.relations
  {
    if es != [] {
      var n := |es| - 1;
      assert es[n] in es;
      DropForgetsUpserts(g, es[..n], prefix);
      KeepIdsAppend(UpsertAll(g, es[..n]).ids, es[n].id, prefix);
      var kept := KeepIds(g.ids, prefix);
      assert kept + [] == kept;
    }
  }

  lemma {:induction false} DropForgetsEdges(relations: seq<Relation>, rs: seq<Relation>, prefix: string)
    requires forall r | r in rs :: Touches(r, prefix)
    ensures KeepEdges(AddEdges(relations, rs), prefix) == KeepEdges(relations, prefix)
  {
    if rs != [] {
      var n := |rs| - 1;
      assert rs[n] in rs;
      DropForgetsEdges(relations, rs[..n], prefix);
      KeepEdgesAppend(AddEdges(relations, rs[..n]), rs[n], prefix);
      var kept := KeepEdges(relations, prefix);
      assert kept + [] == kept;
    }
  }

  lemma DropTwice(g: Graph, prefix: string)
    requires WellKeyed(g) && Distinct(g.relations)
    ensures Drop(Drop(g, prefix), prefix) == Drop(g, prefix)
  {
    KeepIdsContents(g.ids, prefix);
    KeepEdgesContents(g.relations, prefix);
    KeepIdsIdle(KeepIds(g.ids, prefix), prefix);
    KeepEdgesIdle(KeepEdges(g.relations, prefix), prefix);
  }

  /** Replacing an extraction by itself is the identity on what the first replacement left. */
  lemma PersistTwice(g: Graph, prefix: string, es: seq<Entity>, rs: seq<Relation>)
    requires WellKeyed(g) && Distinct(g.relations)
    requires (forall e | e in es :: prefix <= e.id) && (forall r | r in rs :: Touches(r, prefix))
    ensures Persist(Persist(g, prefix, es, rs), prefix, es, rs) == Persist(g, prefix, es, rs)
  {
    var once := Persist(g, prefix, es, rs);
    DropForgetsUpserts(Drop(g, prefix), es, prefix);
    DropForgetsEdges(Drop(g, prefix).relations, rs, prefix);
    DropTwice(g, prefix);
    assert Drop(once, prefix) == Drop(g, prefix);
  }

  /** Re-ingesting the same document, with an extractor that answers the same, leaves the graph exactly
      as it was: entities, edges and their order. */
  lemma ReingestIsIdempotent(cfg: Config, r: Request, g: Graph)
    requires ValidConfig(cfg) && Healthy(g)
    ensures Ingest(cfg, r, Ingest(cfg, r, g)) == Ingest(cfg, r, g)
  {
    var accepted := Accepted(cfg, r);
    if accepted.Some? {
      var stamp, source := accepted.value, SourceId(cfg, r.doc);
      var prefix := ExtractionPrefix(stamp.owner, source);
      var chunks := WrittenChunks(cfg, r, stamp);
      var g1 := UpsertAll(g, chunks);
      ChunksHaveDistinctIds(cfg, r, stamp);
      UpsertedAreHeld(g, chunks);
      if Enriched(cfg, r) {
        var result := r.extraction.result;
        var es, rs := ConceptsOf(cfg, stamp, source, result.entities).entities, EdgesOf(cfg, stamp, source, result);
        WriteChunks(cfg, r, stamp, g);
        ChunksAreStamped(cfg, r, stamp);
        ConceptsAreCapped(cfg, stamp, source, result.entities);
        EdgesTouchExtraction(cfg, stamp, source, result);
        PersistContents(g1, prefix, es, rs);
        PersistTwice(g1, prefix, es, rs);
        UpsertHeldIsIdle(Persist(g1, prefix, es, rs), chunks);
      } else {
        UpsertHeldIsIdle(g1, chunks);
      }
    }
  }

  lemma EdgesTouchExtraction(cfg: Config, stamp: Stamp, source: string, result: ExtractionResult)
    ensures forall r | r in EdgesOf(cfg, stamp, source, result) :: Touches(r, ExtractionPrefix(stamp.owner, source))
  {
    EdgesAreGood(cfg, stamp, source, result);
    ConceptsAreCapped(cfg, stamp, source, result.entities);
  }

  // ----- nothing of the text is lost on the way into the store -----

  lemma IngestHoldsChunks(cfg: Config, r: Request, g: Graph)
    requires ValidConfig(cfg) && Healthy(g) && Accepted(cfg, r).Some?
    ensures Holds(Ingest(cfg, r, g), WrittenChunks(cfg, r, Accepted(cfg, r).value))
  {
    var stamp, source := Accepted(cfg, r).value, SourceId(cfg, r.doc);
    var es := WrittenChunks(cfg, r, stamp);
    ChunksHaveDistinctIds(cfg, r, stamp);
    UpsertedAreHeld(g, es);
    ChunksAreStamped(cfg, r, stamp);
    if Enriched(cfg, r) {
      var result := r.extraction.result;
      WriteChunks(cfg, r, stamp, g);
      ConceptsAreCapped(cfg, stamp, source, result.entities);
      PersistContents(UpsertAll(g, es), ExtractionPrefix(stamp.owner, source),
                      ConceptsOf(cfg, stamp, source, result.entities).entities, EdgesOf(cfg, stamp, source, result));
    }
  }

  lemma ChunksReadBack(text: string, size: nat, overlap: nat)
    requires overlap < size
    ensures Reassemble(ChunksOf(text, size, overlap), overlap) == Strip(text)
  {
    if |Strip(text)| > size {
      ChunksLoseNothing(Strip(text), size, overlap);
    }
  }

  /** After an undisturbed ingest, reading the stored chunks back in order gives the document's text. */
  lemma StoredChunksReadBack(cfg: Config, r: Request, g: Graph)
    requires ValidConfig(cfg) && Healthy(g) && Accepted(cfg, r).Some? && r.fault == NoFault
    ensures var owner, source := Accepted(cfg, r).value.owner, SourceId(cfg, r.doc);
            var g' := Ingest(cfg, r, g);
            exists chunks: seq<string> ::
              && Reassemble(chunks, cfg.overlap) == Strip(r.doc.text)
              && forall i | 0 <= i < |chunks| ::
                   ChunkId(owner, source, i) in g'.entities &&
                   g'.entities[ChunkId(owner, source, i)].content == chunks[i]
  {
    var stamp, source := Accepted(cfg, r).value, SourceId(cfg, r.doc);
    var chunks := ChunksOf(r.doc.text, cfg.size, cfg.overlap);
    var es := WrittenChunks(cfg, r, stamp);
    IngestHoldsChunks(cfg, r, g);
    ChunksReadBack(r.doc.text, cfg.size, cfg.overlap);
    forall i | 0 <= i < |chunks|
      ensures var id := ChunkId(stamp.owner, source, i);
              id in Ingest(cfg, r, g).entities && Ingest(cfg, r, g).entities[id].content == chunks[i]
    {
      assert es[i] in es;
    }
  }

  // ----- one document leaves the others alone -----

  /** What an accepted ingest may touch among the entities: ids under its own document prefix. */
  lemma IngestTouchesOnlyItsDocument(cfg: Config, r: Request, g: Graph, stamp: Stamp, id: string)
    requires ValidConfig(cfg) && Healthy(g) && Accepted(cfg, r) == Some(stamp)
    requires !(DocumentPrefix(stamp.owner, SourceId(cfg, r.doc)) <= id)
    ensures id in Ingest(cfg, r, g).entities <==> id in g.entities
    ensures id in g.entities ==> Ingest(cfg, r, g).entities[id] == g.entities[id]
  {
    var source := SourceId(cfg, r.doc);
    var prefix, extraction := DocumentPrefix(stamp.owner, source), ExtractionPrefix(stamp.owner, source);
    var chunks := WrittenChunks(cfg, r, stamp);
    ChunkIsNotExtracted(stamp.owner, source, 0);
    assert !(extraction <= id) by {
      if extraction <= id { PrefixOfPrefix(prefix, extraction, id); }
    }
    ChunksAreStamped(cfg, r, stamp);
    UpsertAllContents(g, chunks);
    if Enriched(cfg, r) {
      var result := r.extraction.result;
      WriteChunks(cfg, r, stamp, g);
      ConceptsAreCapped(cfg, stamp, source, result.entities);
      PersistContents(UpsertAll(g, chunks), extraction, ConceptsOf(cfg, stamp, source, result.entities).entities,
                      EdgesOf(cfg, stamp, source, result));
    }
  }

  /** And among the edges: an edge goes only if it touches the document's extraction, and comes only
      with both ends inside the document. */
  lemma IngestTouchesOnlyItsEdges(cfg: Config, r: Request, g: Graph, stamp: Stamp, e: Relation)
    requires ValidConfig(cfg) && Healthy(g) && Accepted(cfg, r) == Some(stamp)
    ensures var g' := Ingest(cfg, r, g);
            && (e in g.relations && e !in g'.relations ==> Touches(e, ExtractionPrefix(stamp.owner, SourceId(cfg, r.doc))))
            && (e in g'.relations && e !in g.relations ==>
                  && DocumentPrefix(stamp.owner, SourceId(cfg, r.doc)) <= e.src
                  && DocumentPrefix(stamp.owner, SourceId(cfg, r.doc)) <= e.dst)
  {
    var source := SourceId(cfg, r.doc);
    var prefix, extraction := DocumentPrefix(stamp.owner, source), ExtractionPrefix(stamp.owner, source);
    var chunks := WrittenChunks(cfg, r, stamp);
    UpsertAllContents(g, chunks);
    if Enriched(cfg, r) {
      var result := r.extraction.result;
      var es, rs := ConceptsOf(cfg, stamp, source, result.entities).entities, EdgesOf(cfg, stamp, source, result);
      WriteChunks(cfg, r, stamp, g);
      ConceptsAreCapped(cfg, stamp, source, result.entities);
      PersistContents(UpsertAll(g, chunks), extraction, es, rs);
      if e in rs {
        NewEdgeIsInside(cfg, stamp, source, result, e);
      }
    }
  }

  lemma NewEdgeIsInside(cfg: Config, stamp: Stamp, source: string, result: ExtractionResult, e: Relation)
    requires e in EdgesOf(cfg, stamp, source, result)
    ensures DocumentPrefix(stamp.owner, source) <= e.src && DocumentPrefix(stamp.owner, source) <= e.dst
  {
    var es := ConceptsOf(cfg, stamp, source, result.entities).entities;
    EdgesAreGood(cfg, stamp, source, result);
    ConceptsAreCapped(cfg, stamp, source, result.entities);
    ChunkIsNotExtracted(stamp.owner, source, 0);
    forall id | HasId(es, id) ensures DocumentPrefix(stamp.owner, source) <= id {
      var c :| c in es && c.id == id;
      PrefixOfPrefix(DocumentPrefix(stamp.owner, source), ExtractionPrefix(stamp.owner, source), id);
    }
  }
}
