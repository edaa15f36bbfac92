/** What one document's ingest does to everything else: exactly which entities it removes, replaces or
    leaves, and exactly when it gets in the way of another document. */
module IngestionIsolation {
  import opened Collections
  import opened Text
  import opened Rbac
  import opened ReadAccess
  import opened Chunking
  import opened KnowledgeStore
  import opened Ingestion
  import opened IngestionSafety
  import opened IngestionFrames

  // ----- the graph after an ingest, id by id -----

  function Lookup(g: Graph, id: string): Option<Entity> {
    if id in g.entities then Some(g.entities[id]) else None
  }

  /** The last entity of a batch that has the id: the one that stays. */
  function LastWith(es: seq<Entity>, id: string): Option<Entity> {
    if es == [] then None
    else if es[|es| - 1].id == id then Some(es[|es| - 1])
    else LastWith(es[..|es| - 1], id)
  }

  lemma {:induction false} LastWithExists(es: seq<Entity>, id: string)
    ensures LastWith(es, id).Some? <==> HasId(es, id)
  {
    if es != [] {
      var n := |es| - 1;
      LastWithExists(es[..n], id);
      assert es == es[..n] + [es[n]];
      if HasId(es[..n], id) {
        var e :| e in es[..n] && e.id == id;
        assert e in es;
      }
    }
  }

  lemma {:induction false} LastWithConcat(a: seq<Entity>, b: seq<Entity>, id: string)
    ensures LastWith(a + b, id) == if LastWith(b, id).Some? then LastWith(b, id) else LastWith(a, id)
  {
    if b == [] {
      assert a + b == a;
    } else {
      assert (a + b)[..|a + b| - 1] == a + b[..|b| - 1];
      LastWithConcat(a, b[..|b| - 1], id);
    }
  }

  lemma {:induction false} UpsertLookup(g: Graph, es: seq<Entity>, id: string)
    ensures Lookup(UpsertAll(g, es), id) == if LastWith(es, id).Some? then LastWith(es, id) else Lookup(g, id)
  {
    if es != [] {
      UpsertLookup(g, es[..|es| - 1], id);
    }
  }

  /** Erased: under the extraction prefix of an ingest that replaces its extraction, and not written again. */
  ghost predicate Erases(cfg: Config, r: Request, stamp: Stamp, id: string)
    requires ValidConfig(cfg)
  {
    && Enriched(cfg, r) && ExtractionPrefix(stamp.owner, SourceId(cfg, r.doc)) <= id
    && LastWith(Written(cfg, r, stamp), id).None?
  }

  /** What is stored under any id after an accepted ingest: what it wrote there, nothing if it erased it,
      and otherwise what was there before. */
  lemma IngestLookup(cfg: Config, r: Request, g: Graph, stamp: Stamp, id: string)
    requires ValidConfig(cfg) && Accepted(cfg, r) == Some(stamp)
    ensures Lookup(Ingest(cfg, r, g), id) ==
            if LastWith(Written(cfg, r, stamp), id).Some? then LastWith(Written(cfg, r, stamp), id)
            else if Erases(cfg, r, stamp, id) then None
            else Lookup(g, id)
  {
    var chunks := WrittenChunks(cfg, r, stamp);
    UpsertLookup(g, chunks, id);
    if Enriched(cfg, r) {
      var source, result := SourceId(cfg, r.doc), r.extraction.result;
      var prefix, es := ExtractionPrefix(stamp.owner, source), ConceptsOf(cfg, stamp, source, result.entities).entities;
      UpsertLookup(Drop(UpsertAll(g, chunks), prefix), es, id);
      LastWithConcat(chunks, es, id);
      LastWithExists(chunks, id);
      ChunksAreStamped(cfg, r, stamp);
    } else {
      assert Written(cfg, r, stamp) == chunks;
    }
  }

  /** An accepted ingest removes or changes a stored entity exactly if it erases it or writes something
      else under its id. */
  lemma AffectedIff(cfg: Config, r: Request, g: Graph, stamp: Stamp, id: string)
    requires ValidConfig(cfg) && Accepted(cfg, r) == Some(stamp) && id in g.entities
    ensures Lookup(Ingest(cfg, r, g), id) != Some(g.entities[id]) <==>
            || Erases(cfg, r, stamp, id)
            || (var w := LastWith(Written(cfg, r, stamp), id); w.Some? && w.value != g.entities[id])
  {
    IngestLookup(cfg, r, g, stamp, id);
  }

  /** In particular, which entities disappear. */
  lemma ErasedIff(cfg: Config, r: Request, g: Graph, stamp: Stamp, id: string)
    requires ValidConfig(cfg) && Accepted(cfg, r) == Some(stamp) && id in g.entities
    ensures id !in Ingest(cfg, r, g).entities <==>
            && Enriched(cfg, r) && ExtractionPrefix(stamp.owner, SourceId(cfg, r.doc)) <= id
            && !HasId(Written(cfg, r, stamp), id)
  {
    IngestLookup(cfg, r, g, stamp, id);
    LastWithExists(Written(cfg, r, stamp), id);
  }

  // ----- when two documents share ids -----

  /** The ids a document's own ingests write or replace: its chunks, and all under its extraction prefix. */
  ghost predicate Owns(owner: string, source: string, id: string) {
    (exists i: nat :: id == ChunkId(owner, source, i)) || ExtractionPrefix(owner, source) <= id
  }

  /** The documents have one prefix, or one lies within the other's extraction. */
  predicate Clash(owner: string, source: string, owner': string, source': string) {
    var d, d' := DocumentPrefix(owner, source), DocumentPrefix(owner', source');
    d == d' || ExtractionPrefix(owner, source) <= d' || ExtractionPrefix(owner', source') <= d
  }

  predicate EndsInColon(s: string) {
    s != "" && s[|s| - 1] == ':'
  }

  /** A prefix that ends in a colon does not reach into a colon-free tail. */
  lemma ColonPrefix(q: string, p: string, d: string)
    requires EndsInColon(q) && ':' !in d
    ensures q <= p + d <==> q <= p
  {
    assert forall k | |p| <= k < |p + d| :: (p + d)[k] == d[k - |p|];
  }

  lemma PrefixShapes(owner: string, source: string)
    ensures EndsInColon(DocumentPrefix(owner, source)) && EndsInColon(ExtractionPrefix(owner, source))
    ensures ExtractionPrefix(owner, source) == DocumentPrefix(owner, source) + "entity" + ":"
  {
    assert ExtractionPrefix(owner, source) == DocumentPrefix(owner, source) + "entity:";
    assert "entity:" == "entity" + ":";
  }

  /** An extraction prefix that starts another one is the same, or starts the other document's prefix. */
  lemma ExtractionWithin(owner: string, source: string, owner': string, source': string)
    requires ExtractionPrefix(owner, source) <= ExtractionPrefix(owner', source')
    ensures Clash(owner, source, owner', source')
    ensures ExtractionPrefix(owner, source) <= DocumentPrefix(owner', source') ||
            ExtractionPrefix(owner, source) == ExtractionPrefix(owner', source')
  {
    var p, p', d, d' := ExtractionPrefix(owner, source), ExtractionPrefix(owner', source'),
                        DocumentPrefix(owner, source), DocumentPrefix(owner', source');
    PrefixShapes(owner, source);
    PrefixShapes(owner', source');
    if |p| < |p'| {
      assert p <= d' + "entity";
      ColonPrefix(p, d', "entity");
    } else {
      assert p == p' && d == p[..|p| - 7] && d' == p'[..|p'| - 7];
    }
  }

  lemma ChunkUnder(q: string, owner: string, source: string, i: nat)
    requires EndsInColon(q)
    ensures q <= ChunkId(owner, source, i) <==> q <= DocumentPrefix(owner, source)
  {
    ColonPrefix(q, DocumentPrefix(owner, source), Padded(i));
  }

  lemma OwnedByBothClash(owner: string, source: string, owner': string, source': string, id: string)
    requires Owns(owner, source, id) && Owns(owner', source', id)
    ensures Clash(owner, source, owner', source')
  {
    var p, p' := ExtractionPrefix(owner, source), ExtractionPrefix(owner', source');
    PrefixShapes(owner, source);
    PrefixShapes(owner', source');
    if p <= id && p' <= id {
      PrefixesCompare(p, p', id);
      if p <= p' {
        ExtractionWithin(owner, source, owner', source');
      } else {
        ExtractionWithin(owner', source', owner, source);
      }
    } else if p <= id {
      var j: nat :| id == ChunkId(owner', source', j);
      ChunkUnder(p, owner', source', j);
    } else if p' <= id {
      var i: nat :| id == ChunkId(owner, source, i);
      ChunkUnder(p', owner, source, i);
    } else {
      var i: nat :| id == ChunkId(owner, source, i);
      var j: nat :| id == ChunkId(owner', source', j);
      ChunksCollideIff(owner, source, i, owner', source', j);
    }
  }

  /** Two documents own an id in common exactly if they clash. */
  lemma DocumentsShareIff(owner: string, source: string, owner': string, source': string)
    ensures (exists id :: Owns(owner, source, id) && Owns(owner', source', id)) <==> Clash(owner, source, owner', source')
  {
    if id :| Owns(owner, source, id) && Owns(owner', source', id) {
      OwnedByBothClash(owner, source, owner', source', id);
    }
    if Clash(owner, source, owner', source') {
      var id, id' := ChunkId(owner, source, 0), ChunkId(owner', source', 0);
      PrefixShapes(owner, source);
      PrefixShapes(owner', source');
      ChunkUnder(ExtractionPrefix(owner', source'), owner, source, 0);
      ChunkUnder(ExtractionPrefix(owner, source), owner', source', 0);
      ChunksCollideIff(owner, source, 0, owner', source', 0);
      assert Owns(owner, source, id) && Owns(owner', source', id');
      assert Owns(owner', source', id) || Owns(owner, source, id');
    }
  }

  /** Two chunks collide exactly if they have the same index in documents with the same prefix. */
  lemma ChunksCollideIff(owner: string, source: string, i: nat, owner': string, source': string, j: nat)
    ensures ChunkId(owner, source, i) == ChunkId(owner', source', j) <==>
            DocumentPrefix(owner, source) == DocumentPrefix(owner', source') && i == j
  {
    var p, p' := DocumentPrefix(owner, source), DocumentPrefix(owner', source');
    if ChunkId(owner, source, i) == ChunkId(owner', source', j) {
      LastColonIsUnique(p, Padded(i), p', Padded(j));
      PaddedIsInjective(i, j);
    }
  }

  /** What follows the last colon determines what precedes it. */
  lemma LastColonIsUnique(p: string, d: string, p': string, d': string)
    requires p + d == p' + d' && p != "" && p' != "" && p[|p| - 1] == ':' && p'[|p'| - 1] == ':'
    requires ':' !in d && ':' !in d'
    ensures p == p' && d == d'
  {
    var x := p + d;
    assert x[|p| - 1] == ':' && x[|p'| - 1] == ':';
    assert forall k | |p| <= k < |x| :: x[k] == d[k - |p|];
    assert forall k | |p'| <= k < |x| :: x[k] == d'[k - |p'|];
    assert |p| == |p'|;
    assert p == x[..|p|] && p' == x[..|p'|] && d == x[|p|..] && d' == x[|p'|..];
  }

  lemma WrittenIsOwned(cfg: Config, r: Request, stamp: Stamp, id: string)
    requires ValidConfig(cfg) && HasId(Written(cfg, r, stamp), id)
    ensures Owns(stamp.owner, SourceId(cfg, r.doc), id)
    ensures !(ExtractionPrefix(stamp.owner, SourceId(cfg, r.doc)) <= id) ==> HasId(WrittenChunks(cfg, r, stamp), id)
    ensures HasId(WrittenChunks(cfg, r, stamp), id) ==>
              exists i: nat :: id == ChunkId(stamp.owner, SourceId(cfg, r.doc), i)
  {
    var source, chunks := SourceId(cfg, r.doc), WrittenChunks(cfg, r, stamp);
    if HasId(chunks, id) {
      var e :| e in chunks && e.id == id;
      var i :| 0 <= i < |chunks| && chunks[i] == e;
      assert id == ChunkId(stamp.owner, source, i);
    } else {
      var e :| e in Written(cfg, r, stamp) && e.id == id;
      assert e !in chunks;
      ConceptsAreCapped(cfg, stamp, source, r.extraction.result.entities);
    }
  }

  /** Ingesting one document leaves everything that a document it does not clash with owns as it was. */
  lemma OtherDocumentsAreUntouched(cfg: Config, r: Request, g: Graph, stamp: Stamp, owner: string, source: string, id: string)
    requires ValidConfig(cfg) && Accepted(cfg, r) == Some(stamp) && Owns(owner, source, id)
    requires !Clash(owner, source, stamp.owner, SourceId(cfg, r.doc))
    ensures Lookup(Ingest(cfg, r, g), id) == Lookup(g, id)
  {
    var source' := SourceId(cfg, r.doc);
    IngestLookup(cfg, r, g, stamp, id);
    LastWithExists(Written(cfg, r, stamp), id);
    if HasId(Written(cfg, r, stamp), id) {
      WrittenIsOwned(cfg, r, stamp, id);
      OwnedByBothClash(owner, source, stamp.owner, source', id);
    } else if ExtractionPrefix(stamp.owner, source') <= id {
      OwnedByBothClash(owner, source, stamp.owner, source', id);
    }
  }

  /** Which clashes matter to one request: a request that replaces no extraction cannot erase. */
  ghost predicate Interferes(cfg: Config, r: Request, stamp: Stamp, owner: string, source: string)
    requires ValidConfig(cfg)
  {
    var source' := SourceId(cfg, r.doc);
    var d, d' := DocumentPrefix(owner, source), DocumentPrefix(stamp.owner, source');
    && WrittenChunks(cfg, r, stamp) != []
    && (d == d' || ExtractionPrefix(owner, source) <= d' ||
        (Enriched(cfg, r) && ExtractionPrefix(stamp.owner, source') <= d))
  }

  ghost predicate LeavesAlone(cfg: Config, r: Request, g: Graph, id: string)
    requires ValidConfig(cfg)
  {
    Lookup(Ingest(cfg, r, g), id) == Lookup(g, id)
  }

  lemma NothingInTheWay(cfg: Config, r: Request, g: Graph, stamp: Stamp, owner: string, source: string, id: string)
    requires ValidConfig(cfg) && Accepted(cfg, r) == Some(stamp) && Owns(owner, source, id)
    requires !Interferes(cfg, r, stamp, owner, source)
    ensures LeavesAlone(cfg, r, g, id)
  {
    if Enriched(cfg, r) {
      OtherDocumentsAreUntouched(cfg, r, g, stamp, owner, source, id);
    } else {
      var source' := SourceId(cfg, r.doc);
      assert Written(cfg, r, stamp) == WrittenChunks(cfg, r, stamp);
      IngestLookup(cfg, r, g, stamp, id);
      LastWithExists(Written(cfg, r, stamp), id);
      if HasId(Written(cfg, r, stamp), id) {
        WrittenIsOwned(cfg, r, stamp, id);
        var j: nat :| id == ChunkId(stamp.owner, source', j);
        PrefixShapes(owner, source);
        ChunkUnder(ExtractionPrefix(owner, source), stamp.owner, source', j);
        if i: nat :| id == ChunkId(owner, source, i) {
          ChunksCollideIff(owner, source, i, stamp.owner, source', j);
        }
      }
    }
  }

  lemma SomethingInTheWay(cfg: Config, r: Request, stamp: Stamp, owner: string, source: string)
    returns (g: Graph, id: string)
    requires ValidConfig(cfg) && Accepted(cfg, r) == Some(stamp) && Interferes(cfg, r, stamp, owner, source)
    ensures Owns(owner, source, id) && !LeavesAlone(cfg, r, g, id)
  {
    var source', chunks := SourceId(cfg, r.doc), WrittenChunks(cfg, r, stamp);
    var d, d' := DocumentPrefix(owner, source), DocumentPrefix(stamp.owner, source');
    PrefixShapes(owner, source);
    PrefixShapes(stamp.owner, source');
    if d == d' || ExtractionPrefix(owner, source) <= d' {
      g, id := EMPTY, ChunkId(stamp.owner, source', 0);
      assert chunks[0].id == id;
      ChunkUnder(ExtractionPrefix(owner, source), stamp.owner, source', 0);
      ChunksCollideIff(owner, source, 0, stamp.owner, source', 0);
      ChunkIsLast(cfg, r, stamp, 0);
    } else {
      id := ChunkId(owner, source, 0);
      ChunkUnder(ExtractionPrefix(stamp.owner, source'), owner, source, 0);
      g := if LastWith(Written(cfg, r, stamp), id).Some? then EMPTY
           else Graph([id], map[id := Entity(id, "", "", "", [], Org)], []);
    }
    IngestLookup(cfg, r, g, stamp, id);
  }

  /** An accepted request leaves alone everything another document owns, in every graph, exactly if it
      does not interfere with that document. */
  lemma IsolatedIff(cfg: Config, r: Request, stamp: Stamp, owner: string, source: string)
    requires ValidConfig(cfg) && Accepted(cfg, r) == Some(stamp)
    ensures (forall g, id | Owns(owner, source, id) :: LeavesAlone(cfg, r, g, id)) <==>
            !Interferes(cfg, r, stamp, owner, source)
  {
    if Interferes(cfg, r, stamp, owner, source) {
      var g, id := SomethingInTheWay(cfg, r, stamp, owner, source);
    } else {
      forall g, id | Owns(owner, source, id) ensures LeavesAlone(cfg, r, g, id) {
        NothingInTheWay(cfg, r, g, stamp, owner, source, id);
      }
    }
  }

  /** The request is accepted for this document. */
  ghost predicate IsFor(cfg: Config, r: Request, owner: string, source: string)
    requires ValidConfig(cfg)
  {
    Accepted(cfg, r).Some? && Accepted(cfg, r).value.owner == owner && SourceId(cfg, r.doc) == source
  }

  /** For a document somebody may ingest: every request for it, on every graph, leaves alone everything
      another document owns exactly if the two do not clash. */
  lemma DocumentIsIsolatedIff(cfg: Config, sample: Request, owner: string, source: string, owner': string, source': string)
    requires ValidConfig(cfg) && IsFor(cfg, sample, owner', source')
    ensures (forall r, g, id | IsFor(cfg, r, owner', source') && Owns(owner, source, id) :: LeavesAlone(cfg, r, g, id)) <==>
            !Clash(owner, source, owner', source')
  {
    if Clash(owner, source, owner', source') {
      var stamp := Accepted(cfg, sample).value;
      var r := sample.(extraction := Found(ExtractionResult([], [])), fault := NoFault);
      assert Accepted(cfg, r) == Some(stamp) && Enriched(cfg, r) && WrittenChunks(cfg, r, stamp) != [];
      var g, id := SomethingInTheWay(cfg, r, stamp, owner, source);
      assert IsFor(cfg, r, owner', source');
    } else {
      forall r, g, id | IsFor(cfg, r, owner', source') && Owns(owner, source, id) ensures LeavesAlone(cfg, r, g, id) {
        OtherDocumentsAreUntouched(cfg, r, g, Accepted(cfg, r).value, owner, source, id);
      }
    }
  }

  // ----- re-ingesting another text -----

  lemma NoChunkBeyond(cfg: Config, r: Request, stamp: Stamp, i: nat)
    requires ValidConfig(cfg) && i >= |WrittenChunks(cfg, r, stamp)|
    ensures !HasId(WrittenChunks(cfg, r, stamp), ChunkId(stamp.owner, SourceId(cfg, r.doc), i))
  {
    var source, chunks := SourceId(cfg, r.doc), WrittenChunks(cfg, r, stamp);
    forall j | 0 <= j < |chunks| ensures chunks[j].id != ChunkId(stamp.owner, source, i) {
      assert chunks[j].id == ChunkId(stamp.owner, source, j);
      if chunks[j].id == ChunkId(stamp.owner, source, i) {
        ChunkIdIsInjective(stamp.owner, source, i, j);
      }
    }
  }

  lemma NothingWrittenBeyond(cfg: Config, r: Request, stamp: Stamp, i: nat)
    requires ValidConfig(cfg) && i >= |WrittenChunks(cfg, r, stamp)|
    ensures LastWith(Written(cfg, r, stamp), ChunkId(stamp.owner, SourceId(cfg, r.doc), i)).None?
  {
    var id := ChunkId(stamp.owner, SourceId(cfg, r.doc), i);
    LastWithExists(Written(cfg, r, stamp), id);
    ChunkIsNotExtracted(stamp.owner, SourceId(cfg, r.doc), i);
    NoChunkBeyond(cfg, r, stamp, i);
    if HasId(Written(cfg, r, stamp), id) {
      WrittenIsOwned(cfg, r, stamp, id);
    }
  }

  lemma ChunkIsWrittenWhole(cfg: Config, r: Request, stamp: Stamp, i: nat)
    requires ValidConfig(cfg) && !r.fault.ChunkFault? && i < |ChunksOf(r.doc.text, cfg.size, cfg.overlap)|
    ensures i < |WrittenChunks(cfg, r, stamp)|
    ensures var e := WrittenChunks(cfg, r, stamp)[i];
            && e.kind == r.doc.kind && e.name == r.doc.title + " [" + Decimal(i) + "]"
            && e.content == ChunksOf(r.doc.text, cfg.size, cfg.overlap)[i]
            && e.acl == stamp.acl && e.scope == stamp.scope
  {
  }

  /** What an ingest stores for each chunk of the text: the document's kind, its title with the number of the
      chunk, the chunk itself, and the access the server stamped. */
  lemma ChunkIsStoredWhole(cfg: Config, r: Request, g: Graph, i: nat)
    requires ValidConfig(cfg) && Accepted(cfg, r).Some? && !r.fault.ChunkFault?
    requires i < |ChunksOf(r.doc.text, cfg.size, cfg.overlap)|
    ensures var stamp := Accepted(cfg, r).value;
            var stored := Lookup(Ingest(cfg, r, g), ChunkId(stamp.owner, SourceId(cfg, r.doc), i));
            && stored.Some? && stored.value.kind == r.doc.kind
            && stored.value.name == r.doc.title + " [" + Decimal(i) + "]"
            && stored.value.content == ChunksOf(r.doc.text, cfg.size, cfg.overlap)[i]
            && stored.value.acl == stamp.acl && stored.value.scope == stamp.scope
  {
    var stamp := Accepted(cfg, r).value;
    ChunkIsWrittenWhole(cfg, r, stamp, i);
    SurplusChunksStay(cfg, r, g, stamp, i);
  }

  /** Chunks are never erased: re-ingesting a shorter text leaves the surplus chunks of the longer one,
      content and all. */
  lemma SurplusChunksStay(cfg: Config, r: Request, g: Graph, stamp: Stamp, i: nat)
    requires ValidConfig(cfg) && Accepted(cfg, r) == Some(stamp)
    ensures Lookup(Ingest(cfg, r, g), ChunkId(stamp.owner, SourceId(cfg, r.doc), i)) ==
            if i < |WrittenChunks(cfg, r, stamp)| then Some(WrittenChunks(cfg, r, stamp)[i])
            else Lookup(g, ChunkId(stamp.owner, SourceId(cfg, r.doc), i))
  {
    IngestLookup(cfg, r, g, stamp, ChunkId(stamp.owner, SourceId(cfg, r.doc), i));
    ChunkIsNotExtracted(stamp.owner, SourceId(cfg, r.doc), i);
    if i < |WrittenChunks(cfg, r, stamp)| {
      assert WrittenChunks(cfg, r, stamp)[i].id == ChunkId(stamp.owner, SourceId(cfg, r.doc), i);
      ChunkIsLast(cfg, r, stamp, i);
    } else {
      NothingWrittenBeyond(cfg, r, stamp, i);
    }
  }

  /** The graph holds exactly these chunks of the document. */
  ghost predicate HoldsExactly(g: Graph, owner: string, source: string, chunks: seq<string>) {
    forall i: nat :: HoldsAt(g, owner, source, chunks, i)
  }

  ghost predicate HoldsAt(g: Graph, owner: string, source: string, chunks: seq<string>, i: nat) {
    var e := Lookup(g, ChunkId(owner, source, i));
    if i < |chunks| then e.Some? && e.value.content == chunks[i] else e.None?
  }

  /** No chunk of the document from index `n` on is stored. */
  ghost predicate NoneFrom(g: Graph, owner: string, source: string, n: nat) {
    forall i: nat | i >= n :: Lookup(g, ChunkId(owner, source, i)).None?
  }

  /** `g'` has these chunks of the document, and beyond them what `g` has. */
  ghost predicate Overlaid(g: Graph, g': Graph, owner: string, source: string, chunks: seq<string>) {
    forall i: nat :: OverlaidAt(g, g', owner, source, chunks, i)
  }

  ghost predicate OverlaidAt(g: Graph, g': Graph, owner: string, source: string, chunks: seq<string>, i: nat) {
    if i < |chunks| then HoldsAt(g', owner, source, chunks, i)
    else Lookup(g', ChunkId(owner, source, i)) == Lookup(g, ChunkId(owner, source, i))
  }

  lemma IngestOverlays(cfg: Config, r: Request, g: Graph, stamp: Stamp)
    requires ValidConfig(cfg) && Accepted(cfg, r) == Some(stamp) && !r.fault.ChunkFault?
    ensures Overlaid(g, Ingest(cfg, r, g), stamp.owner, SourceId(cfg, r.doc), ChunksOf(r.doc.text, cfg.size, cfg.overlap))
  {
    var source, chunks := SourceId(cfg, r.doc), ChunksOf(r.doc.text, cfg.size, cfg.overlap);
    forall i: nat ensures OverlaidAt(g, Ingest(cfg, r, g), stamp.owner, source, chunks, i) {
      SurplusChunksStay(cfg, r, g, stamp, i);
    }
  }

  lemma OverlaidExactlyIff(g: Graph, g': Graph, owner: string, source: string, chunks: seq<string>)
    requires Overlaid(g, g', owner, source, chunks)
    ensures HoldsExactly(g', owner, source, chunks) <==> NoneFrom(g, owner, source, |chunks|)
  {
    if HoldsExactly(g', owner, source, chunks) {
      forall i: nat | i >= |chunks| ensures Lookup(g, ChunkId(owner, source, i)).None? {
        assert HoldsAt(g', owner, source, chunks, i) && OverlaidAt(g, g', owner, source, chunks, i);
      }
    }
    if NoneFrom(g, owner, source, |chunks|) {
      forall i: nat ensures HoldsAt(g', owner, source, chunks, i) {
        assert OverlaidAt(g, g', owner, source, chunks, i);
      }
    }
  }

  lemma OverlaidStartsWith(g: Graph, g': Graph, owner: string, source: string, chunks: seq<string>, all: seq<string>)
    requires Overlaid(g, g', owner, source, chunks) && HoldsExactly(g', owner, source, all) && chunks != []
    ensures |chunks| <= |all| && all[..|chunks|] == chunks
    ensures NoneFrom(g, owner, source, |chunks|) <==> |all| == |chunks|
  {
    forall i: nat
      ensures i < |chunks| ==> i < |all| && all[i] == chunks[i]
      ensures i >= |chunks| ==> (i < |all| <==> Lookup(g, ChunkId(owner, source, i)).Some?)
    {
      assert HoldsAt(g', owner, source, all, i) && OverlaidAt(g, g', owner, source, chunks, i);
    }
    assert HoldsAt(g', owner, source, all, |chunks| - 1) && OverlaidAt(g, g', owner, source, chunks, |chunks| - 1);
    if |all| > |chunks| {
      assert Lookup(g, ChunkId(owner, source, |chunks|)).Some?;
    }
  }

  /** After an ingest whose chunks were all written, the stored chunks of the document are those of its
      text exactly if no chunk beyond their number was stored before. */
  lemma StoredChunksAreTextIff(cfg: Config, r: Request, g: Graph, stamp: Stamp)
    requires ValidConfig(cfg) && Accepted(cfg, r) == Some(stamp) && !r.fault.ChunkFault?
    ensures var chunks := ChunksOf(r.doc.text, cfg.size, cfg.overlap);
            HoldsExactly(Ingest(cfg, r, g), stamp.owner, SourceId(cfg, r.doc), chunks) <==>
            NoneFrom(g, stamp.owner, SourceId(cfg, r.doc), |chunks|)
  {
    IngestOverlays(cfg, r, g, stamp);
    OverlaidExactlyIff(g, Ingest(cfg, r, g), stamp.owner, SourceId(cfg, r.doc),
                       ChunksOf(r.doc.text, cfg.size, cfg.overlap));
  }

  lemma {:induction false} LaterChunksAdd(chunks: seq<string>, n: nat, overlap: nat)
    requires 0 < n < |chunks| && forall i | n <= i < |chunks| :: |chunks[i]| > overlap
    ensures |Reassemble(chunks, overlap)| > |Reassemble(chunks[..n], overlap)|
  {
    var m := |chunks| - 1;
    if m > n {
      LaterChunksAdd(chunks[..m], n, overlap);
      assert chunks[..m][..n] == chunks[..n];
    }
  }

  /** So reading all stored chunks back, in order, gives the new text exactly then; chunks after the first
      are longer than the overlap, as every ingest writes them. */
  lemma ReadsBackIff(cfg: Config, r: Request, g: Graph, stamp: Stamp, all: seq<string>)
    requires ValidConfig(cfg) && Accepted(cfg, r) == Some(stamp) && !r.fault.ChunkFault?
    requires HoldsExactly(Ingest(cfg, r, g), stamp.owner, SourceId(cfg, r.doc), all)
    requires forall i | 0 < i < |all| :: |all[i]| > cfg.overlap
    ensures Reassemble(all, cfg.overlap) == Strip(r.doc.text) <==>
            NoneFrom(g, stamp.owner, SourceId(cfg, r.doc), |ChunksOf(r.doc.text, cfg.size, cfg.overlap)|)
  {
    var chunks := ChunksOf(r.doc.text, cfg.size, cfg.overlap);
    IngestOverlays(cfg, r, g, stamp);
    OverlaidStartsWith(g, Ingest(cfg, r, g), stamp.owner, SourceId(cfg, r.doc), chunks, all);
    ChunksReadBack(r.doc.text, cfg.size, cfg.overlap);
    if |all| > |chunks| {
      LaterChunksAdd(all, |chunks|, cfg.overlap);
    } else {
      assert all == chunks;
    }
  }

  // ----- how they do get in each other's way -----

  /** User `a` with source `b:c` and user `a:b` with source `c` have every chunk id in common. */
  lemma UsersCollide(a: string, b: string, c: string, i: nat)
    ensures ChunkId("personal:" + a, b + ":" + c, i) == ChunkId("personal:" + (a + ":" + b), c, i)
  {
    assert DocumentPrefix("personal:" + a, b + ":" + c) == DocumentPrefix("personal:" + (a + ":" + b), c);
  }

  /** So the second user's ingest takes over the first user's personal chunk: its ACL now names the second
      user, who alone can read it, and the first user no longer can. */
  lemma ChunkIsTakenOver(cfg: Config, r: Request, g: Graph, stamp: Stamp, a: string, b: string, c: string, i: nat,
                         policy: Policy, first: Principal)
    requires ValidConfig(cfg) && Accepted(cfg, r) == Some(stamp) && r.doc.scope == Personal
    requires r.principal.value.userId == a + ":" + b && SourceId(cfg, r.doc) == c
    requires i < |WrittenChunks(cfg, r, stamp)| && first.userId == a
    ensures var id := ChunkId("personal:" + a, b + ":" + c, i);
            && Lookup(Ingest(cfg, r, g), id) == Some(WrittenChunks(cfg, r, stamp)[i])
            && !CanRead(Some(first), WrittenChunks(cfg, r, stamp)[i], policy)
            && CanRead(r.principal, WrittenChunks(cfg, r, stamp)[i], policy)
  {
    var id, chunks := ChunkId("personal:" + a, b + ":" + c, i), WrittenChunks(cfg, r, stamp);
    UsersCollide(a, b, c, i);
    assert stamp.owner == "personal:" + (a + ":" + b) && stamp.acl == [IdentityAcl(a + ":" + b)];
    assert chunks[i].id == id && chunks[i].acl == stamp.acl;
    IngestLookup(cfg, r, g, stamp, id);
    ChunkIsLast(cfg, r, stamp, i);
    IdentityAclIsPrivate(Some(first), a + ":" + b, EffectivePermissions(Some(first), policy));
    IdentityAclIsPrivate(r.principal, a + ":" + b, EffectivePermissions(r.principal, policy));
  }

  lemma {:induction false} LastOfDistinct(es: seq<Entity>, i: nat)
    requires Distinct(Ids(es)) && i < |es|
    ensures LastWith(es, es[i].id) == Some(es[i])
  {
    var n := |es| - 1;
    if i < n {
      assert forall k | 0 <= k < n :: Ids(es[..n])[k] == Ids(es)[k];
      assert Ids(es)[i] != Ids(es)[n];
      LastOfDistinct(es[..n], i);
    }
  }

  lemma ChunkIsLast(cfg: Config, r: Request, stamp: Stamp, i: nat)
    requires ValidConfig(cfg) && i < |WrittenChunks(cfg, r, stamp)|
    ensures LastWith(Written(cfg, r, stamp), WrittenChunks(cfg, r, stamp)[i].id) == Some(WrittenChunks(cfg, r, stamp)[i])
  {
    var chunks := WrittenChunks(cfg, r, stamp);
    ChunksHaveDistinctIds(cfg, r, stamp);
    LastOfDistinct(chunks, i);
    if Enriched(cfg, r) {
      var source := SourceId(cfg, r.doc);
      var es := ConceptsOf(cfg, stamp, source, r.extraction.result.entities).entities;
      LastWithConcat(chunks, es, chunks[i].id);
      LastWithExists(es, chunks[i].id);
      ConceptsAreCapped(cfg, stamp, source, r.extraction.result.entities);
      ChunkIsNotExtracted(stamp.owner, source, i);
    } else {
      assert Written(cfg, r, stamp) == chunks;
    }
  }

  lemma {:induction false} ConceptIdsHaveColons(cfg: Config, stamp: Stamp, source: string, proposed: seq<ExtractedEntity>)
    ensures forall e | e in ConceptsOf(cfg, stamp, source, proposed).entities ::
              |ExtractionPrefix(stamp.owner, source)| <= |e.id| && ':' in e.id[|ExtractionPrefix(stamp.owner, source)|..]
  {
    if proposed != [] {
      var last := proposed[|proposed| - 1];
      var name := cfg.normalize(last.name);
      var prefix := ExtractionPrefix(stamp.owner, source);
      ConceptIdsHaveColons(cfg, stamp, source, proposed[..|proposed| - 1]);
      assert ConceptId(cfg, stamp.owner, source, last.kind, name)[|prefix|..][|last.kind|] == ':';
    }
  }

  lemma EntityChunkId(owner: string, source: string, i: nat)
    ensures ChunkId(owner, source + ":entity", i) == ExtractionPrefix(owner, source) + Padded(i)
  {
    assert DocumentPrefix(owner, source + ":entity") == ExtractionPrefix(owner, source);
  }

  lemma EntityChunkIsNotWritten(cfg: Config, r: Request, stamp: Stamp, i: nat)
    requires ValidConfig(cfg) && Enriched(cfg, r)
    ensures !HasId(Written(cfg, r, stamp), ExtractionPrefix(stamp.owner, SourceId(cfg, r.doc)) + Padded(i))
  {
    var source := SourceId(cfg, r.doc);
    var prefix := ExtractionPrefix(stamp.owner, source);
    var id, es := prefix + Padded(i), ConceptsOf(cfg, stamp, source, r.extraction.result.entities).entities;
    ChunksAreStamped(cfg, r, stamp);
    ConceptIdsHaveColons(cfg, stamp, source, r.extraction.result.entities);
    assert id[|prefix|..] == Padded(i) && prefix <= id;
    forall e | e in Written(cfg, r, stamp) ensures e.id != id {
      assert e in WrittenChunks(cfg, r, stamp) || e in es;
    }
  }

  /** A document that lies within another one's extraction loses every chunk when that other document is
      ingested with an extraction: the chunk is gone, or a concept sits under its id. */
  lemma ChunkWithinExtractionIsLost(cfg: Config, r: Request, g: Graph, stamp: Stamp, owner: string, source: string, i: nat)
    requires ValidConfig(cfg) && Accepted(cfg, r) == Some(stamp) && Enriched(cfg, r)
    requires ExtractionPrefix(stamp.owner, SourceId(cfg, r.doc)) <= DocumentPrefix(owner, source)
    ensures var id := ChunkId(owner, source, i);
            var concepts := ConceptsOf(cfg, stamp, SourceId(cfg, r.doc), r.extraction.result.entities).entities;
            Lookup(Ingest(cfg, r, g), id) == LastWith(concepts, id)
  {
    var id, source' := ChunkId(owner, source, i), SourceId(cfg, r.doc);
    var concepts, chunks := ConceptsOf(cfg, stamp, source', r.extraction.result.entities).entities, WrittenChunks(cfg, r, stamp);
    PrefixShapes(stamp.owner, source');
    ChunkUnder(ExtractionPrefix(stamp.owner, source'), owner, source, i);
    IngestLookup(cfg, r, g, stamp, id);
    LastWithConcat(chunks, concepts, id);
    LastWithExists(chunks, id);
    ChunksAreStamped(cfg, r, stamp);
  }

  /** Colons matter: a document whose source id is another one's followed by `:entity` loses every chunk
      when that other document is ingested with an extraction. */
  lemma ColonSourceIsErased(cfg: Config, r: Request, g: Graph, stamp: Stamp, i: nat)
    requires ValidConfig(cfg) && Accepted(cfg, r) == Some(stamp) && Enriched(cfg, r)
    requires ChunkId(stamp.owner, SourceId(cfg, r.doc) + ":entity", i) in g.entities
    ensures ChunkId(stamp.owner, SourceId(cfg, r.doc) + ":entity", i) !in Ingest(cfg, r, g).entities
  {
    var source := SourceId(cfg, r.doc);
    EntityChunkId(stamp.owner, source, i);
    EntityChunkIsNotWritten(cfg, r, stamp, i);
    ErasedIff(cfg, r, g, stamp, ChunkId(stamp.owner, source + ":entity", i));
  }

  // ----- colon-free ids keep documents apart -----

  predicate ColonFree(s: string) {
    forall i | 0 <= i < |s| :: s[i] != ':'
  }

  /** The text before the first colon is the only colon-free head a string has. */
  lemma HeadIsUnique(a: string, b: string, x: string)
    requires ColonFree(a) && ColonFree(b) && a + ":" <= x && b + ":" <= x
    ensures a == b
  {
    assert x[|a|] == ':' && x[|b|] == ':';
    assert forall i | 0 <= i < |a| :: x[i] == a[i];
    assert forall i | 0 <= i < |b| :: x[i] == b[i];
  }

  /** Owner segments as the server builds them from colon-free user ids. */
  ghost predicate PlainOwner(owner: string) {
    owner == "org" || (exists user :: ColonFree(user) && owner == "personal:" + user)
  }

  lemma TailAfter(head: string, rest: string, x: string)
    requires head + rest <= x
    ensures head <= x && rest <= x[|head|..]
  {
    assert x[..|head + rest|] == head + rest;
  }

  lemma OwnerIsUnique(a: string, b: string, x: string)
    requires PlainOwner(a) && PlainOwner(b) && a + ":" <= x && b + ":" <= x
    ensures a == b
  {
    if a != "org" && b != "org" {
      var u :| ColonFree(u) && a == "personal:" + u;
      var v :| ColonFree(v) && b == "personal:" + v;
      assert a + ":" == "personal:" + (u + ":") && b + ":" == "personal:" + (v + ":");
      TailAfter("personal:", u + ":", x);
      TailAfter("personal:", v + ":", x);
      HeadIsUnique(u, v, x[|"personal:"|..]);
    }
    OwnerInitial(a);
    OwnerInitial(b);
    assert x[0] == (a + ":")[0] == (b + ":")[0];
  }

  lemma OwnerInitial(owner: string)
    requires PlainOwner(owner)
    ensures owner != "" && (owner == "org" <==> owner[0] == 'o')
  {
  }

  /** With colon-free user and source ids, different documents never clash. */
  lemma DocumentsAreSeparate(owner: string, source: string, owner': string, source': string)
    requires PlainOwner(owner) && PlainOwner(owner') && ColonFree(source) && ColonFree(source')
    requires Clash(owner, source, owner', source')
    ensures owner == owner' && source == source'
  {
    var d, d' := DocumentPrefix(owner, source), DocumentPrefix(owner', source');
    PrefixShapes(owner, source);
    PrefixShapes(owner', source');
    var id := if d <= d' then d' else d;
    assert d <= id && d' <= id;
    assert d == (owner + ":") + (source + ":") && d' == (owner' + ":") + (source' + ":");
    TailAfter(owner + ":", source + ":", id);
    TailAfter(owner' + ":", source' + ":", id);
    OwnerIsUnique(owner, owner', id);
    HeadIsUnique(source, source', id[|owner + ":"|..]);
  }
}
