/** What every sequence of ingests guarantees about the stored graph. */
module IngestionSafety {
  import opened Collections
  import opened Rbac
  import opened ReadAccess
  import opened KnowledgeStore
  import opened Ingestion

  // ----- what the extractor can and cannot contribute -----

  ghost predicate HasId(es: seq<Entity>, id: string) {
    exists e | e in es :: e.id == id
  }

  ghost predicate Stamped(es: seq<Entity>, stamp: Stamp) {
    forall e | e in es :: e.acl == stamp.acl && e.scope == stamp.scope
  }

  lemma {:induction false} ConceptsAreCapped(cfg: Config, stamp: Stamp, source: string, proposed: seq<ExtractedEntity>)
    ensures var c := ConceptsOf(cfg, stamp, source, proposed);
            && |c.entities| <= cfg.maxEntities
            && Stamped(c.entities, stamp)
            && (forall e | e in c.entities :: ExtractionPrefix(stamp.owner, source) <= e.id)
            && (forall key | key in c.byKey :: HasId(c.entities, c.byKey[key]))
  {
    if proposed != [] {
      var n := |proposed| - 1;
      ConceptsAreCapped(cfg, stamp, source, proposed[..n]);
      var before := ConceptsOf(cfg, stamp, source, proposed[..n]);
      var after := AddConcept(cfg, stamp, source, before, proposed[n]);
      assert forall e | e in before.entities :: e in after.entities;
      if after != before {
        var e := after.entities[|before.entities|];
        assert e in after.entities && ExtractionPrefix(stamp.owner, source) <= e.id;
      }
    }
  }

  /** The shape of the edges one extraction persists: few, distinct, never dangling. */
  ghost predicate GoodEdges(cfg: Config, edges: seq<Relation>, concepts: seq<Entity>, anchor: string) {
    && |edges| <= cfg.maxRelations && Distinct(edges)
    && forall r | r in edges :: HasId(concepts, r.dst) && (r.src == anchor || HasId(concepts, r.src))
  }

  lemma {:induction false} ExtractedEdgesAreGood(cfg: Config, byKey: map<Key, string>, rs: seq<ExtractedRelation>,
                                                 concepts: seq<Entity>, anchor: string)
    requires forall key | key in byKey :: HasId(concepts, byKey[key])
    ensures GoodEdges(cfg, ExtractedEdges(cfg, byKey, rs), concepts, anchor)
  {
    if rs != [] {
      ExtractedEdgesAreGood(cfg, byKey, rs[..|rs| - 1], concepts, anchor);
    }
  }

  lemma {:induction false} MentionsAreGood(cfg: Config, anchor: string, edges: seq<Relation>, concepts: seq<Entity>, n: nat)
    requires n <= |concepts| && GoodEdges(cfg, edges, concepts, anchor)
    ensures GoodEdges(cfg, WithMentions(cfg, anchor, edges, concepts[..n]), concepts, anchor)
  {
    if n > 0 {
      assert concepts[..n][..n - 1] == concepts[..n - 1];
      MentionsAreGood(cfg, anchor, edges, concepts, n - 1);
      assert concepts[n - 1] in concepts;
    }
  }

  lemma EdgesAreGood(cfg: Config, stamp: Stamp, source: string, result: ExtractionResult)
    ensures GoodEdges(cfg, EdgesOf(cfg, stamp, source, result),
                      ConceptsOf(cfg, stamp, source, result.entities).entities, ChunkId(stamp.owner, source, 0))
  {
    var c := ConceptsOf(cfg, stamp, source, result.entities);
    var anchor := ChunkId(stamp.owner, source, 0);
    ConceptsAreCapped(cfg, stamp, source, result.entities);
    ExtractedEdgesAreGood(cfg, c.byKey, result.relations, c.entities, anchor);
    MentionsAreGood(cfg, anchor, ExtractedEdges(cfg, c.byKey, result.relations), c.entities, |c.entities|);
    assert c.entities[..|c.entities|] == c.entities;
  }

  /** A chunk id is never mistaken for an extracted one: a digit follows where `entity:` would. */
  lemma ChunkIsNotExtracted(owner: string, source: string, index: nat)
    ensures !(ExtractionPrefix(owner, source) <= ChunkId(owner, source, index))
    ensures DocumentPrefix(owner, source) <= ChunkId(owner, source, index)
    ensures ExtractionPrefix(owner, source) == DocumentPrefix(owner, source) + "entity:"
  {
    var n := |DocumentPrefix(owner, source)|;
    assert ExtractionPrefix(owner, source) == DocumentPrefix(owner, source) + "entity:";
    assert ExtractionPrefix(owner, source)[n] == 'e';
    assert ChunkId(owner, source, index)[n] == Padded(index)[0];
  }

  // ----- one ingest -----

  /** Everything one accepted request writes. */
  ghost function Written(cfg: Config, r: Request, stamp: Stamp): seq<Entity>
    requires ValidConfig(cfg)
  {
    WrittenChunks(cfg, r, stamp) +
    if Enriched(cfg, r)
    then ConceptsOf(cfg, stamp, SourceId(cfg, r.doc), r.extraction.result.entities).entities else []
  }

  lemma ChunksAreStamped(cfg: Config, r: Request, stamp: Stamp)
    requires ValidConfig(cfg)
    ensures Stamped(WrittenChunks(cfg, r, stamp), stamp)
    ensures forall e | e in WrittenChunks(cfg, r, stamp) ::
              && DocumentPrefix(stamp.owner, SourceId(cfg, r.doc)) <= e.id
              && !(ExtractionPrefix(stamp.owner, SourceId(cfg, r.doc)) <= e.id)
  {
    var source := SourceId(cfg, r.doc);
    forall e | e in WrittenChunks(cfg, r, stamp)
      ensures e.acl == stamp.acl && e.scope == stamp.scope
      ensures DocumentPrefix(stamp.owner, source) <= e.id && !(ExtractionPrefix(stamp.owner, source) <= e.id)
    {
      var i :| 0 <= i < |WrittenChunks(cfg, r, stamp)| && WrittenChunks(cfg, r, stamp)[i] == e;
      assert e.id == ChunkId(stamp.owner, source, i);
      ChunkIsNotExtracted(stamp.owner, source, i);
    }
  }

  /** Scope and ACL of whatever is written come from the server's stamp, chunk or concept alike, and
      every written id lies under the document's own prefix. */
  lemma ExtractorNeverDecidesAccess(cfg: Config, r: Request, stamp: Stamp)
    requires ValidConfig(cfg)
    ensures Stamped(Written(cfg, r, stamp), stamp)
    ensures forall e | e in Written(cfg, r, stamp) :: DocumentPrefix(stamp.owner, SourceId(cfg, r.doc)) <= e.id
  {
    var source := SourceId(cfg, r.doc);
    ChunksAreStamped(cfg, r, stamp);
    ChunkIsNotExtracted(stamp.owner, source, 0);
    if Enriched(cfg, r) {
      ConceptsAreCapped(cfg, stamp, source, r.extraction.result.entities);
    }
    forall e | e in Written(cfg, r, stamp)
      ensures e.acl == stamp.acl && e.scope == stamp.scope && DocumentPrefix(stamp.owner, source) <= e.id
    {
      if e !in WrittenChunks(cfg, r, stamp) {
        PrefixOfPrefix(DocumentPrefix(stamp.owner, source), ExtractionPrefix(stamp.owner, source), e.id);
      }
    }
  }

  lemma PrefixOfPrefix(a: string, b: string, c: string)
    requires a <= b <= c
    ensures a <= c
  {
  }

  ghost predicate Healthy(g: Graph) {
    && WellKeyed(g) && Distinct(g.relations)
    && forall e | e in g.relations :: e.src in g.entities && e.dst in g.entities
  }

  lemma WriteChunks(cfg: Config, r: Request, stamp: Stamp, g: Graph)
    requires ValidConfig(cfg) && Healthy(g)
    ensures Healthy(UpsertAll(g, WrittenChunks(cfg, r, stamp)))
  {
    UpsertAllContents(g, WrittenChunks(cfg, r, stamp));
    UpsertAllKeyed(g, WrittenChunks(cfg, r, stamp));
  }

  lemma WriteConcepts(cfg: Config, stamp: Stamp, source: string, result: ExtractionResult, g: Graph)
    requires Healthy(g) && ChunkId(stamp.owner, source, 0) in g.entities
    ensures Healthy(PersistResult(cfg, stamp, source, result, g))
  {
    var prefix := ExtractionPrefix(stamp.owner, source);
    var es := ConceptsOf(cfg, stamp, source, result.entities).entities;
    var rs := EdgesOf(cfg, stamp, source, result);
    ConceptsAreCapped(cfg, stamp, source, result.entities);
    EdgesAreGood(cfg, stamp, source, result);
    ChunkIsNotExtracted(stamp.owner, source, 0);
    PersistContents(g, prefix, es, rs);
    var g' := PersistResult(cfg, stamp, source, result, g);
    forall e | e in g'.relations ensures e.src in g'.entities && e.dst in g'.entities {
      if e !in rs {
        assert e in g.relations && !Touches(e, prefix);
      }
    }
  }

  /** Dangling edges and duplicate edges are impossible, whatever the extractor proposes and wherever
      the store fails. */
  lemma IngestKeepsHealth(cfg: Config, r: Request, g: Graph)
    requires ValidConfig(cfg) && Healthy(g)
    ensures Healthy(Ingest(cfg, r, g))
  {
    var accepted := Accepted(cfg, r);
    if accepted.Some? {
      var stamp, source := accepted.value, SourceId(cfg, r.doc);
      WriteChunks(cfg, r, stamp, g);
      if Enriched(cfg, r) {
        var chunks := WrittenChunks(cfg, r, stamp);
        UpsertAllContents(g, chunks);
        assert chunks[0].id == ChunkId(stamp.owner, source, 0) && chunks[0] in chunks;
        WriteConcepts(cfg, stamp, source, r.extraction.result, UpsertAll(g, chunks));
      }
    }
  }

  /** Every entity afterwards was written by this request, or was there before and untouched. */
  lemma IngestContents(cfg: Config, r: Request, g: Graph, id: string)
    requires ValidConfig(cfg) && Healthy(g) && id in Ingest(cfg, r, g).entities
    ensures var e := Ingest(cfg, r, g).entities[id];
            || (Accepted(cfg, r).Some? && e in Written(cfg, r, Accepted(cfg, r).value) && e.id == id)
            || (id in g.entities && e == g.entities[id] &&
                (Accepted(cfg, r).Some? ==> !HasId(Written(cfg, r, Accepted(cfg, r).value), id)))
  {
    var accepted := Accepted(cfg, r);
    if accepted.Some? {
      var stamp, source := accepted.value, SourceId(cfg, r.doc);
      var chunks := WrittenChunks(cfg, r, stamp);
      var g1 := UpsertAll(g, chunks);
      UpsertAllContents(g, chunks);
      WriteChunks(cfg, r, stamp, g);
      ChunksAreStamped(cfg, r, stamp);
      if Enriched(cfg, r) {
        var es := ConceptsOf(cfg, stamp, source, r.extraction.result.entities).entities;
        ConceptsAreCapped(cfg, stamp, source, r.extraction.result.entities);
        PersistContents(g1, ExtractionPrefix(stamp.owner, source), es, EdgesOf(cfg, stamp, source, r.extraction.result));
        assert forall e :: e in Written(cfg, r, stamp) <==> e in chunks || e in es;
      }
    }
  }

  // ----- sequences of ingests -----

  function Replay(cfg: Config, requests: seq<Request>): Graph
    requires ValidConfig(cfg)
  {
    if requests == [] then EMPTY
    else Ingest(cfg, requests[|requests| - 1], Replay(cfg, requests[..|requests| - 1]))
  }

  /** After any sequence of ingests from an empty graph: every edge joins two stored entities and no
      edge is stored twice. */
  lemma {:induction false} GraphStaysHealthy(cfg: Config, requests: seq<Request>)
    requires ValidConfig(cfg)
    ensures Healthy(Replay(cfg, requests))
  {
    if requests != [] {
      var n := |requests| - 1;
      GraphStaysHealthy(cfg, requests[..n]);
      IngestKeepsHealth(cfg, requests[n], Replay(cfg, requests[..n]));
    }
  }

  /** Whose accepted ingest last wrote each id. */
  ghost function Writers(cfg: Config, requests: seq<Request>): map<string, string>
    requires ValidConfig(cfg)
  {
    if requests == [] then map[]
    else
      var n := |requests| - 1;
      var before := Writers(cfg, requests[..n]);
      var accepted := Accepted(cfg, requests[n]);
      if accepted.None? then before
      else Credit(before, Written(cfg, requests[n], accepted.value), requests[n].principal.value.userId)
  }

  ghost function Credit(writers: map<string, string>, es: seq<Entity>, user: string): (credited: map<string, string>)
    ensures forall id :: id in credited <==> id in writers || HasId(es, id)
    ensures forall id | id in credited :: credited[id] == if HasId(es, id) then user else writers[id]
  {
    var written := set e | e in es :: e.id;
    map id | id in writers.Keys + written :: if id in written then user else writers[id]
  }

  ghost predicate Private(g: Graph, writers: map<string, string>) {
    forall id | id in g.entities ::
      && id in writers && g.entities[id].acl != []
      && (g.entities[id].scope == Personal ==> g.entities[id].acl == [IdentityAcl(writers[id])])
  }

  /** A stamp never leaves an entity open to the world, and a personal one names the writer. */
  lemma StampIsPrivate(cfg: Config, r: Request)
    requires ValidConfig(cfg) && Accepted(cfg, r).Some?
    ensures var stamp := Accepted(cfg, r).value;
            stamp.acl != [] && (stamp.scope == Personal ==> stamp.acl == [IdentityAcl(r.principal.value.userId)])
  {
  }

  lemma WritersAfter(cfg: Config, requests: seq<Request>, id: string)
    requires ValidConfig(cfg) && requests != []
    ensures var n := |requests| - 1;
            var accepted := Accepted(cfg, requests[n]);
            var written := accepted.Some? && HasId(Written(cfg, requests[n], accepted.value), id);
            && (id in Writers(cfg, requests) <==> written || id in Writers(cfg, requests[..n]))
            && (written ==> Writers(cfg, requests)[id] == requests[n].principal.value.userId)
            && (!written && id in Writers(cfg, requests) ==>
                  Writers(cfg, requests)[id] == Writers(cfg, requests[..n])[id])
  {
  }

  lemma {:induction false} GraphStaysPrivate(cfg: Config, requests: seq<Request>)
    requires ValidConfig(cfg)
    ensures Private(Replay(cfg, requests), Writers(cfg, requests))
  {
    if requests != [] {
      var n := |requests| - 1;
      GraphStaysPrivate(cfg, requests[..n]);
      GraphStaysHealthy(cfg, requests[..n]);
      forall id | id in Replay(cfg, requests).entities
        ensures var e := Replay(cfg, requests).entities[id];
                && id in Writers(cfg, requests) && e.acl != []
                && (e.scope == Personal ==> e.acl == [IdentityAcl(Writers(cfg, requests)[id])])
      {
        EntityStaysPrivate(cfg, requests, id);
      }
    }
  }

  lemma EntityStaysPrivate(cfg: Config, requests: seq<Request>, id: string)
    requires ValidConfig(cfg) && requests != [] && id in Replay(cfg, requests).entities
    requires Private(Replay(cfg, requests[..|requests| - 1]), Writers(cfg, requests[..|requests| - 1]))
    requires Healthy(Replay(cfg, requests[..|requests| - 1]))
    ensures var e := Replay(cfg, requests).entities[id];
            && id in Writers(cfg, requests) && e.acl != []
            && (e.scope == Personal ==> e.acl == [IdentityAcl(Writers(cfg, requests)[id])])
  {
    var n := |requests| - 1;
    var r := requests[n];
    IngestContents(cfg, r, Replay(cfg, requests[..n]), id);
    WritersAfter(cfg, requests, id);
    if Accepted(cfg, r).Some? {
      ExtractorNeverDecidesAccess(cfg, r, Accepted(cfg, r).value);
      StampIsPrivate(cfg, r);
    }
  }

  /** Over every sequence of ingests by anybody: no stored entity is world-readable, and a personal one
      is readable, under any policy, only by the user whose ingest wrote it. */
  lemma PersonalKnowledgeStaysPersonal(cfg: Config, requests: seq<Request>, id: string,
                                       reader: Option<Principal>, policy: Policy)
    requires ValidConfig(cfg) && id in Replay(cfg, requests).entities
    ensures id in Writers(cfg, requests) && Replay(cfg, requests).entities[id].acl != []
    ensures Replay(cfg, requests).entities[id].scope == Personal ==>
              (CanRead(reader, Replay(cfg, requests).entities[id], policy) <==>
               reader.Some? && reader.value.userId == Writers(cfg, requests)[id])
  {
    GraphStaysPrivate(cfg, requests);
    IdentityAclIsPrivate(reader, Writers(cfg, requests)[id], EffectivePermissions(reader, policy));
  }

  /** So a query hands a personal entity to its writer and to nobody else. */
  lemma QueryNeverLeaksPersonal(cfg: Config, requests: seq<Request>, reader: Option<Principal>,
                                text: string, policy: Policy, limit: int)
    requires ValidConfig(cfg)
    ensures WellKeyed(Replay(cfg, requests))
    ensures var g := Replay(cfg, requests);
            forall e | e in UpTo(WantedAmong(g.ids, g.entities, reader, text, policy), limit) && e.scope == Personal ::
              e.id in Writers(cfg, requests) && reader.Some? && reader.value.userId == Writers(cfg, requests)[e.id]
  {
    var g := Replay(cfg, requests);
    GraphStaysHealthy(cfg, requests);
    WantedAreReadable(g.ids, g.entities, reader, text, policy);
    var all := WantedAmong(g.ids, g.entities, reader, text, policy);
    forall e | e in UpTo(all, limit) && e.scope == Personal
      ensures e.id in Writers(cfg, requests) && reader.Some? && reader.value.userId == Writers(cfg, requests)[e.id]
    {
      assert e in all;
      var id :| id in g.ids && g.entities[id] == e;
      PersonalKnowledgeStaysPersonal(cfg, requests, id, reader, policy);
    }
  }
}
