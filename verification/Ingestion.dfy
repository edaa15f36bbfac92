/** The write path of the knowledge graph: scope and ACL resolution, chunk entities, and the capped
    persistence of untrusted extractor output. */
module Ingestion {
  import opened Collections
  import opened Rbac
  import opened ReadAccess
  import opened Chunking
  import opened KnowledgeStore
  import AuditChain

  datatype Document = Document(text: string, title: string, kind: string, scope: Scope,
                               sourceId: Option<string>, orgAcl: Option<seq<string>>)

  datatype ExtractedEntity = ExtractedEntity(name: string, kind: string)

  datatype ExtractedRelation = ExtractedRelation(srcName: string, srcKind: string,
                                                 dstName: string, dstKind: string, kind: string)

  datatype ExtractionResult = ExtractionResult(entities: seq<ExtractedEntity>, relations: seq<ExtractedRelation>)

  /** No extractor, an extractor that raised, or whatever it returned. */
  datatype Extraction = Disabled | Raised | Found(result: ExtractionResult)

  /** `titleHash`, `normalize` and `digest` stand for the hashing and case folding of names; nothing
      is assumed of them, not even that distinct names get distinct digests. */
  datatype Config = Config(size: nat, overlap: nat, maxEntities: nat, maxRelations: nat,
                           titleHash: string -> string, normalize: string -> string,
                           digest: (string, string) -> string)

  ghost predicate ValidConfig(cfg: Config) {
    cfg.overlap < cfg.size && cfg.maxEntities > 0 && cfg.maxRelations > 0
  }

  const ORG_WRITE_PERMISSION := "kg:write:org"
  const DEFAULT_ORG_ACL := ["kg:read:org"]
  const MENTIONS := "mentions"

  // ----- identifiers -----

  function SourceId(cfg: Config, doc: Document): string {
    if doc.sourceId.Some? && doc.sourceId.value != "" then doc.sourceId.value else cfg.titleHash(doc.title)
  }

  function Digit(d: nat): char
    requires d < 10
  {
    ('0' as int + d) as char
  }

  function Decimal(n: nat): (s: string)
    ensures s != "" && forall i | 0 <= i < |s| :: '0' <= s[i] <= '9'
  {
    if n < 10 then [Digit(n)] else Decimal(n / 10) + [Digit(n % 10)]
  }

  /** `{n:04d}`. */
  function Padded(n: nat): (s: string)
    ensures s != "" && forall i | 0 <= i < |s| :: '0' <= s[i] <= '9'
  {
    var digits := Decimal(n);
    if |digits| >= 4 then digits else seq(4 - |digits|, _ => '0') + digits
  }

  function DocumentPrefix(owner: string, source: string): string {
    owner + ":" + source + ":"
  }

  function ChunkId(owner: string, source: string, index: nat): string {
    DocumentPrefix(owner, source) + Padded(index)
  }

  function ConceptId(cfg: Config, owner: string, source: string, kind: string, name: string): string {
    ExtractionPrefix(owner, source) + kind + ":" + cfg.digest(kind, name)
  }

  // ----- authorization -----

  /** What the server stamps on everything one ingest writes. */
  datatype Stamp = Stamp(scope: Scope, acl: seq<string>, owner: string)

  function Resolve(policy: Policy, principal: Principal, doc: Document): Option<Stamp> {
    match doc.scope
    case Personal =>
      if doc.orgAcl.Some? then None
      else Some(Stamp(Personal, [IdentityAcl(principal.userId)], "personal:" + principal.userId))
    case Org =>
      if !Can(Some(principal), Some(ORG_WRITE_PERMISSION), policy) then None
      else Some(Stamp(Org, if doc.orgAcl.Some? && doc.orgAcl.value != [] then doc.orgAcl.value else DEFAULT_ORG_ACL,
                      "org"))
  }

  // ----- what one ingest writes -----

  function ChunkEntities(doc: Document, stamp: Stamp, source: string, chunks: seq<string>): (es: seq<Entity>)
    ensures |es| == |chunks|
  {
    seq(|chunks|, i requires 0 <= i < |chunks| =>
      Entity(ChunkId(stamp.owner, source, i), doc.kind, doc.title + " [" + Decimal(i) + "]", chunks[i],
             stamp.acl, stamp.scope))
  }

  type Key = (string, string)

  /** Concepts collected so far: their ids by (kind, normalized name), and the entities in order. */
  datatype Concepts = Concepts(byKey: map<Key, string>, entities: seq<Entity>)

  function AddConcept(cfg: Config, stamp: Stamp, source: string, c: Concepts, e: ExtractedEntity): Concepts {
    var key := (e.kind, cfg.normalize(e.name));
    if |c.entities| >= cfg.maxEntities || key in c.byKey then c
    else
      var id := ConceptId(cfg, stamp.owner, source, e.kind, key.1);
      Concepts(c.byKey[key := id], c.entities + [Entity(id, e.kind, e.name, "", stamp.acl, stamp.scope)])
  }

  function ConceptsOf(cfg: Config, stamp: Stamp, source: string, proposed: seq<ExtractedEntity>): Concepts {
    if proposed == [] then Concepts(map[], [])
    else AddConcept(cfg, stamp, source, ConceptsOf(cfg, stamp, source, proposed[..|proposed| - 1]),
                    proposed[|proposed| - 1])
  }

  /** An edge survives only if both ends were extracted, it is new, and there is room. */
  function AddExtractedEdge(cfg: Config, byKey: map<Key, string>, edges: seq<Relation>, r: ExtractedRelation): seq<Relation> {
    var src, dst := (r.srcKind, cfg.normalize(r.srcName)), (r.dstKind, cfg.normalize(r.dstName));
    if |edges| >= cfg.maxRelations || src !in byKey || dst !in byKey then edges
    else AddEdge(edges, Relation(byKey[src], byKey[dst], r.kind))
  }

  function ExtractedEdges(cfg: Config, byKey: map<Key, string>, rs: seq<ExtractedRelation>): seq<Relation> {
    if rs == [] then []
    else AddExtractedEdge(cfg, byKey, ExtractedEdges(cfg, byKey, rs[..|rs| - 1]), rs[|rs| - 1])
  }

  function AddMention(cfg: Config, anchor: string, edges: seq<Relation>, e: Entity): seq<Relation> {
    if |edges| >= cfg.maxRelations then edges else AddEdge(edges, Relation(anchor, e.id, MENTIONS))
  }

  /** Inter-concept edges first, then one mention per concept from the first chunk. */
  function WithMentions(cfg: Config, anchor: string, edges: seq<Relation>, concepts: seq<Entity>): seq<Relation> {
    if concepts == [] then edges
    else AddMention(cfg, anchor, WithMentions(cfg, anchor, edges, concepts[..|concepts| - 1]),
                    concepts[|concepts| - 1])
  }

  function EdgesOf(cfg: Config, stamp: Stamp, source: string, result: ExtractionResult): seq<Relation> {
    var concepts := ConceptsOf(cfg, stamp, source, result.entities);
    WithMentions(cfg, ChunkId(stamp.owner, source, 0), ExtractedEdges(cfg, concepts.byKey, result.relations),
                 concepts.entities)
  }

  function PersistResult(cfg: Config, stamp: Stamp, source: string, result: ExtractionResult, g: Graph): Graph {
    Persist(g, ExtractionPrefix(stamp.owner, source), ConceptsOf(cfg, stamp, source, result.entities).entities,
            EdgesOf(cfg, stamp, source, result))
  }

  /** A store fault: the n-th chunk upsert raises (and the ingest with it), or the extraction batch
      raises somewhere and is rolled back. */
  datatype Fault = NoFault | ChunkFault(at: nat) | BatchFault(at: nat)

  datatype Request = Request(policy: Policy, principal: Option<Principal>, doc: Document,
                             extraction: Extraction, fault: Fault)

  /** Refused requests: no identity, no authority, an ambiguous ACL, or no text. */
  function Accepted(cfg: Config, r: Request): Option<Stamp>
    requires ValidConfig(cfg)
  {
    if r.principal.None? || r.principal.value == ANONYMOUS then None
    else if ChunksOf(r.doc.text, cfg.size, cfg.overlap) == [] then None
    else Resolve(r.policy, r.principal.value, r.doc)
  }

  function WrittenChunks(cfg: Config, r: Request, stamp: Stamp): seq<Entity>
    requires ValidConfig(cfg)
  {
    var all := ChunkEntities(r.doc, stamp, SourceId(cfg, r.doc), ChunksOf(r.doc.text, cfg.size, cfg.overlap));
    if r.fault.ChunkFault? && r.fault.at < |all| then all[..r.fault.at] else all
  }

  predicate Enriched(cfg: Config, r: Request)
    requires ValidConfig(cfg)
  {
    && r.extraction.Found? && !r.fault.BatchFault?
    && !(r.fault.ChunkFault? && r.fault.at < |ChunksOf(r.doc.text, cfg.size, cfg.overlap)|)
  }

  function Ingest(cfg: Config, r: Request, g: Graph): Graph
    requires ValidConfig(cfg)
  {
    var stamp := Accepted(cfg, r);
    if stamp.None? then g
    else
      var written := UpsertAll(g, WrittenChunks(cfg, r, stamp.value));
      if Enriched(cfg, r)
      then PersistResult(cfg, stamp.value, SourceId(cfg, r.doc), r.extraction.result, written)
      else written
  }

  // ----- the service -----

  /** What an ingest reports: the chunks it wrote, and what it extracted unless extraction is off. */
  datatype Report = Report(entityIds: seq<string>, scope: Scope, sourceId: string,
                           extractedCount: Option<nat>, relationCount: Option<nat>)

  datatype Outcome = Refused | StoreFailed | Completed(report: Report)

  /** The report promised for an accepted, undisturbed request. */
  function ReportOf(cfg: Config, r: Request, stamp: Stamp): Report
    requires ValidConfig(cfg)
  {
    var source := SourceId(cfg, r.doc);
    Report(Ids(WrittenChunks(cfg, r, stamp)), stamp.scope, source,
           if r.extraction.Disabled? then None
           else if Enriched(cfg, r) then Some(|ConceptsOf(cfg, stamp, source, r.extraction.result.entities).entities|)
           else Some(0),
           if r.extraction.Disabled? then None
           else if Enriched(cfg, r) then Some(|EdgesOf(cfg, stamp, source, r.extraction.result)|)
           else Some(0))
  }

  function ShowCount(key: string, count: Option<nat>): string {
    if count.None? then "" else key + Decimal(count.value)
  }

  /** The audit entry of an ingest: who, which source, and counts; never the text. */
  function IngestEvent(report: Report, actor: string): AuditChain.AuditEvent {
    AuditChain.AuditEvent(AuditChain.Ingested, report.sourceId, actor, AuditChain.Absent,
                          (if report.scope == Personal then "scope:personal" else "scope:org") +
                          " entity_count:" + Decimal(|report.entityIds|) +
                          ShowCount(" extracted_entity_count:", report.extractedCount) +
                          ShowCount(" relation_count:", report.relationCount))
  }

  /** The writer over a live store: loops that upsert chunk by chunk and collect under the caps, proved
      to do to the store what `Ingest` does to the graph. */
  class IngestionService {
    const cfg: Config
    const knowledge: InMemoryKnowledgeGraph
    const audit: AuditChain.InMemoryAuditLog?

    constructor (cfg: Config, knowledge: InMemoryKnowledgeGraph, audit: AuditChain.InMemoryAuditLog?)
      requires ValidConfig(cfg)
      ensures this.cfg == cfg && this.knowledge == knowledge && this.audit == audit
    {
      this.cfg, this.knowledge, this.audit := cfg, knowledge, audit;
    }

    method CollectConcepts(stamp: Stamp, source: string, proposed: seq<ExtractedEntity>) returns (c: Concepts)
      ensures c == ConceptsOf(cfg, stamp, source, proposed)
    {
      c := Concepts(map[], []);
      for i := 0 to |proposed|
        invariant c == ConceptsOf(cfg, stamp, source, proposed[..i])
      {
        if |c.entities| >= cfg.maxEntities {
          FullConceptsStay(cfg, stamp, source, proposed, i);
          return;
        }
        assert proposed[..i + 1][..i] == proposed[..i];
        var key := (proposed[i].kind, cfg.normalize(proposed[i].name));
        if key in c.byKey {
          continue;
        }
        var id := ConceptId(cfg, stamp.owner, source, proposed[i].kind, key.1);
        c := Concepts(c.byKey[key := id],
                      c.entities + [Entity(id, proposed[i].kind, proposed[i].name, "", stamp.acl, stamp.scope)]);
      }
      assert proposed[..|proposed|] == proposed;
    }

    method CollectRelations(byKey: map<Key, string>, rs: seq<ExtractedRelation>) returns (edges: seq<Relation>)
      ensures edges == ExtractedEdges(cfg, byKey, rs)
    {
      edges := [];
      for i := 0 to |rs|
        invariant edges == ExtractedEdges(cfg, byKey, rs[..i])
      {
        if |edges| >= cfg.maxRelations {
          FullEdgesStay(cfg, byKey, rs, i);
          return;
        }
        assert rs[..i + 1][..i] == rs[..i];
        var src := (rs[i].srcKind, cfg.normalize(rs[i].srcName));
        var dst := (rs[i].dstKind, cfg.normalize(rs[i].dstName));
        if src !in byKey || dst !in byKey {
          continue;
        }
        var edge := Relation(byKey[src], byKey[dst], rs[i].kind);
        if edge in edges {
          continue;
        }
        edges := edges + [edge];
      }
      assert rs[..|rs|] == rs;
    }

    method AnchorConcepts(anchor: string, concepts: seq<Entity>, already: seq<Relation>) returns (edges: seq<Relation>)
      ensures edges == WithMentions(cfg, anchor, already, concepts)
    {
      edges := already;
      for i := 0 to |concepts|
        invariant edges == WithMentions(cfg, anchor, already, concepts[..i])
      {
        if |edges| >= cfg.maxRelations {
          FullMentionsStay(cfg, anchor, already, concepts, i);
          return;
        }
        assert concepts[..i + 1][..i] == concepts[..i];
        var edge := Relation(anchor, concepts[i].id, MENTIONS);
        if edge in edges {
          continue;
        }
        edges := edges + [edge];
      }
      assert concepts[..|concepts|] == concepts;
    }

    /** Collect, then hand the store one atomic replacement; `failAt` is the write at which the store raises,
        or, in a shorter batch, its end. */
    method PersistExtraction(stamp: Stamp, source: string, result: ExtractionResult, failAt: Option<nat>)
      returns (entityCount: nat, relationCount: nat, ok: bool)
      modifies knowledge
      ensures ok ==> knowledge.Model() == PersistResult(cfg, stamp, source, result, old(knowledge.Model()))
      ensures !ok ==> knowledge.Model() == old(knowledge.Model())
      ensures ok <==> failAt.None?
      ensures entityCount == |ConceptsOf(cfg, stamp, source, result.entities).entities|
      ensures relationCount == |EdgesOf(cfg, stamp, source, result)|
    {
      var concepts := CollectConcepts(stamp, source, result.entities);
      var edges := CollectRelations(concepts.byKey, result.relations);
      edges := AnchorConcepts(ChunkId(stamp.owner, source, 0), concepts.entities, edges);
      ok := knowledge.PersistExtraction(ExtractionPrefix(stamp.owner, source), concepts.entities, edges,
                                        if failAt.Some? then Some(Min(failAt.value, |concepts.entities| + |edges|)) else None);
      entityCount, relationCount := |concepts.entities|, |edges|;
    }

    /** Write the chunks one by one; the store may raise at one of them. */
    method WriteChunks(doc: Document, stamp: Stamp, source: string, chunks: seq<string>, raiseAt: Option<nat>)
      returns (ok: bool)
      modifies knowledge
      ensures ok <==> raiseAt.None? || raiseAt.value >= |chunks|
      ensures var es := ChunkEntities(doc, stamp, source, chunks);
              knowledge.Model() == UpsertAll(old(knowledge.Model()), if ok then es else es[..raiseAt.value])
    {
      ghost var es := ChunkEntities(doc, stamp, source, chunks);
      for i := 0 to |chunks|
        invariant knowledge.Model() == UpsertAll(old(knowledge.Model()), es[..i])
        invariant raiseAt.Some? ==> i <= raiseAt.value
      {
        if raiseAt == Some(i) {
          return false;
        }
        UpsertOneMore(old(knowledge.Model()), es, i);
        knowledge.UpsertEntity(Entity(ChunkId(stamp.owner, source, i), doc.kind,
                                      doc.title + " [" + Decimal(i) + "]", chunks[i], stamp.acl, stamp.scope));
      }
      assert es[..|chunks|] == es;
      return true;
    }

    /** Enrichment never fails the ingest: an extractor or a store that raises leaves chunks only. */
    method Enrich(r: Request, stamp: Stamp, source: string) returns (extracted: Option<nat>, relations: Option<nat>)
      modifies knowledge
      ensures knowledge.Model() ==
                if r.extraction.Found? && !r.fault.BatchFault?
                then PersistResult(cfg, stamp, source, r.extraction.result, old(knowledge.Model()))
                else old(knowledge.Model())
      ensures extracted.None? <==> r.extraction.Disabled?
      ensures extracted.None? <==> relations.None?
      ensures r.extraction.Raised? || (r.extraction.Found? && r.fault.BatchFault?) ==>
                extracted == Some(0) && relations == Some(0)
      ensures r.extraction.Found? && !r.fault.BatchFault? ==>
                && extracted == Some(|ConceptsOf(cfg, stamp, source, r.extraction.result.entities).entities|)
                && relations == Some(|EdgesOf(cfg, stamp, source, r.extraction.result)|)
    {
      match r.extraction {
        case Disabled => return None, None;
        case Raised => return Some(0), Some(0);
        case Found(result) =>
          var entityCount, relationCount, ok :=
            PersistExtraction(stamp, source, result, if r.fault.BatchFault? then Some(r.fault.at) else None);
          if ok {
            return Some(entityCount), Some(relationCount);
          }
          return Some(0), Some(0);
      }
    }

    method IngestDocument(r: Request) returns (outcome: Outcome)
      requires ValidConfig(cfg) && (audit != null ==> audit.Valid())
      modifies knowledge, audit
      ensures knowledge.Model() == Ingest(cfg, r, old(knowledge.Model()))
      ensures outcome.Refused? <==> Accepted(cfg, r).None?
      ensures outcome.StoreFailed? <==>
                && Accepted(cfg, r).Some? && r.fault.ChunkFault?
                && r.fault.at < |ChunksOf(r.doc.text, cfg.size, cfg.overlap)|
      ensures outcome.Completed? ==> outcome.report == ReportOf(cfg, r, Accepted(cfg, r).value)
      ensures audit != null ==>
                && audit.Valid() && old(audit.records) <= audit.records
                && AuditChain.Events(audit.records) == old(AuditChain.Events(audit.records)) +
                   if outcome.Completed? then [IngestEvent(outcome.report, r.principal.value.userId)] else []
      ensures audit != null && outcome.Completed? ==>
                && |audit.records| == |old(audit.records)| + 1
                && var entry := audit.records[|old(audit.records)|].event;
                   && entry.eventType == AuditChain.Ingested && entry.ok == AuditChain.Absent
                   && entry.actionId == SourceId(cfg, r.doc) && entry.actor == r.principal.value.userId
    {
      if r.principal.None? || r.principal.value == ANONYMOUS {
        return Refused;
      }
      var resolved := Resolve(r.policy, r.principal.value, r.doc);
      if resolved.None? {
        return Refused;
      }
      var stamp, source := resolved.value, SourceId(cfg, r.doc);
      var chunked := ChunkText(r.doc.text, cfg.size, cfg.overlap);
      if chunked.chunks == [] {
        return Refused;
      }
      assert Accepted(cfg, r) == Some(stamp);
      var written := WriteChunks(r.doc, stamp, source, chunked.chunks,
                                 if r.fault.ChunkFault? then Some(r.fault.at) else None);
      assert knowledge.Model() == UpsertAll(old(knowledge.Model()), WrittenChunks(cfg, r, stamp));
      if !written {
        return StoreFailed;
      }
      var extracted, relations := Enrich(r, stamp, source);
      var report := Report(Ids(ChunkEntities(r.doc, stamp, source, chunked.chunks)), stamp.scope, source,
                           extracted, relations);
      if audit != null {
        audit.Append(IngestEvent(report, r.principal.value.userId));
      }
      return Completed(report);
    }
  }

  /** Once a cap is reached the rest of the extractor's output is ignored, as the early exit assumes. */
  lemma {:induction false} FullConceptsStay(cfg: Config, stamp: Stamp, source: string, proposed: seq<ExtractedEntity>, n: nat)
    requires n <= |proposed| && |ConceptsOf(cfg, stamp, source, proposed[..n]).entities| >= cfg.maxEntities
    ensures ConceptsOf(cfg, stamp, source, proposed) == ConceptsOf(cfg, stamp, source, proposed[..n])
    decreases |proposed|
  {
    if n == |proposed| {
      assert proposed[..n] == proposed;
    } else {
      assert proposed[..|proposed| - 1][..n] == proposed[..n];
      FullConceptsStay(cfg, stamp, source, proposed[..|proposed| - 1], n);
    }
  }

  lemma {:induction false} FullEdgesStay(cfg: Config, byKey: map<Key, string>, rs: seq<ExtractedRelation>, n: nat)
    requires n <= |rs| && |ExtractedEdges(cfg, byKey, rs[..n])| >= cfg.maxRelations
    ensures ExtractedEdges(cfg, byKey, rs) == ExtractedEdges(cfg, byKey, rs[..n])
    decreases |rs|
  {
    if n == |rs| {
      assert rs[..n] == rs;
    } else {
      assert rs[..|rs| - 1][..n] == rs[..n];
      FullEdgesStay(cfg, byKey, rs[..|rs| - 1], n);
    }
  }

  lemma {:induction false} FullMentionsStay(cfg: Config, anchor: string, edges: seq<Relation>, concepts: seq<Entity>, n: nat)
    requires n <= |concepts| && |WithMentions(cfg, anchor, edges, concepts[..n])| >= cfg.maxRelations
    ensures WithMentions(cfg, anchor, edges, concepts) == WithMentions(cfg, anchor, edges, concepts[..n])
    decreases |concepts|
  {
    if n == |concepts| {
      assert concepts[..n] == concepts;
    } else {
      assert concepts[..|concepts| - 1][..n] == concepts[..n];
      FullMentionsStay(cfg, anchor, edges, concepts[..|concepts| - 1], n);
    }
  }
}
