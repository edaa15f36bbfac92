/** What survives of an extraction, said of the proposals themselves: which concepts, under which name, kind
    and id, and which edges, in which direction and of which kind. */
module ExtractionShape {
  import opened Collections
  import opened ReadAccess
  import opened KnowledgeStore
  import opened Ingestion

  ghost predicate Increasing(at: seq<nat>, n: nat) {
    && (forall k | 0 <= k < |at| :: at[k] < n)
    && forall j, k | 0 <= j < k < |at| :: at[j] < at[k]
  }

  // ----- concepts -----

  /** Two proposals of one kind whose names are normalized alike are one concept. */
  predicate SameConcept(cfg: Config, a: ExtractedEntity, b: ExtractedEntity) {
    a.kind == b.kind && cfg.normalize(a.name) == cfg.normalize(b.name)
  }

  /** Nothing proposed earlier is the same concept. */
  predicate FirstProposed(cfg: Config, proposed: seq<ExtractedEntity>, i: nat)
    requires i < |proposed|
  {
    forall j | 0 <= j < i :: !SameConcept(cfg, proposed[j], proposed[i])
  }

  /** The entity stands for the proposal: its kind, its name as proposed, no content, the server's stamp, and
      an id of document, kind and digest of the normalized name. */
  predicate StandsFor(cfg: Config, stamp: Stamp, source: string, e: Entity, p: ExtractedEntity) {
    && e.kind == p.kind && e.name == p.name && e.content == "" && e.acl == stamp.acl && e.scope == stamp.scope
    && e.id == stamp.owner + ":" + source + ":entity:" + p.kind + ":" + cfg.digest(p.kind, cfg.normalize(p.name))
  }

  /** `at` says from which proposals the concepts come: the first of each, in order, up to the cap. */
  ghost predicate ComeFrom(cfg: Config, stamp: Stamp, source: string, proposed: seq<ExtractedEntity>,
                           concepts: seq<Entity>, at: seq<nat>) {
    && |at| == |concepts| <= cfg.maxEntities && Increasing(at, |proposed|)
    && (forall k | 0 <= k < |at| ::
          FirstProposed(cfg, proposed, at[k]) && StandsFor(cfg, stamp, source, concepts[k], proposed[at[k]]))
    && forall i | 0 <= i < |proposed| && FirstProposed(cfg, proposed, i) ::
         i in at || (|at| == cfg.maxEntities && forall k | 0 <= k < |at| :: at[k] < i)
  }

  function KeyOf(cfg: Config, e: Entity): Key {
    (e.kind, cfg.normalize(e.name))
  }

  /** The index by key holds the concepts and nothing else. */
  ghost predicate IndexedBy(cfg: Config, c: Concepts) {
    && (forall e | e in c.entities :: KeyOf(cfg, e) in c.byKey && c.byKey[KeyOf(cfg, e)] == e.id)
    && forall key | key in c.byKey :: exists e | e in c.entities :: KeyOf(cfg, e) == key
  }

  lemma IndexStep(cfg: Config, stamp: Stamp, source: string, c: Concepts, e: ExtractedEntity)
    requires IndexedBy(cfg, c)
    ensures IndexedBy(cfg, AddConcept(cfg, stamp, source, c, e))
  {
    var c' := AddConcept(cfg, stamp, source, c, e);
    if c' != c {
      var x := c'.entities[|c.entities|];
      assert x in c'.entities && KeyOf(cfg, x) !in c.byKey;
      assert forall y :: y in c'.entities <==> y in c.entities || y == x;
    }
  }

  lemma ConceptWasProposed(cfg: Config, stamp: Stamp, source: string, proposed: seq<ExtractedEntity>,
                           concepts: seq<Entity>, at: seq<nat>, x: Entity) returns (j: nat)
    requires ComeFrom(cfg, stamp, source, proposed, concepts, at) && x in concepts
    ensures j < |proposed| && StandsFor(cfg, stamp, source, x, proposed[j])
  {
    var k :| 0 <= k < |concepts| && concepts[k] == x;
    j := at[k];
  }

  lemma ProposedIsIndexed(cfg: Config, stamp: Stamp, source: string, proposed: seq<ExtractedEntity>, c: Concepts,
                          at: seq<nat>, j: nat)
    requires ComeFrom(cfg, stamp, source, proposed, c.entities, at) && IndexedBy(cfg, c)
    requires |c.entities| < cfg.maxEntities && j < |proposed|
    ensures (proposed[j].kind, cfg.normalize(proposed[j].name)) in c.byKey
  {
    var i := EarliestSame(cfg, proposed, j);
    var k :| 0 <= k < |at| && at[k] == i;
    var x := c.entities[k];
    assert StandsFor(cfg, stamp, source, x, proposed[i]) && x in c.entities;
    assert KeyOf(cfg, x) in c.byKey;
  }

  lemma FirstIsNotIndexed(cfg: Config, stamp: Stamp, source: string, proposed: seq<ExtractedEntity>, c: Concepts,
                          at: seq<nat>, e: ExtractedEntity)
    requires ComeFrom(cfg, stamp, source, proposed, c.entities, at) && IndexedBy(cfg, c)
    requires |c.entities| < cfg.maxEntities
    ensures (e.kind, cfg.normalize(e.name)) in c.byKey <==> !FirstProposed(cfg, proposed + [e], |proposed|)
  {
    var key := (e.kind, cfg.normalize(e.name));
    var longer := proposed + [e];
    if key in c.byKey {
      var x :| x in c.entities && KeyOf(cfg, x) == key;
      var j := ConceptWasProposed(cfg, stamp, source, proposed, c.entities, at, x);
      assert SameConcept(cfg, longer[j], longer[|proposed|]);
    }
    if !FirstProposed(cfg, longer, |proposed|) {
      var j :| 0 <= j < |proposed| && SameConcept(cfg, longer[j], e);
      ProposedIsIndexed(cfg, stamp, source, proposed, c, at, j);
    }
  }

  lemma {:induction false} EarliestSame(cfg: Config, proposed: seq<ExtractedEntity>, j: nat) returns (i: nat)
    requires j < |proposed|
    ensures i <= j && FirstProposed(cfg, proposed, i) && SameConcept(cfg, proposed[i], proposed[j])
  {
    if h :| 0 <= h < j && SameConcept(cfg, proposed[h], proposed[j]) {
      i := EarliestSame(cfg, proposed, h);
    } else {
      i := j;
    }
  }

  lemma FirstsStay(cfg: Config, proposed: seq<ExtractedEntity>, e: ExtractedEntity, i: nat)
    requires i < |proposed|
    ensures FirstProposed(cfg, proposed + [e], i) <==> FirstProposed(cfg, proposed, i)
  {
    assert forall j | 0 <= j <= i :: (proposed + [e])[j] == proposed[j];
  }

  lemma ConceptKept(cfg: Config, stamp: Stamp, source: string, proposed: seq<ExtractedEntity>, concepts: seq<Entity>,
                    at: seq<nat>, e: ExtractedEntity)
    requires ComeFrom(cfg, stamp, source, proposed, concepts, at)
    requires |concepts| == cfg.maxEntities || !FirstProposed(cfg, proposed + [e], |proposed|)
    ensures ComeFrom(cfg, stamp, source, proposed + [e], concepts, at)
  {
    forall i | 0 <= i < |proposed|
      ensures FirstProposed(cfg, proposed + [e], i) <==> FirstProposed(cfg, proposed, i)
    {
      FirstsStay(cfg, proposed, e, i);
    }
  }

  lemma ConceptAdded(cfg: Config, stamp: Stamp, source: string, proposed: seq<ExtractedEntity>, concepts: seq<Entity>,
                     at: seq<nat>, e: ExtractedEntity, x: Entity)
    requires ComeFrom(cfg, stamp, source, proposed, concepts, at)
    requires |concepts| < cfg.maxEntities && FirstProposed(cfg, proposed + [e], |proposed|)
    requires StandsFor(cfg, stamp, source, x, e)
    ensures ComeFrom(cfg, stamp, source, proposed + [e], concepts + [x], at + [|proposed|])
  {
    var longer, at' := proposed + [e], at + [|proposed|];
    forall i | 0 <= i < |longer| && FirstProposed(cfg, longer, i) ensures i in at' {
      if i < |proposed| {
        FirstsStay(cfg, proposed, e, i);
        assert i in at;
      } else {
        assert at'[|at|] == i;
      }
    }
    forall k | 0 <= k < |at'|
      ensures FirstProposed(cfg, longer, at'[k]) && StandsFor(cfg, stamp, source, (concepts + [x])[k], longer[at'[k]])
    {
      if k < |at| {
        FirstsStay(cfg, proposed, e, at[k]);
      }
    }
  }

  lemma ConceptStep(cfg: Config, stamp: Stamp, source: string, proposed: seq<ExtractedEntity>, c: Concepts,
                    at: seq<nat>, e: ExtractedEntity) returns (at': seq<nat>)
    requires ComeFrom(cfg, stamp, source, proposed, c.entities, at) && c == ConceptsOf(cfg, stamp, source, proposed)
    ensures ComeFrom(cfg, stamp, source, proposed + [e], AddConcept(cfg, stamp, source, c, e).entities, at')
  {
    var key := (e.kind, cfg.normalize(e.name));
    if |c.entities| < cfg.maxEntities {
      ConceptsAreIndexed(cfg, stamp, source, proposed);
      FirstIsNotIndexed(cfg, stamp, source, proposed, c, at, e);
    }
    if |c.entities| >= cfg.maxEntities || key in c.byKey {
      ConceptKept(cfg, stamp, source, proposed, c.entities, at, e);
      at' := at;
    } else {
      var x := Entity(ConceptId(cfg, stamp.owner, source, e.kind, key.1), e.kind, e.name, "", stamp.acl, stamp.scope);
      ConceptAdded(cfg, stamp, source, proposed, c.entities, at, e, x);
      at' := at + [|proposed|];
    }
  }

  lemma {:induction false} ConceptsAreIndexed(cfg: Config, stamp: Stamp, source: string, proposed: seq<ExtractedEntity>)
    ensures IndexedBy(cfg, ConceptsOf(cfg, stamp, source, proposed))
  {
    if proposed != [] {
      var n := |proposed| - 1;
      ConceptsAreIndexed(cfg, stamp, source, proposed[..n]);
      IndexStep(cfg, stamp, source, ConceptsOf(cfg, stamp, source, proposed[..n]), proposed[n]);
    }
  }

  /** The concepts persisted are the first proposals of each kind and normalized name, in the order proposed,
      up to the cap. */
  lemma {:induction false} ConceptsComeFromProposals(cfg: Config, stamp: Stamp, source: string,
                                                     proposed: seq<ExtractedEntity>) returns (at: seq<nat>)
    ensures ComeFrom(cfg, stamp, source, proposed, ConceptsOf(cfg, stamp, source, proposed).entities, at)
  {
    if proposed == [] {
      at := [];
    } else {
      var n := |proposed| - 1;
      var before := ConceptsOf(cfg, stamp, source, proposed[..n]);
      at := ConceptsComeFromProposals(cfg, stamp, source, proposed[..n]);
      at := ConceptStep(cfg, stamp, source, proposed[..n], before, at, proposed[n]);
      assert proposed == proposed[..n] + [proposed[n]];
    }
  }

  // ----- edges -----

  /** What was there stays; what comes after it is the first offer of each edge not there yet, in order, until
      the cap is reached. */
  ghost predicate Collects(edges: seq<Relation>, already: seq<Relation>, offers: seq<Option<Relation>>, cap: nat,
                           at: seq<nat>) {
    && already <= edges && |edges| == |already| + |at| && (at != [] ==> |edges| <= cap)
    && Increasing(at, |offers|)
    && (forall k | 0 <= k < |at| ::
          offers[at[k]] == Some(edges[|already| + k]) && edges[|already| + k] !in already)
    && (forall k, j | 0 <= k < |at| && 0 <= j < at[k] :: offers[j] != offers[at[k]])
    && forall i | 0 <= i < |offers| && offers[i].Some? ::
         offers[i].value in edges || (|edges| >= cap && forall k | 0 <= k < |at| :: at[k] < i)
  }

  lemma CollectStep(edges: seq<Relation>, already: seq<Relation>, offers: seq<Option<Relation>>, cap: nat,
                    at: seq<nat>, o: Option<Relation>) returns (at': seq<nat>)
    requires Collects(edges, already, offers, cap, at)
    ensures Collects(if o.None? || |edges| >= cap then edges else AddEdge(edges, o.value), already, offers + [o], cap, at')
  {
    var n, longer := |offers|, offers + [o];
    if o.None? || |edges| >= cap || o.value in edges {
      at' := at;
    } else {
      at' := at + [n];
      assert forall e | e in edges :: e in edges + [o.value];
    }
  }

  /** The edge a proposed relation offers: from its source to its destination, of its kind, if both ends were
      extracted. */
  function OfferOf(cfg: Config, byKey: map<Key, string>, r: ExtractedRelation): Option<Relation> {
    var src, dst := (r.srcKind, cfg.normalize(r.srcName)), (r.dstKind, cfg.normalize(r.dstName));
    if src in byKey && dst in byKey then Some(Relation(byKey[src], byKey[dst], r.kind)) else None
  }

  function Offers(cfg: Config, byKey: map<Key, string>, rs: seq<ExtractedRelation>): (offers: seq<Option<Relation>>)
    ensures |offers| == |rs| && forall i | 0 <= i < |rs| :: offers[i] == OfferOf(cfg, byKey, rs[i])
  {
    seq(|rs|, i requires 0 <= i < |rs| => OfferOf(cfg, byKey, rs[i]))
  }

  function MentionOffers(anchor: string, concepts: seq<Entity>): (offers: seq<Option<Relation>>)
    ensures |offers| == |concepts|
    ensures forall i | 0 <= i < |concepts| :: offers[i] == Some(Relation(anchor, concepts[i].id, "mentions"))
  {
    seq(|concepts|, i requires 0 <= i < |concepts| => Some(Relation(anchor, concepts[i].id, "mentions")))
  }

  lemma {:induction false} EdgesAreCollected(cfg: Config, byKey: map<Key, string>, rs: seq<ExtractedRelation>)
    returns (at: seq<nat>)
    ensures Collects(ExtractedEdges(cfg, byKey, rs), [], Offers(cfg, byKey, rs), cfg.maxRelations, at)
  {
    if rs == [] {
      at := [];
    } else {
      var n := |rs| - 1;
      at := EdgesAreCollected(cfg, byKey, rs[..n]);
      at := CollectStep(ExtractedEdges(cfg, byKey, rs[..n]), [], Offers(cfg, byKey, rs[..n]), cfg.maxRelations, at,
                        OfferOf(cfg, byKey, rs[n]));
      assert Offers(cfg, byKey, rs) == Offers(cfg, byKey, rs[..n]) + [OfferOf(cfg, byKey, rs[n])];
    }
  }

  lemma {:induction false} MentionsAreCollected(cfg: Config, anchor: string, edges: seq<Relation>, concepts: seq<Entity>)
    returns (at: seq<nat>)
    ensures Collects(WithMentions(cfg, anchor, edges, concepts), edges, MentionOffers(anchor, concepts),
                     cfg.maxRelations, at)
  {
    if concepts == [] {
      at := [];
    } else {
      var n := |concepts| - 1;
      var o := Some(Relation(anchor, concepts[n].id, "mentions"));
      at := MentionsAreCollected(cfg, anchor, edges, concepts[..n]);
      at := CollectStep(WithMentions(cfg, anchor, edges, concepts[..n]), edges, MentionOffers(anchor, concepts[..n]),
                        cfg.maxRelations, at, o);
      assert MentionOffers(anchor, concepts) == MentionOffers(anchor, concepts[..n]) + [o];
    }
  }

  /** The concept is what one end of a relation names. */
  predicate Named(cfg: Config, e: Entity, kind: string, name: string) {
    e.kind == kind && cfg.normalize(e.name) == cfg.normalize(name)
  }

  /** The edge runs from the source to the destination of the proposed relation and has its kind. */
  ghost predicate Draws(cfg: Config, concepts: seq<Entity>, edge: Relation, r: ExtractedRelation) {
    exists s, d | s in concepts && d in concepts ::
      && Named(cfg, s, r.srcKind, r.srcName) && Named(cfg, d, r.dstKind, r.dstName)
      && edge == Relation(s.id, d.id, r.kind)
  }

  lemma IndexedConcept(cfg: Config, c: Concepts, kind: string, name: string) returns (e: Entity)
    requires IndexedBy(cfg, c) && (kind, cfg.normalize(name)) in c.byKey
    ensures e in c.entities && Named(cfg, e, kind, name) && e.id == c.byKey[(kind, cfg.normalize(name))]
  {
    e :| e in c.entities && KeyOf(cfg, e) == (kind, cfg.normalize(name));
  }

  /** An offer is what the relation draws between the concepts. */
  lemma OfferIff(cfg: Config, c: Concepts, r: ExtractedRelation, edge: Relation)
    requires IndexedBy(cfg, c)
    ensures OfferOf(cfg, c.byKey, r) == Some(edge) <==> Draws(cfg, c.entities, edge, r)
  {
    if OfferOf(cfg, c.byKey, r).Some? {
      var s := IndexedConcept(cfg, c, r.srcKind, r.srcName);
      var d := IndexedConcept(cfg, c, r.dstKind, r.dstName);
      assert Named(cfg, s, r.srcKind, r.srcName) && Named(cfg, d, r.dstKind, r.dstName);
    }
  }

  lemma WhereDrawn(cfg: Config, byKey: map<Key, string>, rs: seq<ExtractedRelation>, edge: Relation)
    returns (r: ExtractedRelation)
    requires edge in ExtractedEdges(cfg, byKey, rs)
    ensures r in rs && OfferOf(cfg, byKey, r) == Some(edge)
  {
    var drawn := ExtractedEdges(cfg, byKey, rs);
    var at := EdgesAreCollected(cfg, byKey, rs);
    var k :| 0 <= k < |drawn| && drawn[k] == edge;
    assert Offers(cfg, byKey, rs)[at[k]] == Some(edge);
    r := rs[at[k]];
  }

  lemma MentionEdge(cfg: Config, anchor: string, drawn: seq<Relation>, concepts: seq<Entity>, edge: Relation)
    requires edge in WithMentions(cfg, anchor, drawn, concepts) && edge !in drawn
    ensures exists e | e in concepts :: edge == Relation(anchor, e.id, "mentions")
  {
    var edges := WithMentions(cfg, anchor, drawn, concepts);
    var at := MentionsAreCollected(cfg, anchor, drawn, concepts);
    var k :| 0 <= k < |edges| && edges[k] == edge;
    var e := concepts[at[k - |drawn|]];
    assert e in concepts;
  }

  /** Every edge persisted is one that a proposed relation draws, in its direction and of its kind, or a mention
      of a concept by the first chunk. */
  lemma EdgesComeFromProposals(cfg: Config, stamp: Stamp, source: string, result: ExtractionResult, edge: Relation)
    requires edge in EdgesOf(cfg, stamp, source, result)
    ensures var concepts := ConceptsOf(cfg, stamp, source, result.entities).entities;
            || (exists r | r in result.relations :: Draws(cfg, concepts, edge, r))
            || (exists e | e in concepts :: edge == Relation(ChunkId(stamp.owner, source, 0), e.id, "mentions"))
  {
    var c, anchor := ConceptsOf(cfg, stamp, source, result.entities), ChunkId(stamp.owner, source, 0);
    var drawn := ExtractedEdges(cfg, c.byKey, result.relations);
    if edge in drawn {
      ConceptsAreIndexed(cfg, stamp, source, result.entities);
      var r := WhereDrawn(cfg, c.byKey, result.relations, edge);
      OfferIff(cfg, c, r, edge);
    } else {
      MentionEdge(cfg, anchor, drawn, c.entities, edge);
    }
  }

  lemma DrawnBelowCap(cfg: Config, c: Concepts, rs: seq<ExtractedRelation>, r: ExtractedRelation, edge: Relation)
    requires IndexedBy(cfg, c) && |ExtractedEdges(cfg, c.byKey, rs)| < cfg.maxRelations
    requires r in rs && Draws(cfg, c.entities, edge, r)
    ensures edge in ExtractedEdges(cfg, c.byKey, rs)
  {
    var at := EdgesAreCollected(cfg, c.byKey, rs);
    OfferIff(cfg, c, r, edge);
    var i :| 0 <= i < |rs| && rs[i] == r;
    assert Offers(cfg, c.byKey, rs)[i] == Some(edge);
  }

  lemma MentionedBelowCap(cfg: Config, anchor: string, drawn: seq<Relation>, concepts: seq<Entity>)
    requires |WithMentions(cfg, anchor, drawn, concepts)| < cfg.maxRelations
    ensures forall e | e in concepts :: Relation(anchor, e.id, "mentions") in WithMentions(cfg, anchor, drawn, concepts)
  {
    var at := MentionsAreCollected(cfg, anchor, drawn, concepts);
    forall e | e in concepts ensures Relation(anchor, e.id, "mentions") in WithMentions(cfg, anchor, drawn, concepts) {
      var i :| 0 <= i < |concepts| && concepts[i] == e;
      assert MentionOffers(anchor, concepts)[i] == Some(Relation(anchor, e.id, "mentions"));
    }
  }

  lemma EdgeSurvives(cfg: Config, anchor: string, drawn: seq<Relation>, concepts: seq<Entity>, edge: Relation)
    ensures |drawn| <= |WithMentions(cfg, anchor, drawn, concepts)|
    ensures edge in drawn ==> edge in WithMentions(cfg, anchor, drawn, concepts)
  {
    var at := MentionsAreCollected(cfg, anchor, drawn, concepts);
  }

  /** And below the cap every one of them is persisted: what a proposed relation draws, */
  lemma RelationBecomesEdge(cfg: Config, stamp: Stamp, source: string, result: ExtractionResult, r: ExtractedRelation,
                            edge: Relation)
    requires |EdgesOf(cfg, stamp, source, result)| < cfg.maxRelations
    requires r in result.relations && Draws(cfg, ConceptsOf(cfg, stamp, source, result.entities).entities, edge, r)
    ensures edge in EdgesOf(cfg, stamp, source, result)
  {
    var c := ConceptsOf(cfg, stamp, source, result.entities);
    var drawn := ExtractedEdges(cfg, c.byKey, result.relations);
    EdgeSurvives(cfg, ChunkId(stamp.owner, source, 0), drawn, c.entities, edge);
    ConceptsAreIndexed(cfg, stamp, source, result.entities);
    DrawnBelowCap(cfg, c, result.relations, r, edge);
  }

  /** and a mention of each concept. */
  lemma ConceptIsMentioned(cfg: Config, stamp: Stamp, source: string, result: ExtractionResult, e: Entity)
    requires |EdgesOf(cfg, stamp, source, result)| < cfg.maxRelations
    requires e in ConceptsOf(cfg, stamp, source, result.entities).entities
    ensures Relation(ChunkId(stamp.owner, source, 0), e.id, "mentions") in EdgesOf(cfg, stamp, source, result)
  {
    var c := ConceptsOf(cfg, stamp, source, result.entities);
    MentionedBelowCap(cfg, ChunkId(stamp.owner, source, 0), ExtractedEdges(cfg, c.byKey, result.relations), c.entities);
  }
}
