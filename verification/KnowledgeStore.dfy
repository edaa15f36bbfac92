/** The knowledge graph as two backends keep it: in memory and in Postgres. */
module KnowledgeStore {
  import opened Collections
  import opened Text
  import opened LikePattern
  import opened Rbac
  import opened ReadAccess

  datatype Relation = Relation(src: string, dst: string, kind: string)

  /** `ids` is the insertion order of the entity dict; `relations` is append-only but for replacement. */
  datatype Graph = Graph(ids: seq<string>, entities: map<string, Entity>, relations: seq<Relation>)

  const EMPTY := Graph([], map[], [])

  /** The dict's keys are listed once each, and each entity sits under its own id. */
  ghost predicate WellKeyed(g: Graph) {
    && Distinct(g.ids)
    && (forall i | 0 <= i < |g.ids| :: g.ids[i] in g.entities)
    && (forall id | id in g.entities :: id in g.ids && g.entities[id].id == id)
  }

  function Upsert(g: Graph, e: Entity): Graph {
    g.(entities := g.entities[e.id := e], ids := if e.id in g.entities then g.ids else g.ids + [e.id])
  }

  function UpsertAll(g: Graph, es: seq<Entity>): Graph {
    if es == [] then g else Upsert(UpsertAll(g, es[..|es| - 1]), es[|es| - 1])
  }

  lemma UpsertOneMore(g: Graph, es: seq<Entity>, i: nat)
    requires i < |es|
    ensures UpsertAll(g, es[..i + 1]) == Upsert(UpsertAll(g, es[..i]), es[i])
  {
    assert es[..i + 1][..i] == es[..i];
  }

  /** Adding an edge that is already there changes nothing. */
  function AddEdge(relations: seq<Relation>, r: Relation): seq<Relation> {
    if r in relations then relations else relations + [r]
  }

  function AddEdges(relations: seq<Relation>, rs: seq<Relation>): seq<Relation> {
    if rs == [] then relations else AddEdge(AddEdges(relations, rs[..|rs| - 1]), rs[|rs| - 1])
  }

  function KeepIds(ids: seq<string>, prefix: string): seq<string> {
    if ids == [] then []
    else
      var n := |ids| - 1;
      KeepIds(ids[..n], prefix) + if prefix <= ids[n] then [] else [ids[n]]
  }

  predicate Touches(r: Relation, prefix: string) {
    prefix <= r.src || prefix <= r.dst
  }

  function KeepEdges(relations: seq<Relation>, prefix: string): seq<Relation> {
    if relations == [] then []
    else
      var n := |relations| - 1;
      KeepEdges(relations[..n], prefix) + if Touches(relations[n], prefix) then [] else [relations[n]]
  }

  /** Everything under the prefix goes, edges included. */
  function Drop(g: Graph, prefix: string): Graph {
    Graph(KeepIds(g.ids, prefix),
          map id | id in g.entities && !(prefix <= id) :: g.entities[id],
          KeepEdges(g.relations, prefix))
  }

  /** Replace what was extracted from a source by a new set. */
  function Persist(g: Graph, prefix: string, es: seq<Entity>, rs: seq<Relation>): Graph {
    var g' := UpsertAll(Drop(g, prefix), es);
    g'.(relations := AddEdges(g'.relations, rs))
  }

  function ExtractionPrefix(owner: string, source: string): string {
    owner + ":" + source + ":entity:"
  }

  // ----- facts about the pieces -----

  lemma {:induction false} UpsertAllContents(g: Graph, es: seq<Entity>)
    ensures UpsertAll(g, es).relations == g.relations
    ensures forall id :: id in UpsertAll(g, es).entities <==> id in g.entities || exists e | e in es :: e.id == id
    ensures forall id | id in g.entities && (forall e | e in es :: e.id != id) ::
              UpsertAll(g, es).entities[id] == g.entities[id]
    ensures forall id | id in UpsertAll(g, es).entities && (exists e | e in es :: e.id == id) ::
              UpsertAll(g, es).entities[id] in es && UpsertAll(g, es).entities[id].id == id
  {
    if es != [] {
      var n := |es| - 1;
      UpsertAllContents(g, es[..n]);
      assert es == es[..n] + [es[n]];
      assert forall e :: e in es <==> e in es[..n] || e == es[n];
    }
  }

  lemma {:induction false} UpsertAllKeyed(g: Graph, es: seq<Entity>)
    requires WellKeyed(g)
    ensures WellKeyed(UpsertAll(g, es))
  {
    if es != [] {
      UpsertAllKeyed(g, es[..|es| - 1]);
    }
  }

  lemma {:induction false} KeepIdsContents(ids: seq<string>, prefix: string)
    requires Distinct(ids)
    ensures Distinct(KeepIds(ids, prefix))
    ensures forall id :: id in KeepIds(ids, prefix) <==> id in ids && !(prefix <= id)
  {
    if ids != [] {
      var n := |ids| - 1;
      KeepIdsContents(ids[..n], prefix);
      assert ids == ids[..n] + [ids[n]];
      assert ids[n] !in ids[..n];
      assert ids[n] !in KeepIds(ids[..n], prefix);
    }
  }

  lemma {:induction false} KeepEdgesContents(relations: seq<Relation>, prefix: string)
    requires Distinct(relations)
    ensures Distinct(KeepEdges(relations, prefix))
    ensures forall r :: r in KeepEdges(relations, prefix) <==> r in relations && !Touches(r, prefix)
  {
    if relations != [] {
      var n := |relations| - 1;
      KeepEdgesContents(relations[..n], prefix);
      assert relations == relations[..n] + [relations[n]];
      assert relations[n] !in KeepEdges(relations[..n], prefix);
    }
  }

  lemma {:induction false} AddEdgesContents(relations: seq<Relation>, rs: seq<Relation>)
    requires Distinct(relations)
    ensures Distinct(AddEdges(relations, rs))
    ensures forall r :: r in AddEdges(relations, rs) <==> r in relations || r in rs
  {
    if rs != [] {
      var n := |rs| - 1;
      AddEdgesContents(relations, rs[..n]);
      assert rs == rs[..n] + [rs[n]];
    }
  }

  lemma DropKeyed(g: Graph, prefix: string)
    requires WellKeyed(g)
    ensures WellKeyed(Drop(g, prefix))
  {
    KeepIdsContents(g.ids, prefix);
    var kept := Drop(g, prefix);
    forall i | 0 <= i < |kept.ids| ensures kept.ids[i] in kept.entities {
      assert kept.ids[i] in kept.ids;
    }
  }

  /** What a replacement leaves behind: the new set under the prefix, everything else as it was. */
  lemma PersistContents(g: Graph, prefix: string, es: seq<Entity>, rs: seq<Relation>)
    requires WellKeyed(g) && Distinct(g.relations) && forall e | e in es :: prefix <= e.id
    ensures var g' := Persist(g, prefix, es, rs);
            && WellKeyed(g') && Distinct(g'.relations)
            && (forall id | !(prefix <= id) :: id in g'.entities <==> id in g.entities)
            && (forall id | !(prefix <= id) && id in g.entities :: g'.entities[id] == g.entities[id])
            && (forall id | prefix <= id :: id in g'.entities <==> exists e | e in es :: e.id == id)
            && (forall id | prefix <= id && id in g'.entities :: g'.entities[id] in es)
            && (forall r :: r in g'.relations <==> (r in g.relations && !Touches(r, prefix)) || r in rs)
  {
    var kept := Drop(g, prefix);
    DropKeyed(g, prefix);
    UpsertAllContents(kept, es);
    UpsertAllKeyed(kept, es);
    KeepEdgesContents(g.relations, prefix);
    AddEdgesContents(kept.relations, rs);
  }

  // ----- the in-memory backend -----

  class InMemoryKnowledgeGraph {
    var ids: seq<string>
    var entities: map<string, Entity>
    var relations: seq<Relation>

    ghost function Model(): Graph
      reads this
    {
      Graph(ids, entities, relations)
    }

    constructor ()
      ensures Model() == EMPTY
    {
      ids, entities, relations := [], map[], [];
    }

    method UpsertEntity(e: Entity)
      modifies this
      ensures Model() == Upsert(old(Model()), e)
    {
      if e.id !in entities {
        ids := ids + [e.id];
      }
      entities := entities[e.id := e];
    }

    method AddRelation(r: Relation)
      modifies this`relations
      ensures relations == AddEdge(old(relations), r)
    {
      for i := 0 to |relations|
        invariant r !in relations[..i]
      {
        if relations[i] == r {
          return;
        }
        assert relations[..i + 1] == relations[..i] + [relations[i]];
      }
      assert relations[..|relations|] == relations;
      relations := relations + [r];
    }

    /** The deletion half: rebuild the dict and the list without the prefix. */
    method DropPrefix(prefix: string)
      modifies this
      ensures Model() == Drop(old(Model()), prefix)
    {
      var keptIds: seq<string> := [];
      for i := 0 to |ids|
        invariant keptIds == KeepIds(ids[..i], prefix)
      {
        assert ids[..i + 1][..i] == ids[..i];
        if !(prefix <= ids[i]) {
          keptIds := keptIds + [ids[i]];
        }
      }
      assert ids[..|ids|] == ids;
      var keptEdges: seq<Relation> := [];
      for i := 0 to |relations|
        invariant keptEdges == KeepEdges(relations[..i], prefix)
      {
        assert relations[..i + 1][..i] == relations[..i];
        if !Touches(relations[i], prefix) {
          keptEdges := keptEdges + [relations[i]];
        }
      }
      assert relations[..|relations|] == relations;
      ids := keptIds;
      entities := map id | id in entities && !(prefix <= id) :: entities[id];
      relations := keptEdges;
    }

    /** The insertion half; the store may raise at the `failAt`-th write. */
    method UpsertBatch(es: seq<Entity>, failAt: Option<nat>) returns (ok: bool)
      modifies this
      ensures ok <==> failAt.None? || failAt.value >= |es|
      ensures ok ==> Model() == UpsertAll(old(Model()), es)
    {
      for i := 0 to |es|
        invariant Model() == UpsertAll(old(Model()), es[..i])
        invariant failAt.Some? ==> i <= failAt.value
      {
        if failAt == Some(i) {
          return false;
        }
        UpsertOneMore(old(Model()), es, i);
        UpsertEntity(es[i]);
      }
      assert es[..|es|] == es;
      return true;
    }

    method AddBatch(rs: seq<Relation>, failAt: Option<nat>) returns (ok: bool)
      modifies this`relations
      ensures ok <==> failAt.None? || failAt.value > |rs|
      ensures ok ==> relations == AddEdges(old(relations), rs)
    {
      for i := 0 to |rs|
        invariant relations == AddEdges(old(relations), rs[..i])
        invariant failAt.Some? ==> i <= failAt.value
      {
        if failAt == Some(i) {
          return false;
        }
        assert rs[..i + 1][..i] == rs[..i];
        AddRelation(rs[i]);
      }
      assert rs[..|rs|] == rs;
      return failAt != Some(|rs|);
    }

    /** All or nothing: `failAt` is where in the batch, its end included, the store raises, if it does. */
    method PersistExtraction(prefix: string, es: seq<Entity>, rs: seq<Relation>, failAt: Option<nat>)
      returns (ok: bool)
      modifies this
      ensures ok <==> failAt.None? || failAt.value > |es| + |rs|
      ensures Model() == if ok then Persist(old(Model()), prefix, es, rs) else old(Model())
    {
      var idsSnapshot, entitiesSnapshot, relationsSnapshot := ids, entities, relations;
      DropPrefix(prefix);
      ok := UpsertBatch(es, failAt);
      if ok {
        ok := AddBatch(rs, if failAt.Some? then Some(failAt.value - |es|) else None);
      }
      if !ok {
        ids, entities, relations := idsSnapshot, entitiesSnapshot, relationsSnapshot;
      }
    }

    /** Keyword match over what the principal may read, in insertion order, cut at `limit`. */
    method Query(principal: Option<Principal>, text: string, policy: Policy, limit: int)
      returns (results: seq<Entity>)
      requires WellKeyed(Model())
      ensures results == UpTo(WantedAmong(ids, entities, principal, text, policy), limit)
    {
      var matches: seq<Entity> := [];
      for i := 0 to |ids|
        invariant matches == WantedAmong(ids[..i], entities, principal, text, policy)
      {
        assert ids[..i + 1][..i] == ids[..i];
        var entity := entities[ids[i]];
        if Wanted(entity, principal, text, policy) {
          matches := matches + [entity];
        }
      }
      assert ids[..|ids|] == ids;
      results := UpTo(matches, limit);
    }
  }

  /** `s[:limit]`; a negative limit counts from the end. */
  function UpTo<T>(s: seq<T>, limit: int): (r: seq<T>)
    ensures r <= s
    ensures |r| == if limit >= |s| then |s| else if limit >= 0 then limit else if |s| + limit >= 0 then |s| + limit else 0
  {
    if limit >= |s| then s
    else if limit >= 0 then s[..limit]
    else if |s| + limit >= 0 then s[..|s| + limit]
    else []
  }

  /** Readable, and matched by some term or asked for without terms. */
  predicate Wanted(e: Entity, principal: Option<Principal>, text: string, policy: Policy) {
    CanRead(principal, e, policy) && (Terms(text, LowerChar) == [] || MemoryTermMatch(e, Terms(text, LowerChar), LowerChar))
  }

  function WantedAmong(ids: seq<string>, entities: map<string, Entity>, principal: Option<Principal>,
                       text: string, policy: Policy): seq<Entity>
    requires forall i | 0 <= i < |ids| :: ids[i] in entities
  {
    if ids == [] then []
    else
      var n := |ids| - 1;
      WantedAmong(ids[..n], entities, principal, text, policy) +
      if Wanted(entities[ids[n]], principal, text, policy) then [entities[ids[n]]] else []
  }

  lemma {:induction false} WantedAreReadable(ids: seq<string>, entities: map<string, Entity>,
                                             principal: Option<Principal>, text: string, policy: Policy)
    requires forall i | 0 <= i < |ids| :: ids[i] in entities
    ensures forall e | e in WantedAmong(ids, entities, principal, text, policy) ::
              CanRead(principal, e, policy) && exists id | id in ids :: entities[id] == e
  {
    if ids != [] {
      var n := |ids| - 1;
      WantedAreReadable(ids[..n], entities, principal, text, policy);
      assert ids[n] in ids;
    }
  }

  /** The word occurs, but for case, in the entity's name or in its content. */
  predicate Says(e: Entity, word: string) {
    Contains(Lower(e.name), Lower(word)) || Contains(Lower(e.content), Lower(word))
  }

  ghost predicate Mentions(e: Entity, text: string) {
    exists lo: nat, hi: nat | IsWord(text, lo, hi) :: Says(e, text[lo..hi])
  }

  lemma LoweredTermIff(e: Entity, term: string)
    requires term != "" && SpaceFree(term)
    ensures Contains(Fold(e.name + "\n" + e.content, LowerChar), term) <==>
            Contains(Lower(e.name), term) || Contains(Lower(e.content), term)
  {
    assert Fold(e.name + "\n" + e.content, LowerChar) == Lower(e.name) + "\n" + Lower(e.content);
    NoTermStraddlesNewline(Lower(e.name), Lower(e.content), term);
  }

  lemma LowerKeepsWords(text: string, lo: nat, hi: nat)
    requires lo <= hi <= |text|
    ensures IsWord(Lower(text), lo, hi) <==> IsWord(text, lo, hi)
    ensures Lower(text)[lo..hi] == Lower(text[lo..hi])
  {
    assert forall i | 0 <= i < |text| :: IsSpace(Lower(text)[i]) <==> IsSpace(text[i]);
  }

  lemma MatchedIff(e: Entity, text: string)
    ensures MemoryTermMatch(e, Terms(text, LowerChar), LowerChar) <==> Mentions(e, text)
  {
    var terms := Terms(text, LowerChar);
    assert terms == Split(Lower(text));
    if i :| 0 <= i < |terms| && Contains(Fold(e.name + "\n" + e.content, LowerChar), terms[i]) {
      LoweredTermIff(e, terms[i]);
      var lo, hi := TokenIsWord(Lower(text), terms[i]);
      LowerKeepsWords(text, lo, hi);
    }
    if lo: nat, hi: nat :| IsWord(text, lo, hi) && Says(e, text[lo..hi]) {
      LowerKeepsWords(text, lo, hi);
      WordIsToken(Lower(text), lo, hi);
      var i :| 0 <= i < |terms| && terms[i] == Lower(text[lo..hi]);
      LoweredTermIff(e, terms[i]);
    }
  }

  /** What the in-memory query is for: whatever may be read and is mentioned, or, for a blank question,
      whatever may be read. */
  lemma WantedIff(e: Entity, principal: Option<Principal>, text: string, policy: Policy)
    ensures Wanted(e, principal, text, policy) <==>
            CanRead(principal, e, policy) && (AllSpace(text) || Mentions(e, text))
  {
    MatchedIff(e, text);
    NoTokensIff(Lower(text));
    assert forall i | 0 <= i < |text| :: IsSpace(Lower(text)[i]) <==> IsSpace(text[i]);
  }

  function Listed(ids: seq<string>, entities: map<string, Entity>): (es: seq<Entity>)
    requires forall i | 0 <= i < |ids| :: ids[i] in entities
    ensures |es| == |ids| && forall i | 0 <= i < |ids| :: es[i] == entities[ids[i]]
  {
    seq(|ids|, i requires 0 <= i < |ids| => entities[ids[i]])
  }

  function Wish(principal: Option<Principal>, text: string, policy: Policy): (keep: Entity -> bool)
    ensures forall e :: keep(e) <==> Wanted(e, principal, text, policy)
  {
    (e: Entity) => Wanted(e, principal, text, policy)
  }

  /** The query gives every wanted entity once for each time it is listed, in insertion order. */
  lemma {:induction false} WantedInOrder(ids: seq<string>, entities: map<string, Entity>,
                                         principal: Option<Principal>, text: string, policy: Policy)
    requires forall i | 0 <= i < |ids| :: ids[i] in entities
    ensures IsSelection(WantedAmong(ids, entities, principal, text, policy), Listed(ids, entities),
                        Wish(principal, text, policy))
  {
    var keep := Wish(principal, text, policy);
    if ids == [] {
      assert Passing(Listed(ids, entities), 0, keep) == {};
    } else {
      var n := |ids| - 1;
      WantedInOrder(ids[..n], entities, principal, text, policy);
      var e := entities[ids[n]];
      SelectOneMore(WantedAmong(ids[..n], entities, principal, text, policy), Listed(ids[..n], entities), e, keep);
      assert Listed(ids, entities) == Listed(ids[..n], entities) + [e];
    }
  }

  // ----- the Postgres backend -----

  /** Two tables: entities by primary key, and a set of edges under a unique index. */
  datatype Tables = Tables(entities: map<string, Entity>, edges: set<Relation>)

  function TablesOf(g: Graph): Tables {
    Tables(g.entities, set r | r in g.relations)
  }

  function PgUpsertAll(entities: map<string, Entity>, es: seq<Entity>): map<string, Entity> {
    if es == [] then entities else PgUpsertAll(entities, es[..|es| - 1])[es[|es| - 1].id := es[|es| - 1]]
  }

  /** One transaction: two prefix deletes by escaped LIKE, then upserts and conflict-free inserts. */
  function PgPersist(t: Tables, prefix: string, es: seq<Entity>, rs: seq<Relation>): Tables {
    var pattern := LikeEscape(prefix) + "%";
    Tables(PgUpsertAll(map id | id in t.entities && !Like(id, pattern) :: t.entities[id], es),
           (set r | r in t.edges && !(Like(r.src, pattern) || Like(r.dst, pattern))) + (set r | r in rs))
  }

  lemma {:induction false} PgUpsertAllAgrees(g: Graph, es: seq<Entity>)
    ensures UpsertAll(g, es).entities == PgUpsertAll(g.entities, es)
    ensures UpsertAll(g, es).relations == g.relations
  {
    if es != [] {
      PgUpsertAllAgrees(g, es[..|es| - 1]);
    }
  }

  /** Whatever the prefix contains, LIKE metacharacters included, both backends reach the same state. */
  lemma BackendsAgree(g: Graph, prefix: string, es: seq<Entity>, rs: seq<Relation>)
    requires Distinct(g.relations)
    ensures TablesOf(Persist(g, prefix, es, rs)) == PgPersist(TablesOf(g), prefix, es, rs)
  {
    var pattern := LikeEscape(prefix) + "%";
    forall s: string ensures Like(s, pattern) <==> prefix <= s {
      EscapedPrefixMatch(s, prefix);
    }
    var kept := Drop(g, prefix);
    assert kept.entities == map id | id in g.entities && !Like(id, pattern) :: g.entities[id];
    PgUpsertAllAgrees(kept, es);
    KeepEdgesContents(g.relations, prefix);
    AddEdgesContents(kept.relations, rs);
  }
}
