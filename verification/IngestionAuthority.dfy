/** Who may write organization knowledge, who last wrote each entity, and who may therefore read it. */
module IngestionAuthority {
  import opened Collections
  import opened Text
  import opened Rbac
  import opened ReadAccess
  import opened Chunking
  import opened KnowledgeStore
  import opened Ingestion
  import opened IngestionSafety

  lemma UnresolvedIff(policy: Policy, principal: Principal, doc: Document)
    ensures Resolve(policy, principal, doc).None? <==>
            || (doc.scope == Personal && doc.orgAcl.Some?)
            || (doc.scope == Org && !GrantedByOne(principal, policy, "kg:write:org"))
  {
    CanByOneGrant(principal, policy, "kg:write:org");
  }

  /** A request is refused exactly for these reasons: nobody asks, there is no text, a personal document
      names an organization ACL, or no grant of the writer allows organization knowledge. */
  lemma RefusedIff(cfg: Config, r: Request)
    requires ValidConfig(cfg)
    ensures Accepted(cfg, r).None? <==>
            || r.principal.None? || r.principal.value == ANONYMOUS
            || AllSpace(r.doc.text)
            || (r.doc.scope == Personal && r.doc.orgAcl.Some?)
            || (r.doc.scope == Org && !GrantedByOne(r.principal.value, r.policy, "kg:write:org"))
  {
    NoChunksIff(r.doc.text, cfg.size, cfg.overlap);
    if r.principal.Some? {
      UnresolvedIff(r.policy, r.principal.value, r.doc);
    }
  }

  /** The readership an organization document asks for; none, or an empty one, means every organization reader. */
  ghost predicate AsksFor(doc: Document, acl: seq<string>) {
    if doc.orgAcl == None || doc.orgAcl == Some([]) then acl == ["kg:read:org"] else doc.orgAcl == Some(acl)
  }

  /** The request was entitled to put this entity into the organization's graph, and put it there as asked. */
  ghost predicate EntitledOrgWrite(r: Request, e: Entity) {
    && r.principal.Some? && r.principal.value != ANONYMOUS
    && r.doc.scope == Org && GrantedByOne(r.principal.value, r.policy, "kg:write:org")
    && AsksFor(r.doc, e.acl)
  }

  /** Likewise for somebody's personal graph. */
  ghost predicate EntitledPersonalWrite(r: Request, e: Entity) {
    && r.principal.Some? && r.principal.value != ANONYMOUS
    && r.doc.scope == Personal && r.doc.orgAcl.None?
    && e.acl == ["kg:read:user:" + r.principal.value.userId]
  }

  ghost predicate Writes(cfg: Config, r: Request, id: string)
    requires ValidConfig(cfg)
  {
    Accepted(cfg, r).Some? && HasId(Written(cfg, r, Accepted(cfg, r).value), id)
  }

  /** None of the requests after the `i`-th and before the `n`-th writes the id. */
  ghost predicate LeftAlone(cfg: Config, requests: seq<Request>, i: nat, n: nat, id: string)
    requires ValidConfig(cfg) && i < n <= |requests|
  {
    n == i + 1 || (LeftAlone(cfg, requests, i, n - 1, id) && !Writes(cfg, requests[n - 1], id))
  }

  /** The request put this very entity into the graph. */
  ghost predicate Put(cfg: Config, r: Request, e: Entity)
    requires ValidConfig(cfg)
  {
    Accepted(cfg, r).Some? && e in Written(cfg, r, Accepted(cfg, r).value)
  }

  lemma WritesAreEntitled(cfg: Config, r: Request, e: Entity)
    requires ValidConfig(cfg) && Put(cfg, r, e)
    ensures e.scope == r.doc.scope
    ensures if e.scope == Org then EntitledOrgWrite(r, e) else EntitledPersonalWrite(r, e)
  {
    RefusedIff(cfg, r);
    ExtractorNeverDecidesAccess(cfg, r, Accepted(cfg, r).value);
  }

  lemma StoredOrKept(cfg: Config, r: Request, g: Graph, id: string)
    requires ValidConfig(cfg) && Healthy(g) && id in Ingest(cfg, r, g).entities
    ensures var e := Ingest(cfg, r, g).entities[id];
            if Writes(cfg, r, id) then Put(cfg, r, e) && e.id == id else id in g.entities && g.entities[id] == e
  {
    IngestContents(cfg, r, g, id);
  }

  lemma ReplayStep(cfg: Config, requests: seq<Request>, n: nat, id: string)
    requires ValidConfig(cfg) && n < |requests| && id in Replay(cfg, requests[..n + 1]).entities
    ensures var e := Replay(cfg, requests[..n + 1]).entities[id];
            if Writes(cfg, requests[n], id) then Put(cfg, requests[n], e) && e.id == id
            else id in Replay(cfg, requests[..n]).entities && Replay(cfg, requests[..n]).entities[id] == e
  {
    assert requests[..n + 1][..n] == requests[..n];
    GraphStaysHealthy(cfg, requests[..n]);
    StoredOrKept(cfg, requests[n], Replay(cfg, requests[..n]), id);
  }

  /** What is stored under an id is what the last request that wrote the id put there. */
  lemma {:induction false} LastWriter(cfg: Config, requests: seq<Request>, n: nat, id: string) returns (i: nat)
    requires ValidConfig(cfg) && n <= |requests| && id in Replay(cfg, requests[..n]).entities
    ensures i < n && Put(cfg, requests[i], Replay(cfg, requests[..n]).entities[id])
    ensures Replay(cfg, requests[..n]).entities[id].id == id
    ensures LeftAlone(cfg, requests, i, n, id)
  {
    assert n > 0;
    var m := n - 1;
    ReplayStep(cfg, requests, m, id);
    if Writes(cfg, requests[m], id) {
      i := m;
    } else {
      i := LastWriter(cfg, requests, m, id);
    }
  }

  /** Over every sequence of ingests: each organization entity was written by a request whose principal held
      a grant for it under that request's policy, and carries the readership that request asked for. */
  lemma OrgKnowledgeIsEntitled(cfg: Config, requests: seq<Request>, id: string) returns (i: nat)
    requires ValidConfig(cfg) && id in Replay(cfg, requests).entities
    requires Replay(cfg, requests).entities[id].scope == Org
    ensures i < |requests| && Writes(cfg, requests[i], id)
    ensures EntitledOrgWrite(requests[i], Replay(cfg, requests).entities[id])
    ensures LeftAlone(cfg, requests, i, |requests|, id)
  {
    assert requests[..|requests|] == requests;
    i := LastWriter(cfg, requests, |requests|, id);
    WritesAreEntitled(cfg, requests[i], Replay(cfg, requests).entities[id]);
  }

  /** Ids are namespaced by who may write them and by the document: the source id it was given or, without
      one, the hash of its title. */
  lemma WrittenUnderOwnName(cfg: Config, r: Request, e: Entity)
    requires ValidConfig(cfg) && Put(cfg, r, e)
    ensures var owner := if r.doc.scope == Org then "org" else "personal:" + r.principal.value.userId;
            var source := if r.doc.sourceId == None || r.doc.sourceId == Some("") then cfg.titleHash(r.doc.title)
                          else r.doc.sourceId.value;
            owner + ":" + source + ":" <= e.id
  {
    ExtractorNeverDecidesAccess(cfg, r, Accepted(cfg, r).value);
  }

  /** One ACL entry opens the entity to a reader: it names the reader, or a single grant authorizes it. */
  ghost predicate Opens(entry: string, reader: Principal, policy: Policy) {
    if "kg:read:user:" <= entry then entry == "kg:read:user:" + reader.userId
    else GrantedByOne(reader, policy, entry)
  }

  lemma EntryGrantsIff(entry: string, reader: Option<Principal>, policy: Policy)
    ensures EntryGrants(reader, entry, EffectivePermissions(reader, policy)) <==>
            reader.Some? && Opens(entry, reader.value, policy)
  {
    if reader.Some? {
      CanByOneGrant(reader.value, policy, entry);
    }
  }

  /** `can_read`, said of the ACL, the reader and the single grants. */
  lemma CanReadIff(e: Entity, reader: Option<Principal>, policy: Policy)
    ensures CanRead(reader, e, policy) <==>
            e.acl == [] || (reader.Some? && exists entry | entry in e.acl :: Opens(entry, reader.value, policy))
  {
    forall i | 0 <= i < |e.acl|
      ensures EntryGrants(reader, e.acl[i], EffectivePermissions(reader, policy)) <==>
              reader.Some? && Opens(e.acl[i], reader.value, policy)
    {
      EntryGrantsIff(e.acl[i], reader, policy);
    }
  }

  /** So organization knowledge is open to exactly those whom the ACL its entitled writer asked for admits:
      whoever holds a grant for `kg:read:org`, or, if an ACL was given, whoever one of its entries opens it to. */
  lemma OrgReadersIff(cfg: Config, requests: seq<Request>, id: string, reader: Option<Principal>, policy: Policy)
    returns (i: nat)
    requires ValidConfig(cfg) && id in Replay(cfg, requests).entities
    requires Replay(cfg, requests).entities[id].scope == Org
    ensures i < |requests| && Writes(cfg, requests[i], id)
    ensures LeftAlone(cfg, requests, i, |requests|, id)
    ensures CanRead(reader, Replay(cfg, requests).entities[id], policy) <==>
            && reader.Some?
            && if requests[i].doc.orgAcl == None || requests[i].doc.orgAcl == Some([])
               then GrantedByOne(reader.value, policy, "kg:read:org")
               else exists entry | entry in requests[i].doc.orgAcl.value :: Opens(entry, reader.value, policy)
  {
    var e := Replay(cfg, requests).entities[id];
    i := OrgKnowledgeIsEntitled(cfg, requests, id);
    CanReadIff(e, reader, policy);
    assert "kg:read:org" in ["kg:read:org"];
  }
}
