/** Paginated full-text retrieval and hybrid retrieval over a fixed table. */
module Retrieval {
  import opened Collections
  import opened Rbac
  import opened ReadAccess
  import opened RankFusion

  const RRF_K := 60
  const CANDIDATE_MULTIPLIER := 4

  // ----- the simple form -----

  /** The rows the principal may read, in order. */
  function ReadableRows(rows: seq<Entity>, readable: Entity -> bool): seq<Entity> {
    if rows == [] then []
    else
      var n := |rows| - 1;
      ReadableRows(rows[..n], readable) + if readable(rows[n]) then [rows[n]] else []
  }

  function Take<T>(s: seq<T>, limit: int): seq<T> {
    if limit <= 0 then [] else if limit < |s| then s[..limit] else s
  }

  lemma ReadableAppend(rows: seq<Entity>, e: Entity, readable: Entity -> bool)
    ensures ReadableRows(rows + [e], readable) ==
            ReadableRows(rows, readable) + if readable(e) then [e] else []
  {
    assert (rows + [e])[..|rows|] == rows;
  }

  lemma {:induction false} ReadablePrefix(rows: seq<Entity>, n: nat, readable: Entity -> bool)
    requires n <= |rows|
    ensures ReadableRows(rows[..n], readable) <= ReadableRows(rows, readable)
    decreases |rows|
  {
    if n == |rows| {
      assert rows[..n] == rows;
    } else {
      ReadablePrefix(rows[..|rows| - 1], n, readable);
      assert rows[..|rows| - 1][..n] == rows[..n];
    }
  }

  lemma EnoughIsAll(rows: seq<Entity>, done: seq<Entity>, readable: Entity -> bool)
    requires done <= rows
    ensures var found := ReadableRows(done, readable);
            found == Take(ReadableRows(rows, readable), |found|)
  {
    assert rows[..|done|] == done;
    ReadablePrefix(rows, |done|, readable);
  }

  lemma {:induction false} ReadableMembers(rows: seq<Entity>, readable: Entity -> bool)
    ensures forall e :: e in ReadableRows(rows, readable) <==> e in rows && readable(e)
  {
    if rows != [] {
      var n := |rows| - 1;
      ReadableMembers(rows[..n], readable);
      assert rows == rows[..n] + [rows[n]];
    }
  }

  // ----- the fast forms -----

  /** LIMIT batch OFFSET offset. */
  function Page(rows: seq<Entity>, batch: nat, offset: nat): (page: seq<Entity>)
    ensures |page| <= batch
    ensures offset <= |rows| ==> offset + |page| <= |rows| && page == rows[offset..offset + |page|]
    ensures offset <= |rows| ==> |page| == Min(batch, |rows| - offset)
  {
    if offset >= |rows| then [] else if offset + batch <= |rows| then rows[offset..offset + batch] else rows[offset..]
  }

  /** The inner loop: one page re-filtered, stopping as soon as there are `limit` results. */
  method ScanPage(rows: seq<Entity>, offset: nat, page: seq<Entity>, already: seq<Entity>,
                  readable: Entity -> bool, limit: nat)
    returns (results: seq<Entity>)
    requires offset + |page| <= |rows| && page == rows[offset..offset + |page|]
    requires already == ReadableRows(rows[..offset], readable) && |already| < limit
    ensures |results| < limit ==> results == ReadableRows(rows[..offset + |page|], readable)
    ensures |results| >= limit ==> results == Take(ReadableRows(rows, readable), limit)
  {
    results := already;
    ghost var done := rows[..offset];
    for i := 0 to |page|
      invariant done == rows[..offset + i] && results == ReadableRows(done, readable)
      invariant |results| < limit
    {
      var entity := page[i];
      ReadableAppend(done, entity, readable);
      done := done + [entity];
      if readable(entity) {
        results := results + [entity];
        if |results| >= limit {
          EnoughIsAll(rows, done, readable);
          return;
        }
      }
    }
  }

  /** Batched pages with an early return compute exactly the first `limit` readable rows. */
  method FtsQuery(rows: seq<Entity>, readable: Entity -> bool, limit: int)
    returns (results: seq<Entity>)
    ensures results == Take(ReadableRows(rows, readable), limit)
  {
    results := [];
    var offset := 0;
    while |results| < limit
      invariant offset <= |rows|
      invariant results == ReadableRows(rows[..offset], readable)
      invariant |results| < limit || (limit <= 0 && results == [])
      decreases |rows| - offset
    {
      var page := Page(rows, limit, offset);
      if page == [] {
        break;
      }
      results := ScanPage(rows, offset, page, results, readable, limit);
      if |results| >= limit {
        return;
      }
      offset := offset + |page|;
      if |page| < limit {
        break;
      }
    }
    assert limit > 0 ==> rows[..offset] == rows;
  }

  /** Rows of one table: the id determines the row. */
  ghost predicate OneTable(fts: seq<Entity>, vec: seq<Entity>) {
    && Distinct(Ids(fts)) && Distinct(Ids(vec))
    && forall i, j | 0 <= i < |fts| && 0 <= j < |vec| && fts[i].id == vec[j].id :: fts[i] == vec[j]
  }

  /** The id-to-row dict covers exactly the rows fetched so far. */
  ghost predicate Indexes(byId: map<string, Entity>, rows: seq<Entity>) {
    && (forall i | 0 <= i < |rows| :: rows[i].id in byId)
    && (forall id | id in byId :: byId[id].id == id && byId[id] in rows)
  }

  /** The results so far are the readable ones among the ids considered, each once. */
  ghost predicate Collected(results: seq<Entity>, considered: set<string>, byId: map<string, Entity>,
                            readable: Entity -> bool) {
    && considered <= byId.Keys
    && Distinct(Ids(results))
    && (forall e | e in results :: e.id in considered && byId[e.id] == e && readable(e))
    && (forall id | id in considered && readable(byId[id]) :: byId[id] in results)
  }

  // ----- the order of the answer -----

  function Unseen(ids: seq<string>, seen: set<string>): seq<string> {
    if ids == [] then []
    else
      var n := |ids| - 1;
      Unseen(ids[..n], seen) + if ids[n] in seen then [] else [ids[n]]
  }

  /** The readable rows of a list of ids, in the order of the list. */
  function Pick(ids: seq<string>, byId: map<string, Entity>, readable: Entity -> bool): seq<Entity> {
    if ids == [] then []
    else
      var n := |ids| - 1;
      Pick(ids[..n], byId, readable) +
      if ids[n] in byId && readable(byId[ids[n]]) then [byId[ids[n]]] else []
  }

  lemma {:induction false} UnseenMembers(ids: seq<string>, seen: set<string>)
    ensures forall id :: id in Unseen(ids, seen) <==> id in ids && id !in seen
  {
    if ids != [] {
      var n := |ids| - 1;
      UnseenMembers(ids[..n], seen);
      assert ids == ids[..n] + [ids[n]];
    }
  }

  lemma {:induction false} NothingSeen(ids: seq<string>)
    ensures Unseen(ids, {}) == ids
  {
    if ids != [] {
      NothingSeen(ids[..|ids| - 1]);
    }
  }

  lemma {:induction false} PickConcat(a: seq<string>, b: seq<string>, byId: map<string, Entity>, readable: Entity -> bool)
    ensures Pick(a + b, byId, readable) == Pick(a, byId, readable) + Pick(b, byId, readable)
  {
    if b == [] {
      assert a + b == a;
    } else {
      var n := |b| - 1;
      PickConcat(a, b[..n], byId, readable);
      assert (a + b)[..|a| + n] == a + b[..n];
    }
  }

  lemma PickGrows(a: seq<string>, b: seq<string>, byId: map<string, Entity>, readable: Entity -> bool)
    requires a <= b
    ensures Pick(a, byId, readable) <= Pick(b, byId, readable)
  {
    assert b == a + b[|a|..];
    PickConcat(a, b[|a|..], byId, readable);
  }

  lemma {:induction false} PickSame(ids: seq<string>, byId: map<string, Entity>, byId': map<string, Entity>,
                                    readable: Entity -> bool)
    requires forall id | id in ids :: id in byId && id in byId' && byId[id] == byId'[id]
    ensures Pick(ids, byId, readable) == Pick(ids, byId', readable)
  {
    if ids != [] {
      PickSame(ids[..|ids| - 1], byId, byId', readable);
    }
  }

  lemma TakeOfPrefix<T>(part: seq<T>, whole: seq<T>, limit: nat)
    requires part <= whole && |part| >= limit
    ensures Take(part, limit) == Take(whole, limit)
  {
  }

  lemma CollectOne(results: seq<Entity>, considered: set<string>, byId: map<string, Entity>,
                   readable: Entity -> bool, id: string)
    requires Collected(results, considered, byId, readable)
    requires id in byId && id !in considered && byId[id].id == id
    ensures Collected(if readable(byId[id]) then results + [byId[id]] else results, considered + {id}, byId, readable)
  {
    assert forall j | 0 <= j < |results| :: results[j] in results;
  }

  /** What a scan of `ids` adds: the readable rows of those not seen before. */
  function PickNew(ids: seq<string>, seen: set<string>, byId: map<string, Entity>, readable: Entity -> bool): seq<Entity> {
    if ids == [] then []
    else
      var n := |ids| - 1;
      PickNew(ids[..n], seen, byId, readable) +
      if ids[n] !in seen && ids[n] in byId && readable(byId[ids[n]]) then [byId[ids[n]]] else []
  }

  lemma {:induction false} PickNewIsPick(ids: seq<string>, seen: set<string>, byId: map<string, Entity>,
                                         readable: Entity -> bool)
    ensures PickNew(ids, seen, byId, readable) == Pick(Unseen(ids, seen), byId, readable)
  {
    if ids != [] {
      var n := |ids| - 1;
      var kept := Unseen(ids[..n], seen);
      PickNewIsPick(ids[..n], seen, byId, readable);
      assert (kept + [ids[n]])[..|kept|] == kept && kept + [] == kept;
    }
  }

  lemma PickNext(done: seq<string>, id: string, seen: set<string>, byId: map<string, Entity>, readable: Entity -> bool)
    ensures PickNew(done + [id], seen, byId, readable) ==
            PickNew(done, seen, byId, readable) +
            if id !in seen && id in byId && readable(byId[id]) then [byId[id]] else []
  {
    assert (done + [id])[..|done|] == done;
  }

  lemma {:induction false} PickNewGrows(ids: seq<string>, n: nat, seen: set<string>, byId: map<string, Entity>,
                                        readable: Entity -> bool)
    requires n <= |ids|
    ensures PickNew(ids[..n], seen, byId, readable) <= PickNew(ids, seen, byId, readable)
    decreases |ids|
  {
    if n == |ids| {
      assert ids[..n] == ids;
    } else {
      PickNewGrows(ids[..|ids| - 1], n, seen, byId, readable);
      assert ids[..|ids| - 1][..n] == ids[..n];
    }
  }

  lemma CollectNext(results: seq<Entity>, results': seq<Entity>, considered: set<string>, id: string,
                    byId: map<string, Entity>, readable: Entity -> bool)
    requires Collected(results, considered, byId, readable) && id in byId && byId[id].id == id
    requires results' == results + if id !in considered && readable(byId[id]) then [byId[id]] else []
    ensures Collected(results', considered + {id}, byId, readable)
  {
    if id in considered {
      assert considered + {id} == considered && results' == results;
    } else {
      CollectOne(results, considered, byId, readable, id);
      assert results' == if readable(byId[id]) then results + [byId[id]] else results;
    }
  }

  /** Adding the readable ones among new ids, each once, keeps the collection. */
  lemma {:induction false} PickIsCollected(already: seq<Entity>, before: set<string>, done: seq<string>,
                                           byId: map<string, Entity>, readable: Entity -> bool)
    requires Collected(already, before, byId, readable) && Distinct(done)
    requires forall id | id in done :: id in byId && byId[id].id == id
    ensures Collected(already + PickNew(done, before, byId, readable), before + Elements(done), byId, readable)
  {
    if done == [] {
      assert already + [] == already && before + Elements(done) == before;
    } else {
      var n := |done| - 1;
      var front, id := done[..n], done[n];
      var picked, picked' := PickNew(front, before, byId, readable), PickNew(done, before, byId, readable);
      PickIsCollected(already, before, front, byId, readable);
      assert id !in front;
      assert picked' == picked + if id !in before && readable(byId[id]) then [byId[id]] else [];
      CollectNext(already + picked, already + picked', before + Elements(front), id, byId, readable);
      assert before + Elements(front) + {id} == before + Elements(done);
    }
  }

  /** One pass over the fused order; no lookup misses. The rows not considered before are added in that
      order, up to the limit. */
  method CollectFused(fused: seq<string>, byId: map<string, Entity>, before: set<string>, already: seq<Entity>,
                      readable: Entity -> bool, limit: nat)
    returns (results: seq<Entity>, considered: set<string>)
    requires Distinct(fused) && forall id | id in fused :: id in byId && byId[id].id == id
    requires Collected(already, before, byId, readable) && |already| < limit
    ensures Collected(results, considered, byId, readable) && |results| <= limit
    ensures |results| < limit ==> considered == before + Elements(fused)
    ensures results == Take(already + Pick(Unseen(fused, before), byId, readable), limit)
  {
    PickNewIsPick(fused, before, byId, readable);
    ghost var done;
    results, considered, done := ScanFused(fused, byId, before, already, readable, limit);
    CutIsEnough(already, fused, done, before, byId, readable);
    PickIsCollected(already, before, done, byId, readable);
  }

  /** The scan itself: how far it came, and what it added on the way. */
  method ScanFused(fused: seq<string>, byId: map<string, Entity>, before: set<string>, already: seq<Entity>,
                   readable: Entity -> bool, limit: nat)
    returns (results: seq<Entity>, considered: set<string>, ghost done: seq<string>)
    requires Distinct(fused) && (forall id | id in fused :: id in byId) && |already| < limit
    ensures done <= fused && considered == before + Elements(done)
    ensures results == already + PickNew(done, before, byId, readable)
    ensures |results| == limit || (|results| < limit && done == fused)
  {
    results, considered, done := already, before, [];
    ghost var picked: seq<Entity> := [];
    for i := 0 to |fused|
      invariant done == fused[..i] && |results| < limit
      invariant considered == before + Elements(done)
      invariant picked == PickNew(done, before, byId, readable) && results == already + picked
    {
      var id := fused[i];
      PickNext(done, id, before, byId, readable);
      assert id !in done;
      done := done + [id];
      picked := PickNew(done, before, byId, readable);
      if id in considered {
        continue;
      }
      considered := considered + {id};
      if readable(byId[id]) {
        results := results + [byId[id]];
        if |results| >= limit {
          return;
        }
      }
    }
  }

  lemma CutIsEnough(already: seq<Entity>, fused: seq<string>, done: seq<string>, before: set<string>,
                    byId: map<string, Entity>, readable: Entity -> bool)
    requires done <= fused
    ensures var part := already + PickNew(done, before, byId, readable);
            part == Take(already + PickNew(fused, before, byId, readable), |part|)
  {
    PickNewGrows(fused, |done|, before, byId, readable);
    assert fused[..|done|] == done;
  }

  lemma DistinctFitsInto(a: seq<Entity>, b: seq<Entity>)
    requires Distinct(Ids(a)) && forall e | e in a :: e in b
    ensures |a| <= |b|
  {
    assert Distinct(a) by {
      forall i, j | 0 <= i < j < |a| ensures a[i] != a[j] {
        assert Ids(a)[i] != Ids(a)[j];
      }
    }
    ElementsAreNoMore(a);
    ElementsAreNoMore(b);
    SubsetIsNoLarger(Elements(a), Elements(b));
  }

  lemma {:induction false} ReadableIsDistinct(rows: seq<Entity>, readable: Entity -> bool)
    requires Distinct(Ids(rows))
    ensures Distinct(Ids(ReadableRows(rows, readable)))
  {
    if rows != [] {
      var n := |rows| - 1;
      assert forall i | 0 <= i < n :: Ids(rows[..n])[i] == Ids(rows)[i];
      ReadableIsDistinct(rows[..n], readable);
      ReadableMembers(rows[..n], readable);
      var rest := ReadableRows(rows[..n], readable);
      forall i | 0 <= i < |rest| ensures rest[i].id != rows[n].id {
        assert rest[i] in rest;
        var j :| 0 <= j < n && rows[j] == rest[i];
        assert Ids(rows)[j] != Ids(rows)[n];
      }
    }
  }

  /** Hybrid retrieval: duplicate-free, readable, at most `limit`, at least as many as full text alone
      would give; and if it stops short, exactly the readable full-text rows plus, provided there is
      any full-text row at all, the readable vector candidates. */
  ghost predicate HybridAnswer(results: seq<Entity>, fts: seq<Entity>, vec: seq<Entity>,
                               readable: Entity -> bool, limit: int) {
    && Distinct(Ids(results))
    && (forall e | e in results :: readable(e) && (e in fts || e in vec))
    && |results| <= (if limit < 0 then 0 else limit)
    && |results| >= |Take(ReadableRows(fts, readable), limit)|
    && (|results| < limit ==>
          forall e :: e in results <==> readable(e) && (e in fts || (fts != [] && e in vec)))
  }

  lemma ShortAnswerIsComplete(results: seq<Entity>, considered: set<string>, byId: map<string, Entity>,
                              fts: seq<Entity>, vec: seq<Entity>, readable: Entity -> bool, limit: int)
    requires OneTable(fts, vec) && Collected(results, considered, byId, readable) && |results| < limit
    requires Indexes(byId, vec + fts)
    requires considered == if fts == [] then {} else byId.Keys
    ensures HybridAnswer(results, fts, vec, readable, limit)
  {
    var rows := vec + fts;
    forall e ensures e in results <==> readable(e) && (e in fts || (fts != [] && e in vec)) {
      if e in results {
        assert byId[e.id] in rows;
      }
      if readable(e) && fts != [] && (e in fts || e in vec) {
        RowIsItsIndex(byId, fts, vec, e);
      }
    }
    ReadableMembers(fts, readable);
    ReadableIsDistinct(fts, readable);
    DistinctFitsInto(ReadableRows(fts, readable), results);
  }

  lemma SameIdSameRow(fts: seq<Entity>, vec: seq<Entity>, i: nat, j: nat)
    requires OneTable(fts, vec) && i < |vec + fts| && j < |vec + fts| && (vec + fts)[i].id == (vec + fts)[j].id
    ensures (vec + fts)[i] == (vec + fts)[j]
  {
    if i < |vec| && j < |vec| {
      assert Ids(vec)[i] == Ids(vec)[j];
    } else if i >= |vec| && j >= |vec| {
      assert Ids(fts)[i - |vec|] == Ids(fts)[j - |vec|];
    }
  }

  lemma RowIsItsIndex(byId: map<string, Entity>, fts: seq<Entity>, vec: seq<Entity>, e: Entity)
    requires OneTable(fts, vec) && Indexes(byId, vec + fts) && (e in fts || e in vec)
    ensures e.id in byId && byId[e.id] == e
  {
    var rows := vec + fts;
    assert e in rows;
    var i :| 0 <= i < |rows| && rows[i] == e;
    assert rows[i].id in byId;
    var j :| 0 <= j < |rows| && rows[j] == byId[e.id];
    SameIdSameRow(fts, vec, i, j);
  }

  lemma FullAnswerIsSound(results: seq<Entity>, considered: set<string>, byId: map<string, Entity>, n: nat,
                          fts: seq<Entity>, vec: seq<Entity>, readable: Entity -> bool, limit: nat)
    requires Collected(results, considered, byId, readable) && |results| == limit
    requires n <= |fts| && Indexes(byId, vec + fts[..n])
    ensures HybridAnswer(results, fts, vec, readable, limit)
  {
    forall e | e in results ensures e in fts || e in vec {
      assert byId[e.id] in vec + fts[..n];
    }
  }

  /** Rows that share an id are the same row. */
  ghost predicate Agree(known: seq<Entity>, page: seq<Entity>) {
    forall i, j | 0 <= i < |known| && 0 <= j < |page| && known[i].id == page[j].id :: known[i] == page[j]
  }

  /** Remember fetched rows by id and list the ids not listed yet. */
  method IndexRows(page: seq<Entity>, ids: seq<string>, byId: map<string, Entity>, ghost known: seq<Entity>)
    returns (ids': seq<string>, byId': map<string, Entity>)
    requires Indexes(byId, known) && Agree(known, page)
    requires Distinct(ids + Ids(page))
    ensures ids' == ids + Ids(page)
    ensures Indexes(byId', known + page)
    ensures forall id | id in byId :: id in byId' && byId'[id] == byId[id]
  {
    ids', byId' := ids, byId;
    assert known + page[..0] == known;
    for i := 0 to |page|
      invariant ids' == ids + Ids(page)[..i]
      invariant Indexes(byId', known + page[..i])
      invariant forall id | id in byId :: id in byId' && byId'[id] == byId[id]
    {
      var entity := page[i];
      assert known + page[..i + 1] == known + page[..i] + [entity];
      assert (ids + Ids(page))[|ids| + i] == entity.id;
      assert forall j | 0 <= j < |ids| + i :: (ids + Ids(page))[j] == ids'[j];
      byId' := byId'[entity.id := entity];
      if entity.id !in ids' {
        ids' := ids' + [entity.id];
      }
    }
    assert page[..|page|] == page;
  }

  lemma PageAgrees(fts: seq<Entity>, vec: seq<Entity>, offset: nat, n: nat)
    requires OneTable(fts, vec) && offset + n <= |fts|
    ensures Agree(vec + fts[..offset], fts[offset..offset + n])
  {
    var known, page := vec + fts[..offset], fts[offset..offset + n];
    forall i, j | 0 <= i < |known| && 0 <= j < |page| ensures known[i].id == page[j].id ==> known[i] == page[j] {
      assert page[j] == fts[offset + j];
      if i >= |vec| {
        assert known[i] == fts[i - |vec|];
        assert Ids(fts)[i - |vec|] != Ids(fts)[offset + j];
      }
    }
  }

  lemma SliceJoins(s: seq<Entity>, i: nat, j: nat)
    requires i <= j <= |s|
    ensures s[..i] + s[i..j] == s[..j]
    ensures j == |s| ==> s[..i] + s[i..j] == s
  {
  }

  lemma IdsConcat(a: seq<Entity>, b: seq<Entity>)
    ensures Ids(a + b) == Ids(a) + Ids(b)
    ensures Distinct(Ids(a + b)) ==> Distinct(Ids(a))
  {
    forall i, j | 0 <= i < j < |a| && Distinct(Ids(a + b)) ensures Ids(a)[i] != Ids(a)[j] {
      assert Ids(a + b)[i] != Ids(a + b)[j];
    }
  }

  lemma PageExtends(fts: seq<Entity>, offset: nat, n: nat)
    requires Distinct(Ids(fts)) && offset + n <= |fts|
    ensures fts[..offset] + fts[offset..offset + n] == fts[..offset + n]
    ensures Ids(fts[..offset]) + Ids(fts[offset..offset + n]) == Ids(fts[..offset + n])
    ensures Distinct(Ids(fts[..offset + n]))
  {
    SliceJoins(fts, offset, offset + n);
    IdsConcat(fts[..offset], fts[offset..offset + n]);
    SliceJoins(fts, offset + n, |fts|);
    IdsConcat(fts[..offset + n], fts[offset + n..|fts|]);
  }

  lemma PageFits(fts: seq<Entity>, vec: seq<Entity>, offset: nat, page: seq<Entity>)
    requires OneTable(fts, vec) && offset + |page| <= |fts| && page == fts[offset..offset + |page|]
    ensures Agree(vec + fts[..offset], page)
    ensures Distinct(Ids(fts[..offset]) + Ids(page))
    ensures Ids(fts[..offset]) + Ids(page) == Ids(fts[..offset + |page|])
    ensures vec + fts[..offset] + page == vec + fts[..offset + |page|]
  {
    PageAgrees(fts, vec, offset, |page|);
    PageExtends(fts, offset, |page|);
    assert vec + fts[..offset] + page == vec + (fts[..offset] + page);
  }

  /** One more page of full-text rows. */
  method IndexPage(ghost fts: seq<Entity>, ghost vec: seq<Entity>, ghost offset: nat, ghost next: nat, page: seq<Entity>,
                   ids: seq<string>, index: map<string, Entity>)
    returns (ftsIds: seq<string>, byId: map<string, Entity>)
    requires OneTable(fts, vec) && offset <= next <= |fts| && page == fts[offset..next]
    requires ids == Ids(fts[..offset]) && Indexes(index, vec + fts[..offset])
    ensures ftsIds == Ids(fts[..next]) && Indexes(byId, vec + fts[..next])
    ensures forall id | id in index :: id in byId && byId[id] == index[id]
  {
    PageFits(fts, vec, offset, page);
    ftsIds, byId := IndexRows(page, ids, index, vec + fts[..offset]);
  }

  /** The fused ids are exactly the ids fetched, so every lookup succeeds. */
  method FuseFetched(ftsIds: seq<string>, vecIds: seq<string>) returns (fused: seq<string>)
    ensures fused == Fusion([ftsIds, vecIds], RRF_K) && Distinct(fused)
    ensures forall id :: id in fused <==> id in ftsIds || id in vecIds
  {
    fused := RrfFuse([ftsIds, vecIds], RRF_K);
    FusionMeansIt([ftsIds, vecIds], RRF_K);
    ScoreOfTwo(ftsIds, vecIds, RRF_K, "");
    FirstSeenIsDistinct(Flatten([ftsIds, vecIds]));
  }

  lemma FetchedAreIndexed(byId: map<string, Entity>, fts: seq<Entity>, vec: seq<Entity>, fused: seq<string>)
    requires Indexes(byId, vec + fts)
    requires forall id :: id in fused <==> id in Ids(fts) || id in Ids(vec)
    ensures forall i | 0 <= i < |fused| :: fused[i] in byId
    ensures byId.Keys == Elements(fused)
  {
    var rows := vec + fts;
    forall id | id in fused ensures id in byId {
      if id in Ids(vec) {
        var i :| 0 <= i < |vec| && vec[i].id == id;
        assert rows[i].id in byId;
      } else {
        var i :| 0 <= i < |fts| && fts[i].id == id;
        assert rows[|vec| + i].id in byId;
      }
    }
    forall id | id in byId ensures id in fused {
      var i :| 0 <= i < |rows| && rows[i] == byId[id];
      if i < |vec| {
        assert Ids(vec)[i] == id;
      } else {
        assert Ids(fts)[i - |vec|] == id;
      }
    }
  }

  /** The ids of the rows fetched so far, fused. */
  function Fused(fts: seq<Entity>, vec: seq<Entity>): seq<string> {
    Fusion([Ids(fts), Ids(vec)], RRF_K)
  }

  /** The order in which the pages bring up ids: each page is fused with everything fetched before it,
      and what was brought up earlier stays where it is. */
  function VisitFrom(fts: seq<Entity>, vec: seq<Entity>, batch: int, offset: nat, visited: seq<string>): seq<string>
    decreases |fts| - offset
  {
    if batch <= 0 || offset >= |fts| then visited
    else
      var next := Min(offset + batch, |fts|);
      VisitFrom(fts, vec, batch, next, visited + Unseen(Fused(fts[..next], vec), Elements(visited)))
  }

  function Visit(fts: seq<Entity>, vec: seq<Entity>, batch: int): seq<string> {
    VisitFrom(fts, vec, batch, 0, [])
  }

  function RowIndex(rows: seq<Entity>): map<string, Entity> {
    if rows == [] then map[] else RowIndex(rows[..|rows| - 1])[rows[|rows| - 1].id := rows[|rows| - 1]]
  }

  lemma {:induction false} VisitGrows(fts: seq<Entity>, vec: seq<Entity>, batch: int, offset: nat, visited: seq<string>)
    ensures visited <= VisitFrom(fts, vec, batch, offset, visited)
    decreases |fts| - offset
  {
    if batch > 0 && offset < |fts| {
      var next := Min(offset + batch, |fts|);
      VisitGrows(fts, vec, batch, next, visited + Unseen(Fused(fts[..next], vec), Elements(visited)));
    }
  }

  lemma {:induction false} RowIndexHolds(rows: seq<Entity>)
    ensures Indexes(RowIndex(rows), rows)
  {
    if rows != [] {
      var n := |rows| - 1;
      RowIndexHolds(rows[..n]);
      assert rows == rows[..n] + [rows[n]];
    }
  }

  /** Index one page, fuse everything fetched so far, collect what is new. */
  method FuseAndCollect(fts: seq<Entity>, vec: seq<Entity>, offset: nat, next: nat, ids: seq<string>,
                        vecIds: seq<string>, index: map<string, Entity>, before: set<string>, already: seq<Entity>,
                        readable: Entity -> bool, limit: nat)
    returns (results: seq<Entity>, ftsIds: seq<string>, byId: map<string, Entity>, considered: set<string>)
    requires OneTable(fts, vec) && offset <= next <= |fts|
    requires ids == Ids(fts[..offset]) && vecIds == Ids(vec) && Indexes(index, vec + fts[..offset])
    requires Collected(already, before, index, readable) && |already| < limit
    ensures ftsIds == Ids(fts[..next]) && Indexes(byId, vec + fts[..next])
    ensures Collected(results, considered, byId, readable) && |results| <= limit
    ensures |results| < limit ==> considered == byId.Keys && considered == before + Elements(Fused(fts[..next], vec))
    ensures results == Take(already + Pick(Unseen(Fused(fts[..next], vec), before), byId, readable), limit)
  {
    ftsIds, byId := IndexPage(fts, vec, offset, next, fts[offset..next], ids, index);
    var fused := FuseFetched(ftsIds, vecIds);
    FetchedAreIndexed(byId, fts[..next], vec, fused);
    results, considered := CollectFused(fused, byId, before, already, readable, limit);
  }

  /** Where the paging loop stands after `offset` full-text rows. */
  ghost predicate Fetched(fts: seq<Entity>, vec: seq<Entity>, offset: nat, ftsIds: seq<string>,
                          byId: map<string, Entity>, considered: set<string>) {
    && offset <= |fts| && ftsIds == Ids(fts[..offset])
    && Indexes(byId, vec + fts[..offset])
    && considered == if offset == 0 then {} else byId.Keys
  }

  /** The results so far are the readable rows in the order the pages brought them up. */
  ghost predicate InOrder(fts: seq<Entity>, vec: seq<Entity>, limit: int, offset: nat, visited: seq<string>,
                          results: seq<Entity>, readable: Entity -> bool) {
    && results == Pick(visited, RowIndex(vec + fts), readable)
    && VisitFrom(fts, vec, limit, offset, visited) == Visit(fts, vec, limit)
  }

  /** The answer in full: the first `limit` readable rows in visiting order. */
  function OrderedAnswer(fts: seq<Entity>, vec: seq<Entity>, readable: Entity -> bool, limit: int): seq<Entity> {
    Take(Pick(Visit(fts, vec, limit), RowIndex(vec + fts), readable), limit)
  }

  lemma IndexesAgree(fts: seq<Entity>, vec: seq<Entity>, n: nat, byId: map<string, Entity>)
    requires OneTable(fts, vec) && n <= |fts| && Indexes(byId, vec + fts[..n])
    ensures forall id | id in byId :: id in RowIndex(vec + fts) && RowIndex(vec + fts)[id] == byId[id]
  {
    RowIndexHolds(vec + fts);
    forall id | id in byId ensures id in RowIndex(vec + fts) && RowIndex(vec + fts)[id] == byId[id] {
      assert byId[id] in vec + fts[..n];
      assert byId[id] in fts || byId[id] in vec;
      RowIsItsIndex(RowIndex(vec + fts), fts, vec, byId[id]);
    }
  }

  lemma VisitedElements(visited: seq<string>, fused: seq<string>)
    ensures Elements(visited + Unseen(fused, Elements(visited))) == Elements(visited) + Elements(fused)
  {
    UnseenMembers(fused, Elements(visited));
  }

  /** One page keeps the order. */
  lemma PageKeepsOrder(fts: seq<Entity>, vec: seq<Entity>, offset: nat, next: nat, visited: seq<string>, seen: set<string>,
                       byId: map<string, Entity>, already: seq<Entity>, readable: Entity -> bool, limit: nat)
    requires OneTable(fts, vec) && offset < |fts| && 0 < limit && next == Min(offset + limit, |fts|)
    requires InOrder(fts, vec, limit, offset, visited, already, readable) && seen == Elements(visited)
    requires Indexes(byId, vec + fts[..next])
    ensures var added := Unseen(Fused(fts[..next], vec), seen);
            InOrder(fts, vec, limit, next, visited + added, already + Pick(added, byId, readable), readable)
  {
    var fused := Fused(fts[..next], vec);
    var added := Unseen(fused, seen);
    FusionMeansIt([Ids(fts[..next]), Ids(vec)], RRF_K);
    ScoreOfTwo(Ids(fts[..next]), Ids(vec), RRF_K, "");
    FetchedAreIndexed(byId, fts[..next], vec, fused);
    IndexesAgree(fts, vec, next, byId);
    UnseenMembers(fused, seen);
    PickSame(added, byId, RowIndex(vec + fts), readable);
    PickConcat(visited, added, RowIndex(vec + fts), readable);
  }

  lemma StopsInOrder(fts: seq<Entity>, vec: seq<Entity>, limit: nat, offset: nat, visited: seq<string>,
                     found: seq<Entity>, readable: Entity -> bool)
    requires InOrder(fts, vec, limit, offset, visited, found, readable) && (|found| >= limit || offset == |fts|)
    ensures Take(found, limit) == OrderedAnswer(fts, vec, readable, limit)
  {
    VisitGrows(fts, vec, limit, offset, visited);
    PickGrows(visited, Visit(fts, vec, limit), RowIndex(vec + fts), readable);
    if |found| >= limit {
      TakeOfPrefix(found, Pick(Visit(fts, vec, limit), RowIndex(vec + fts), readable), limit);
    }
  }

  /** Where the loop stands at `offset`, order included. */
  ghost predicate Paging(fts: seq<Entity>, vec: seq<Entity>, limit: int, offset: nat, visited: seq<string>,
                         ftsIds: seq<string>, byId: map<string, Entity>, considered: set<string>,
                         results: seq<Entity>, readable: Entity -> bool) {
    && Fetched(fts, vec, offset, ftsIds, byId, considered)
    && Collected(results, considered, byId, readable)
    && considered == Elements(visited) && InOrder(fts, vec, limit, offset, visited, results, readable)
  }

  lemma PagingEnds(fts: seq<Entity>, vec: seq<Entity>, limit: int, offset: nat, visited: seq<string>, ftsIds: seq<string>,
                   byId: map<string, Entity>, considered: set<string>, results: seq<Entity>, readable: Entity -> bool)
    requires OneTable(fts, vec) && |results| < limit && offset == |fts|
    requires Paging(fts, vec, limit, offset, visited, ftsIds, byId, considered, results, readable)
    ensures HybridAnswer(results, fts, vec, readable, limit)
    ensures results == OrderedAnswer(fts, vec, readable, limit)
  {
    assert fts[..|fts|] == fts;
    ShortAnswerIsComplete(results, considered, byId, fts, vec, readable, limit);
    StopsInOrder(fts, vec, limit, |fts|, visited, results, readable);
  }

  /** The loop body: one more page, which may complete the answer. */
  method NextPage(fts: seq<Entity>, vec: seq<Entity>, offset: nat, next: nat, ids: seq<string>,
                  vecIds: seq<string>, index: map<string, Entity>, before: set<string>, already: seq<Entity>,
                  readable: Entity -> bool, limit: nat, ghost visited: seq<string>)
    returns (results: seq<Entity>, ftsIds: seq<string>, byId: map<string, Entity>, considered: set<string>,
             ghost visited': seq<string>)
    requires OneTable(fts, vec) && vecIds == Ids(vec) && offset < |fts| && next == Min(offset + limit, |fts|)
    requires Paging(fts, vec, limit, offset, visited, ids, index, before, already, readable) && |already| < limit
    ensures |results| < limit ==>
              Paging(fts, vec, limit, next, visited', ftsIds, byId, considered, results, readable)
    ensures |results| >= limit ==>
              HybridAnswer(results, fts, vec, readable, limit) && results == OrderedAnswer(fts, vec, readable, limit)
  {
    results, ftsIds, byId, considered :=
      FuseAndCollect(fts, vec, offset, next, ids, vecIds, index, before, already, readable, limit);
    visited' := visited + Unseen(Fused(fts[..next], vec), before);
    PagingGoesOn(fts, vec, limit, offset, next, visited, visited', before, ftsIds, byId, considered, already, results,
                 readable);
  }

  lemma PagingGoesOn(fts: seq<Entity>, vec: seq<Entity>, limit: nat, offset: nat, next: nat, visited: seq<string>,
                     visited': seq<string>, before: set<string>, ftsIds: seq<string>, byId: map<string, Entity>,
                     considered: set<string>, already: seq<Entity>, results: seq<Entity>, readable: Entity -> bool)
    requires OneTable(fts, vec) && offset < |fts| && |already| < limit && next == Min(offset + limit, |fts|)
    requires before == Elements(visited) && InOrder(fts, vec, limit, offset, visited, already, readable)
    requires ftsIds == Ids(fts[..next]) && Indexes(byId, vec + fts[..next])
    requires Collected(results, considered, byId, readable) && |results| <= limit
    requires |results| < limit ==> considered == byId.Keys && considered == before + Elements(Fused(fts[..next], vec))
    requires results == Take(already + Pick(Unseen(Fused(fts[..next], vec), before), byId, readable), limit)
    requires visited' == visited + Unseen(Fused(fts[..next], vec), before)
    ensures |results| < limit ==> Paging(fts, vec, limit, next, visited', ftsIds, byId, considered, results, readable)
    ensures |results| >= limit ==>
              HybridAnswer(results, fts, vec, readable, limit) && results == OrderedAnswer(fts, vec, readable, limit)
  {
    var added := Unseen(Fused(fts[..next], vec), before);
    PageKeepsOrder(fts, vec, offset, next, visited, before, byId, already, readable, limit);
    VisitedElements(visited, Fused(fts[..next], vec));
    if |results| >= limit {
      FullAnswerIsSound(results, considered, byId, next, fts, vec, readable, limit);
      StopsInOrder(fts, vec, limit, next, visited + added, already + Pick(added, byId, readable), readable);
    }
  }

  /** The paging loop. Which rows come back is `HybridAnswer`, in which order is `OrderedAnswer`. */
  method HybridQuery(fts: seq<Entity>, vec: seq<Entity>, readable: Entity -> bool, limit: int)
    returns (results: seq<Entity>)
    requires OneTable(fts, vec)
    ensures HybridAnswer(results, fts, vec, readable, limit)
    ensures results == OrderedAnswer(fts, vec, readable, limit)
  {
    var vecIds, byId := IndexVectorRows(vec, fts, readable, limit);
    if limit <= 0 {
      return [];
    }
    results := [];
    var ftsIds: seq<string> := [];
    var considered: set<string> := {};
    var offset := 0;
    ghost var visited: seq<string> := [];
    while |results| < limit
      invariant offset <= |fts|
      invariant Paging(fts, vec, limit, offset, visited, ftsIds, byId, considered, results, readable)
      invariant |results| < limit
      decreases |fts| - offset
    {
      var next := Min(offset + limit, |fts|);    // where the page LIMIT limit OFFSET offset ends
      if next == offset {
        break;
      }
      results, ftsIds, byId, considered, visited :=
        NextPage(fts, vec, offset, next, ftsIds, vecIds, byId, considered, results, readable, limit, visited);
      var full := next == offset + limit;
      offset := next;
      if |results| >= limit {
        return;
      }
      if !full {
        break;
      }
    }
    PagingEnds(fts, vec, limit, offset, visited, ftsIds, byId, considered, results, readable);
  }

  /** The vector candidates are indexed before any page is fetched. */
  method IndexVectorRows(vec: seq<Entity>, ghost fts: seq<Entity>, ghost readable: Entity -> bool, ghost limit: int)
    returns (vecIds: seq<string>, byId: map<string, Entity>)
    requires Distinct(Ids(vec))
    ensures vecIds == Ids(vec) && Paging(fts, vec, limit, 0, [], [], byId, {}, [], readable)
  {
    assert [] + Ids(vec) == Ids(vec) && [] + vec == vec + fts[..0];
    vecIds, byId := IndexRows(vec, [], map[], []);
  }

  // ----- what the order means when the full-text rows fit on one page -----

  /** Then the answer is the readable part of the fusion, cut at the limit. */
  lemma OnePageIsFusion(fts: seq<Entity>, vec: seq<Entity>, readable: Entity -> bool, limit: nat)
    requires 0 < |fts| <= limit
    ensures OrderedAnswer(fts, vec, readable, limit) ==
            Take(Pick(Fused(fts, vec), RowIndex(vec + fts), readable), limit)
  {
    var fused := Fused(fts, vec);
    assert fts[..|fts|] == fts;
    NothingSeen(fused);
    assert Elements<string>([]) == {} && [] + fused == fused;
    assert Visit(fts, vec, limit) == VisitFrom(fts, vec, limit, |fts|, fused) == fused;
  }

  lemma {:induction false} PickMembers(ids: seq<string>, byId: map<string, Entity>, readable: Entity -> bool)
    requires forall id | id in byId :: byId[id].id == id
    ensures forall id | id in ids && id in byId && readable(byId[id]) :: byId[id] in Pick(ids, byId, readable)
    ensures forall e | e in Pick(ids, byId, readable) :: e.id in ids
  {
    if ids != [] {
      var n := |ids| - 1;
      PickMembers(ids[..n], byId, readable);
      assert ids == ids[..n] + [ids[n]];
    }
  }

  /** Wherever the later of two ids is picked, the earlier one was picked before. */
  lemma {:induction false} PickKeepsOrder(ids: seq<string>, x: string, y: string, byId: map<string, Entity>,
                                          readable: Entity -> bool, j: nat)
    requires Distinct(ids) && Before(ids, x, y) && x in byId && readable(byId[x])
    requires forall id | id in byId :: byId[id].id == id
    requires j < |Pick(ids, byId, readable)| && Pick(ids, byId, readable)[j].id == y
    ensures exists i | 0 <= i < j :: Pick(ids, byId, readable)[i] == byId[x]
  {
    var n := |ids| - 1;
    var front := ids[..n];
    var picked, whole := Pick(front, byId, readable), Pick(ids, byId, readable);
    assert picked <= whole <= picked + [whole[|whole| - 1]];
    PickMembers(front, byId, readable);
    assert forall k | 0 <= k < |picked| :: picked[k] in picked && whole[k] == picked[k];
    if ids[n] == y {
      assert x in front && y !in front;
      var i :| 0 <= i < |picked| && picked[i] == byId[x];
      assert whole[i] == byId[x];
    } else {
      assert Before(front, x, y) && j < |picked|;
      PickKeepsOrder(front, x, y, byId, readable, j);
      var i :| 0 <= i < j && picked[i] == byId[x];
      assert whole[i] == byId[x];
    }
  }

  lemma TakeKeepsOrder(ids: seq<string>, a: Entity, y: string, byId: map<string, Entity>, readable: Entity -> bool,
                       limit: nat, answer: seq<Entity>, j: nat)
    requires Distinct(ids) && Before(ids, a.id, y) && a.id in byId && byId[a.id] == a && readable(a)
    requires forall id | id in byId :: byId[id].id == id
    requires answer == Take(Pick(ids, byId, readable), limit) && j < |answer| && answer[j].id == y
    ensures exists i | 0 <= i < j :: answer[i] == a
  {
    PickKeepsOrder(ids, a.id, y, byId, readable, j);
    var i :| 0 <= i < j && Pick(ids, byId, readable)[i] == a;
    assert answer[i] == a;
  }

  lemma RowIndexOf(fts: seq<Entity>, vec: seq<Entity>, a: Entity)
    requires OneTable(fts, vec) && (a in fts || a in vec)
    ensures var index := RowIndex(vec + fts);
            a.id in index && index[a.id] == a && forall id | id in index :: index[id].id == id
  {
    RowIndexHolds(vec + fts);
    RowIsItsIndex(RowIndex(vec + fts), fts, vec, a);
  }

  /** On a page, a row that is no deeper than rank 60 in both lists comes before every row of one list only, */
  lemma SharedRowsLead(fts: seq<Entity>, vec: seq<Entity>, p: nat, q: nat, b: string)
    requires Distinct(Ids(fts)) && Distinct(Ids(vec)) && p < |fts| && q < |vec| && p <= 60 && q <= 60
    requires fts[p].id == vec[q].id && ((b in Ids(fts)) != (b in Ids(vec)))
    ensures Before(Fused(fts, vec), fts[p].id, b)
  {
    AgreementBeatsSingleList(Ids(fts), Ids(vec), RRF_K, p, q, b);
  }

  /** and one at rank 61 in both does not: it ties with the first text row, and text comes first. */
  lemma TextLeadsOnTie(fts: seq<Entity>, vec: seq<Entity>)
    requires Distinct(Ids(fts)) && Distinct(Ids(vec)) && 61 < |fts| && 61 < |vec|
    requires fts[61].id == vec[61].id && fts[0].id !in Ids(vec)
    ensures Before(Fused(fts, vec), fts[0].id, fts[61].id)
  {
    AgreementBoundIsTight(Ids(fts), Ids(vec), RRF_K);
  }

  lemma FusedIsDistinct(fts: seq<Entity>, vec: seq<Entity>)
    ensures Distinct(Fused(fts, vec))
  {
    FusionMeansIt([Ids(fts), Ids(vec)], RRF_K);
  }

  // ----- what the order means over any number of pages -----

  /** Wherever `y` is, `x` is ahead of it. */
  ghost predicate Leads(s: seq<string>, x: string, y: string) {
    y in s ==> Before(s, x, y)
  }

  /** From `offset` on, `x` is ahead in the fusion of every page prefix in which `y` appears. */
  ghost predicate LeadsOnPages(fts: seq<Entity>, vec: seq<Entity>, batch: int, offset: nat, x: string, y: string)
    decreases |fts| - offset
  {
    if batch <= 0 || offset >= |fts| then true
    else
      var next := Min(offset + batch, |fts|);
      Leads(Fused(fts[..next], vec), x, y) && LeadsOnPages(fts, vec, batch, next, x, y)
  }

  lemma {:induction false} UnseenKeepsOrder(ids: seq<string>, seen: set<string>, x: string, y: string)
    requires Before(ids, x, y) && x !in seen && y !in seen
    ensures Before(Unseen(ids, seen), x, y)
  {
    var n := |ids| - 1;
    var front, kept := ids[..n], Unseen(ids[..n], seen);
    var i, j :| 0 <= i < j < |ids| && ids[i] == x && ids[j] == y;
    if j == n {
      UnseenMembers(front, seen);
      assert front[i] == x;
      var k :| 0 <= k < |kept| && kept[k] == x;
      assert Unseen(ids, seen)[k] == x && Unseen(ids, seen)[|kept|] == y;
    } else {
      assert front[i] == x && front[j] == y;
      UnseenKeepsOrder(front, seen, x, y);
      var k, l :| 0 <= k < l < |kept| && kept[k] == x && kept[l] == y;
      assert Unseen(ids, seen)[k] == x && Unseen(ids, seen)[l] == y;
    }
  }

  lemma {:induction false} UnseenIsDistinct(ids: seq<string>, seen: set<string>)
    requires Distinct(ids)
    ensures Distinct(Unseen(ids, seen))
  {
    if ids != [] {
      var n := |ids| - 1;
      UnseenIsDistinct(ids[..n], seen);
      UnseenMembers(ids[..n], seen);
      var kept := Unseen(ids[..n], seen);
      assert forall k | 0 <= k < |kept| :: kept[k] in kept;
    }
  }

  lemma BeforeInConcat(a: seq<string>, b: seq<string>, x: string, y: string)
    requires Before(a, x, y) || Before(b, x, y) || (x in a && y in b)
    ensures Before(a + b, x, y)
  {
    if Before(a, x, y) {
      var i, j :| 0 <= i < j < |a| && a[i] == x && a[j] == y;
      assert (a + b)[i] == x && (a + b)[j] == y;
    } else if Before(b, x, y) {
      var i, j :| 0 <= i < j < |b| && b[i] == x && b[j] == y;
      assert (a + b)[|a| + i] == x && (a + b)[|a| + j] == y;
    } else {
      var i :| 0 <= i < |a| && a[i] == x;
      var j :| 0 <= j < |b| && b[j] == y;
      assert (a + b)[i] == x && (a + b)[|a| + j] == y;
    }
  }

  lemma PageKeepsLead(visited: seq<string>, fused: seq<string>, x: string, y: string)
    requires Leads(visited, x, y) && Leads(fused, x, y)
    ensures Leads(visited + Unseen(fused, Elements(visited)), x, y)
  {
    var added := Unseen(fused, Elements(visited));
    UnseenMembers(fused, Elements(visited));
    if y in visited {
      BeforeInConcat(visited, added, x, y);
    } else if y in added {
      if x !in visited {
        UnseenKeepsOrder(fused, Elements(visited), x, y);
      }
      BeforeInConcat(visited, added, x, y);
    }
  }

  lemma {:induction false} VisitKeepsLead(fts: seq<Entity>, vec: seq<Entity>, batch: int, offset: nat,
                                          visited: seq<string>, x: string, y: string)
    requires Leads(visited, x, y) && LeadsOnPages(fts, vec, batch, offset, x, y)
    ensures Leads(VisitFrom(fts, vec, batch, offset, visited), x, y)
    decreases |fts| - offset
  {
    if batch > 0 && offset < |fts| {
      var next := Min(offset + batch, |fts|);
      var fused := Fused(fts[..next], vec);
      PageKeepsLead(visited, fused, x, y);
      VisitKeepsLead(fts, vec, batch, next, visited + Unseen(fused, Elements(visited)), x, y);
    }
  }

  lemma VisitedIsDistinct(visited: seq<string>, fused: seq<string>)
    requires Distinct(visited) && Distinct(fused)
    ensures Distinct(visited + Unseen(fused, Elements(visited)))
  {
    var added := Unseen(fused, Elements(visited));
    UnseenIsDistinct(fused, Elements(visited));
    UnseenMembers(fused, Elements(visited));
    assert forall k | 0 <= k < |added| :: added[k] in added;
  }

  lemma {:induction false} VisitIsDistinct(fts: seq<Entity>, vec: seq<Entity>, batch: int, offset: nat, visited: seq<string>)
    requires Distinct(visited)
    ensures Distinct(VisitFrom(fts, vec, batch, offset, visited))
    decreases |fts| - offset
  {
    if batch > 0 && offset < |fts| {
      var next := Min(offset + batch, |fts|);
      var fused := Fused(fts[..next], vec);
      FusedIsDistinct(fts[..next], vec);
      VisitedIsDistinct(visited, fused);
      VisitIsDistinct(fts, vec, batch, next, visited + Unseen(fused, Elements(visited)));
    }
  }

  /** A readable row that is ahead of another in the fusion of every page prefix in which the other appears
      is ahead of it in the answer; dominance and agreement of the rankings carry over. */
  lemma AheadInFusionIsAheadInAnswer(fts: seq<Entity>, vec: seq<Entity>, readable: Entity -> bool, limit: nat,
                                     answer: seq<Entity>, a: Entity, b: Entity, j: nat)
    requires OneTable(fts, vec) && answer == OrderedAnswer(fts, vec, readable, limit)
    requires (a in fts || a in vec) && readable(a) && LeadsOnPages(fts, vec, limit, 0, a.id, b.id)
    requires j < |answer| && answer[j] == b
    ensures exists i | 0 <= i < j :: answer[i] == a
  {
    var order, index := Visit(fts, vec, limit), RowIndex(vec + fts);
    VisitKeepsLead(fts, vec, limit, 0, [], a.id, b.id);
    VisitIsDistinct(fts, vec, limit, 0, []);
    RowIndexOf(fts, vec, a);
    PickedIsListed(order, index, readable, limit, answer, j);
    TakeKeepsOrder(order, a, b.id, index, readable, limit, answer, j);
  }

  lemma PickedIsListed(ids: seq<string>, byId: map<string, Entity>, readable: Entity -> bool, limit: nat,
                       answer: seq<Entity>, j: nat)
    requires forall id | id in byId :: byId[id].id == id
    requires answer == Take(Pick(ids, byId, readable), limit) && j < |answer|
    ensures answer[j].id in ids
  {
    PickMembers(ids, byId, readable);
    assert answer[j] == Pick(ids, byId, readable)[j];
    assert Pick(ids, byId, readable)[j] in Pick(ids, byId, readable);
  }

  // ----- the query a caller sees -----

  /** What SQL returns, unpaged: rows that match the text and pass the pushed-down filter. */
  function SqlRows(table: seq<Entity>, principal: Option<Principal>, policy: Policy, matches: Entity -> bool): seq<Entity> {
    if table == [] then []
    else
      var n := |table| - 1;
      SqlRows(table[..n], principal, policy, matches) +
      if matches(table[n]) && SqlReadable(principal, table[n].acl, EffectivePermissions(principal, policy))
      then [table[n]] else []
  }

  function MatchingRows(table: seq<Entity>, matches: Entity -> bool): seq<Entity> {
    if table == [] then []
    else
      var n := |table| - 1;
      MatchingRows(table[..n], matches) + if matches(table[n]) then [table[n]] else []
  }

  lemma PushdownStep(pushed: seq<Entity>, matched: seq<Entity>, e: Entity, hit: bool, keep: bool,
                     readable: Entity -> bool)
    requires ReadableRows(pushed, readable) == ReadableRows(matched, readable) && (readable(e) ==> keep)
    ensures ReadableRows(pushed + if hit && keep then [e] else [], readable) ==
            ReadableRows(matched + if hit then [e] else [], readable)
  {
    ReadableAppend(pushed, e, readable);
    ReadableAppend(matched, e, readable);
    assert pushed + [] == pushed && matched + [] == matched;
  }

  /** Filtering in SQL first and in Python afterwards loses and adds nothing. */
  lemma {:induction false} PushdownIsExact(table: seq<Entity>, principal: Option<Principal>, policy: Policy,
                                           matches: Entity -> bool, readable: Entity -> bool)
    requires forall e :: readable(e) <==> CanRead(principal, e, policy)
    ensures ReadableRows(SqlRows(table, principal, policy, matches), readable) ==
            ReadableRows(MatchingRows(table, matches), readable)
  {
    if table != [] {
      var n := |table| - 1;
      PushdownIsExact(table[..n], principal, policy, matches, readable);
      var keep := SqlReadable(principal, table[n].acl, EffectivePermissions(principal, policy));
      if readable(table[n]) {
        SqlNeverHidesReadable(principal, table[n].acl, EffectivePermissions(principal, policy));
      }
      PushdownStep(SqlRows(table[..n], principal, policy, matches), MatchingRows(table[..n], matches),
                   table[n], matches(table[n]), keep, readable);
    }
  }

  /** The re-filter: `can_read` for one principal under one policy. */
  function Reader(principal: Option<Principal>, policy: Policy): (readable: Entity -> bool)
    ensures forall e :: readable(e) <==> CanRead(principal, e, policy)
  {
    (e: Entity) => CanRead(principal, e, policy)
  }

  function Everything(): Entity -> bool {
    _ => true
  }

  /** The vector candidates: the nearest rows that pass the SQL filter, four times the limit. */
  function Candidates(nearest: seq<Entity>, principal: Option<Principal>, policy: Policy, limit: int): seq<Entity> {
    Take(SqlRows(nearest, principal, policy, Everything()),
         if limit * CANDIDATE_MULTIPLIER > limit then limit * CANDIDATE_MULTIPLIER else limit)
  }

  lemma CandidatesAreRows(nearest: seq<Entity>, principal: Option<Principal>, policy: Policy, limit: int)
    requires Distinct(Ids(nearest))
    ensures Distinct(Ids(Candidates(nearest, principal, policy, limit)))
    ensures forall e | e in Candidates(nearest, principal, policy, limit) :: e in nearest
  {
    var ranked, vec := SqlRows(nearest, principal, policy, Everything()), Candidates(nearest, principal, policy, limit);
    SqlRowsAreRows(nearest, principal, policy, Everything());
    assert vec <= ranked;
    assert forall i | 0 <= i < |vec| :: Ids(vec)[i] == Ids(ranked)[i] && vec[i] in ranked;
  }

  lemma {:induction false} SqlRowsAreRows(table: seq<Entity>, principal: Option<Principal>, policy: Policy,
                                          matches: Entity -> bool)
    requires Distinct(Ids(table))
    ensures Distinct(Ids(SqlRows(table, principal, policy, matches)))
    ensures forall e | e in SqlRows(table, principal, policy, matches) :: e in table
  {
    if table != [] {
      var n := |table| - 1;
      assert forall i | 0 <= i < n :: Ids(table[..n])[i] == Ids(table)[i];
      SqlRowsAreRows(table[..n], principal, policy, matches);
      var rest := SqlRows(table[..n], principal, policy, matches);
      forall i | 0 <= i < |rest| ensures rest[i].id != table[n].id {
        assert rest[i] in rest;
        var j :| 0 <= j < n && table[j] == rest[i];
        assert Ids(table)[j] != Ids(table)[n];
      }
    }
  }

  predicate SqlAdmits(principal: Option<Principal>, policy: Policy, e: Entity) {
    SqlReadable(principal, e.acl, EffectivePermissions(principal, policy))
  }

  /** What the WHERE clause keeps. */
  function SqlFilter(principal: Option<Principal>, policy: Policy, matches: Entity -> bool): (keep: Entity -> bool)
    ensures forall e :: keep(e) <==> matches(e) && SqlAdmits(principal, policy, e)
  {
    (e: Entity) => matches(e) && SqlAdmits(principal, policy, e)
  }

  /** SQL returns the rows that match and pass the filter, in table order. */
  lemma {:induction false} SqlRowsAreRanked(table: seq<Entity>, principal: Option<Principal>, policy: Policy,
                                            matches: Entity -> bool)
    ensures IsSelection(SqlRows(table, principal, policy, matches), table, SqlFilter(principal, policy, matches))
  {
    var keep := SqlFilter(principal, policy, matches);
    if table != [] {
      var n := |table| - 1;
      SqlRowsAreRanked(table[..n], principal, policy, matches);
      SelectOneMore(SqlRows(table[..n], principal, policy, matches), table[..n], table[n], keep);
      assert table == table[..n] + [table[n]];
    } else {
      assert Passing(table, 0, keep) == {};
    }
  }

  /** What a full-text query is for: the rows that match and that `can_read` admits. */
  function Sought(principal: Option<Principal>, policy: Policy, matches: Entity -> bool): (keep: Entity -> bool)
    ensures forall e :: keep(e) <==> matches(e) && CanRead(principal, e, policy)
  {
    (e: Entity) => matches(e) && CanRead(principal, e, policy)
  }

  /** Filtered twice, the rows are still those sought, in table order. */
  lemma {:induction false} SoughtAreRanked(table: seq<Entity>, matches: Entity -> bool, readable: Entity -> bool,
                                           keep: Entity -> bool)
    requires forall e :: keep(e) <==> matches(e) && readable(e)
    ensures IsSelection(ReadableRows(MatchingRows(table, matches), readable), table, keep)
  {
    if table != [] {
      var n := |table| - 1;
      var e, matched := table[n], MatchingRows(table[..n], matches);
      SoughtAreRanked(table[..n], matches, readable, keep);
      SelectOneMore(ReadableRows(matched, readable), table[..n], e, keep);
      assert table == table[..n] + [e];
      if matches(e) {
        ReadableAppend(matched, e, readable);
        assert MatchingRows(table, matches) == matched + [e];
      } else {
        assert MatchingRows(table, matches) == matched;
        assert ReadableRows(matched, readable) + [] == ReadableRows(matched, readable);
      }
    } else {
      assert Passing(table, 0, keep) == {};
    }
  }

  /** Query without vectors, over the whole table: the first `limit` rows that match and that the
      principal may read. */
  method QueryFullText(table: seq<Entity>, principal: Option<Principal>, policy: Policy,
                       matches: Entity -> bool, limit: int)
    returns (results: seq<Entity>)
    ensures results == Take(ReadableRows(MatchingRows(table, matches), Reader(principal, policy)), limit)
    ensures |results| == Min(if limit > 0 then limit else 0, |Passing(table, |table|, Sought(principal, policy, matches))|)
    ensures forall i | 0 <= i < |table| && matches(table[i]) && CanRead(principal, table[i], policy) ::
              var place := |Passing(table, i, Sought(principal, policy, matches))|;
              place < limit ==> place < |results| && results[place] == table[i]
  {
    SoughtAreRanked(table, matches, Reader(principal, policy), Sought(principal, policy, matches));
    PushdownIsExact(table, principal, policy, matches, Reader(principal, policy));
    results := FtsQuery(SqlRows(table, principal, policy, matches), Reader(principal, policy), limit);
  }

  /** How many of the rows that SQL may show are nearer than the `i`-th. */
  ghost function Nearer(nearest: seq<Entity>, i: nat, principal: Option<Principal>, policy: Policy): nat
    requires i <= |nearest|
  {
    |Passing(nearest, i, SqlFilter(principal, policy, Everything()))|
  }

  /** The vector side of a query, said of the nearest rows alone: a row is a candidate exactly if SQL may
      show it and fewer rows than the pool holds that SQL may show are nearer; candidates keep their order. */
  lemma CandidateIff(nearest: seq<Entity>, principal: Option<Principal>, policy: Policy, limit: int, i: nat)
    requires Distinct(Ids(nearest)) && i < |nearest|
    ensures var vec := Candidates(nearest, principal, policy, limit);
            var nearer := Nearer(nearest, i, principal, policy);
            && (nearest[i] in vec <==>
                SqlAdmits(principal, policy, nearest[i]) && (nearer < 4 * limit || nearer < limit))
            && (nearest[i] in vec ==> nearer < |vec| && vec[nearer] == nearest[i])
  {
    var ranked := SqlRows(nearest, principal, policy, Everything());
    SqlRowsAreRanked(nearest, principal, policy, Everything());
    SqlRowsAreRows(nearest, principal, policy, Everything());
    SqlRowsPass(nearest, principal, policy, Everything());
    PrefixMembers(ranked, nearest, SqlFilter(principal, policy, Everything()), i,
                  if limit * CANDIDATE_MULTIPLIER > limit then limit * CANDIDATE_MULTIPLIER else limit);
  }

  lemma PrefixMembers(rows: seq<Entity>, table: seq<Entity>, keep: Entity -> bool, i: nat, pool: int)
    requires IsSelection(rows, table, keep) && Distinct(Ids(rows)) && i < |table|
    requires forall e | e in rows :: keep(e)
    ensures var place := |Passing(table, i, keep)|;
            && (table[i] in Take(rows, pool) <==> keep(table[i]) && place < pool)
            && (table[i] in Take(rows, pool) ==> place < |Take(rows, pool)| && Take(rows, pool)[place] == table[i])
  {
    var head, place := Take(rows, pool), |Passing(table, i, keep)|;
    assert head <= rows;
    assert keep(table[i]) && place < |head| ==> head[place] == table[i];
    if table[i] in head {
      var k :| 0 <= k < |head| && head[k] == table[i];
      assert rows[k] == table[i] && rows[k] in rows;
      assert Ids(rows)[k] == Ids(rows)[place];
    }
  }

  lemma {:induction false} SqlRowsPass(table: seq<Entity>, principal: Option<Principal>, policy: Policy,
                                       matches: Entity -> bool)
    ensures forall e :: e in SqlRows(table, principal, policy, matches) <==>
                        e in table && matches(e) && SqlAdmits(principal, policy, e)
  {
    if table != [] {
      var n := |table| - 1;
      SqlRowsPass(table[..n], principal, policy, matches);
      assert table == table[..n] + [table[n]];
    }
  }

  /** Among the nearest rows, with fewer than four times the limit that SQL may show nearer than itself. */
  ghost predicate NearEnough(e: Entity, nearest: seq<Entity>, principal: Option<Principal>, policy: Policy, limit: int) {
    exists i | 0 <= i < |nearest| ::
      nearest[i] == e && Nearer(nearest, i, principal, policy) < 4 * limit
  }

  /** Text search found something for the fusion to start from. */
  ghost predicate SomeTextRow(table: seq<Entity>, principal: Option<Principal>, policy: Policy, matches: Entity -> bool) {
    exists e | e in table :: matches(e) && SqlAdmits(principal, policy, e)
  }

  lemma NearIff(nearest: seq<Entity>, principal: Option<Principal>, policy: Policy, limit: int, i: nat)
    requires Distinct(Ids(nearest)) && i < |nearest|
    ensures NearEnough(nearest[i], nearest, principal, policy, limit) <==>
            Nearer(nearest, i, principal, policy) < 4 * limit
  {
    forall j | 0 <= j < |nearest| && nearest[j] == nearest[i] ensures j == i {
      assert Ids(nearest)[j] == Ids(nearest)[i];
    }
  }

  lemma CandidateIsNear(nearest: seq<Entity>, principal: Option<Principal>, policy: Policy, limit: nat, e: Entity)
    requires Distinct(Ids(nearest))
    ensures e in Candidates(nearest, principal, policy, limit) <==>
            SqlAdmits(principal, policy, e) && NearEnough(e, nearest, principal, policy, limit)
  {
    CandidatesAreRows(nearest, principal, policy, limit);
    if e in nearest {
      var i :| 0 <= i < |nearest| && nearest[i] == e;
      CandidateIff(nearest, principal, policy, limit, i);
      NearIff(nearest, principal, policy, limit, i);
    }
  }

  /** The answer said of the table and the nearest rows alone. */
  ghost predicate AnswersFromTable(results: seq<Entity>, table: seq<Entity>, nearest: seq<Entity>,
                                   principal: Option<Principal>, policy: Policy, matches: Entity -> bool, limit: int) {
    && (forall e | e in results :: CanRead(principal, e, policy) && e in table && (matches(e) || e in nearest))
    && (|results| < limit ==>
          forall e :: e in results <==>
            && CanRead(principal, e, policy)
            && ((e in table && matches(e)) ||
                (SomeTextRow(table, principal, policy, matches) && NearEnough(e, nearest, principal, policy, limit))))
  }

  lemma AnswerIsFromTable(results: seq<Entity>, table: seq<Entity>, nearest: seq<Entity>, principal: Option<Principal>,
                          policy: Policy, matches: Entity -> bool, limit: int)
    requires Distinct(Ids(nearest)) && forall e | e in nearest :: e in table
    requires HybridAnswer(results, SqlRows(table, principal, policy, matches),
                          Candidates(nearest, principal, policy, limit), Reader(principal, policy), limit)
    ensures AnswersFromTable(results, table, nearest, principal, policy, matches, limit)
  {
    var fts, vec := SqlRows(table, principal, policy, matches), Candidates(nearest, principal, policy, limit);
    SqlRowsPass(table, principal, policy, matches);
    CandidatesAreRows(nearest, principal, policy, limit);
    assert fts != [] <==> SomeTextRow(table, principal, policy, matches) by {
      if fts != [] {
        assert fts[0] in fts;
      }
    }
    if |results| < limit {
      forall e
        ensures e in vec <==> SqlAdmits(principal, policy, e) && NearEnough(e, nearest, principal, policy, limit)
      {
        CandidateIsNear(nearest, principal, policy, limit, e);
      }
      forall e | CanRead(principal, e, policy) ensures SqlAdmits(principal, policy, e) {
        SqlNeverHidesReadable(principal, e.acl, EffectivePermissions(principal, policy));
      }
    }
  }

  lemma SubsetsAreOneTable(table: seq<Entity>, fts: seq<Entity>, vec: seq<Entity>)
    requires Distinct(Ids(table)) && Distinct(Ids(fts)) && Distinct(Ids(vec))
    requires (forall e | e in fts :: e in table) && (forall e | e in vec :: e in table)
    ensures OneTable(fts, vec)
  {
    forall i, j | 0 <= i < |fts| && 0 <= j < |vec| && fts[i].id == vec[j].id ensures fts[i] == vec[j] {
      assert fts[i] in table && vec[j] in table;
      var a :| 0 <= a < |table| && table[a] == fts[i];
      var b :| 0 <= b < |table| && table[b] == vec[j];
      assert Ids(table)[a] == Ids(table)[b];
    }
  }

  /** Query with vectors: `nearest` is the embedded part of the table, closest first. The candidate
      pool is four times the limit. */
  method QueryHybrid(table: seq<Entity>, nearest: seq<Entity>, principal: Option<Principal>, policy: Policy,
                     matches: Entity -> bool, limit: int)
    returns (results: seq<Entity>)
    requires Distinct(Ids(table)) && Distinct(Ids(nearest)) && forall e | e in nearest :: e in table
    ensures HybridAnswer(results, SqlRows(table, principal, policy, matches),
                         Candidates(nearest, principal, policy, limit), Reader(principal, policy), limit)
    ensures results == OrderedAnswer(SqlRows(table, principal, policy, matches),
                                     Candidates(nearest, principal, policy, limit), Reader(principal, policy), limit)
    ensures AnswersFromTable(results, table, nearest, principal, policy, matches, limit)
  {
    var fts := SqlRows(table, principal, policy, matches);
    var vec := Candidates(nearest, principal, policy, limit);
    SqlRowsAreRows(table, principal, policy, matches);
    CandidatesAreRows(nearest, principal, policy, limit);
    SubsetsAreOneTable(table, fts, vec);
    results := HybridQuery(fts, vec, Reader(principal, policy), limit);
    AnswerIsFromTable(results, table, nearest, principal, policy, matches, limit);
  }
}
