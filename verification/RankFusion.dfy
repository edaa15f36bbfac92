/** Reciprocal rank fusion of ranked id lists. */
module RankFusion {
  import opened Collections

  /** What an id earns for one appearance at a 0-based rank. */
  function Weight(k: nat, rank: nat): real {
    1.0 / ((k + rank + 1) as real)
  }

  /** What an id earns in one ranking. */
  function RankScore(ranking: seq<string>, k: nat, id: string): real {
    if ranking == [] then 0.0
    else
      var n := |ranking| - 1;
      RankScore(ranking[..n], k, id) + if ranking[n] == id then Weight(k, n) else 0.0
  }

  function Score(rankings: seq<seq<string>>, k: nat, id: string): real {
    if rankings == [] then 0.0
    else
      var n := |rankings| - 1;
      Score(rankings[..n], k, id) + RankScore(rankings[n], k, id)
  }

  function Flatten(rankings: seq<seq<string>>): seq<string> {
    if rankings == [] then [] else Flatten(rankings[..|rankings| - 1]) + rankings[|rankings| - 1]
  }

  /** The distinct ids in order of first appearance: the insertion order of the score dict. */
  function FirstSeen(ids: seq<string>): seq<string> {
    if ids == [] then []
    else
      var n := |ids| - 1;
      if ids[n] in ids[..n] then FirstSeen(ids[..n]) else FirstSeen(ids[..n]) + [ids[n]]
  }

  // ----- the order the fusion promises -----

  ghost predicate Before(order: seq<string>, x: string, y: string) {
    exists i, j | 0 <= i < j < |order| :: order[i] == x && order[j] == y
  }

  /** Higher score first, first seen first among equals. */
  ghost predicate Outranks(order: seq<string>, scores: map<string, real>, x: string, y: string)
    requires x in scores && y in scores
  {
    scores[x] > scores[y] || (scores[x] == scores[y] && Before(order, x, y))
  }

  ghost predicate Covered(scores: map<string, real>, s: seq<string>) {
    forall i | 0 <= i < |s| :: s[i] in scores
  }

  ghost predicate IsFusion(order: seq<string>, scores: map<string, real>, fused: seq<string>)
    requires Covered(scores, fused)
  {
    && Distinct(fused)
    && (forall id :: id in fused <==> id in order)
    && (forall i, j | 0 <= i < j < |fused| :: Outranks(order, scores, fused[i], fused[j]))
  }

  // ----- a stable descending sort -----

  function Insert(s: seq<string>, x: string, scores: map<string, real>): seq<string>
    requires x in scores && Covered(scores, s)
  {
    if s == [] then [x]
    else
      var n := |s| - 1;
      if scores[s[n]] >= scores[x] then s + [x] else Insert(s[..n], x, scores) + [s[n]]
  }

  lemma {:induction false} InsertContents(s: seq<string>, x: string, scores: map<string, real>)
    requires x in scores && Covered(scores, s)
    ensures multiset(Insert(s, x, scores)) == multiset(s) + multiset{x}
    ensures Covered(scores, Insert(s, x, scores))
  {
    if s != [] {
      var n := |s| - 1;
      assert s == s[..n] + [s[n]];
      if scores[s[n]] < scores[x] {
        InsertContents(s[..n], x, scores);
      }
    }
  }

  function SortDescending(order: seq<string>, scores: map<string, real>): (sorted: seq<string>)
    requires Covered(scores, order)
    ensures Covered(scores, sorted) && multiset(sorted) == multiset(order)
  {
    if order == [] then []
    else
      var n := |order| - 1;
      var rest := SortDescending(order[..n], scores);
      InsertContents(rest, order[n], scores);
      assert order == order[..n] + [order[n]];
      Insert(rest, order[n], scores)
  }

  ghost predicate Ordered(order: seq<string>, scores: map<string, real>, s: seq<string>)
    requires Covered(scores, s)
  {
    forall i, j | 0 <= i < j < |s| :: Outranks(order, scores, s[i], s[j])
  }

  lemma OrderedAppend(order: seq<string>, scores: map<string, real>, s: seq<string>, x: string)
    requires x in scores && Covered(scores, s) && Ordered(order, scores, s)
    requires forall i | 0 <= i < |s| :: Outranks(order, scores, s[i], x)
    ensures Covered(scores, s + [x]) && Ordered(order, scores, s + [x])
  {
  }

  /** Inserting the newest id puts it behind everything that scores at least as much. */
  lemma {:induction false} InsertKeepsOrder(order: seq<string>, s: seq<string>, x: string, scores: map<string, real>)
    requires x in scores && Covered(scores, s) && Ordered(order, scores, s)
    requires forall i | 0 <= i < |s| :: Before(order, s[i], x)
    ensures Covered(scores, Insert(s, x, scores)) && Ordered(order, scores, Insert(s, x, scores))
  {
    InsertContents(s, x, scores);
    if s != [] {
      var n := |s| - 1;
      if scores[s[n]] >= scores[x] {
        forall i | 0 <= i <= n ensures Outranks(order, scores, s[i], x) {
          assert i < n ==> Outranks(order, scores, s[i], s[n]);
        }
        OrderedAppend(order, scores, s, x);
      } else {
        InsertKeepsOrder(order, s[..n], x, scores);
        InsertContents(s[..n], x, scores);
        var front := Insert(s[..n], x, scores);
        forall i | 0 <= i < |front| ensures Outranks(order, scores, front[i], s[n]) {
          assert front[i] in multiset(front);
          assert front[i] == x || front[i] in s[..n];
        }
        OrderedAppend(order, scores, front, s[n]);
      }
    }
  }

  lemma {:induction false} SortIsOrdered(whole: seq<string>, n: nat, scores: map<string, real>)
    requires n <= |whole| && Covered(scores, whole[..n])
    ensures Ordered(whole, scores, SortDescending(whole[..n], scores))
  {
    if n > 0 {
      assert whole[..n][..n - 1] == whole[..n - 1];
      SortIsOrdered(whole, n - 1, scores);
      var rest := SortDescending(whole[..n - 1], scores);
      forall i | 0 <= i < |rest| ensures Before(whole, rest[i], whole[n - 1]) {
        assert rest[i] in multiset(rest);
        var j :| 0 <= j < n - 1 && whole[..n - 1][j] == rest[i];
        assert whole[j] == rest[i];
      }
      InsertKeepsOrder(whole, rest, whole[n - 1], scores);
    }
  }

  lemma DistinctFromMultiset(s: seq<string>, t: seq<string>)
    requires Distinct(s) && multiset(s) == multiset(t)
    ensures Distinct(t) && forall id :: id in t <==> id in s
  {
    forall id ensures id in t <==> id in s {
      assert id in t <==> id in multiset(t);
      assert id in s <==> id in multiset(s);
    }
    forall i, j | 0 <= i < j < |t| ensures t[i] != t[j] {
      assert t == t[..i] + [t[i]] + t[i + 1..j] + [t[j]] + t[j + 1..];
      CountAtMostOne(s, t[i]);
      assert multiset(t)[t[i]] <= 1;
    }
  }

  lemma {:induction false} CountAtMostOne(s: seq<string>, x: string)
    requires Distinct(s)
    ensures multiset(s)[x] <= 1
  {
    if s != [] {
      var n := |s| - 1;
      CountAtMostOne(s[..n], x);
      assert s == s[..n] + [s[n]];
      assert s[n] !in s[..n];
    }
  }

  /** Sorting a duplicate-free order gives exactly the promised fusion. */
  lemma SortIsFusion(order: seq<string>, scores: map<string, real>)
    requires Distinct(order) && Covered(scores, order)
    ensures IsFusion(order, scores, SortDescending(order, scores))
  {
    assert order[..|order|] == order;
    SortIsOrdered(order, |order|, scores);
    DistinctFromMultiset(order, SortDescending(order, scores));
  }

  lemma NeverBothWays(order: seq<string>, scores: map<string, real>, x: string, y: string)
    requires Distinct(order) && x in scores && y in scores
    ensures !(Outranks(order, scores, x, y) && Outranks(order, scores, y, x))
  {
  }

  /** The promise leaves no freedom: at most one sequence keeps it. */
  lemma {:induction false} FusionIsUnique(order: seq<string>, scores: map<string, real>, a: seq<string>, b: seq<string>)
    requires Distinct(order) && Covered(scores, a) && Covered(scores, b)
    requires Distinct(a) && Distinct(b) && (forall id :: id in a <==> id in b)
    requires Ordered(order, scores, a) && Ordered(order, scores, b)
    ensures a == b
    decreases |a|
  {
    assert |b| > 0 ==> b[0] in a;
    if a != [] {
      assert a[0] in b;
      var j :| 0 <= j < |b| && b[j] == a[0];
      assert b[0] in a;
      var i :| 0 <= i < |a| && a[i] == b[0];
      NeverBothWays(order, scores, a[0], b[0]);
      assert a[0] == b[0];
      forall id ensures id in a[1..] <==> id in b[1..] {
        assert a == [a[0]] + a[1..] && b == [b[0]] + b[1..];
        assert a[0] !in a[1..] && b[0] !in b[1..];
        assert id in a <==> id == a[0] || id in a[1..];
        assert id in b <==> id == b[0] || id in b[1..];
      }
      FusionIsUnique(order, scores, a[1..], b[1..]);
      assert a == [a[0]] + a[1..] && b == [b[0]] + b[1..];
    }
  }

  // ----- the fusion itself -----

  lemma {:induction false} FirstSeenIsDistinct(ids: seq<string>)
    ensures Distinct(FirstSeen(ids))
    ensures forall id :: id in FirstSeen(ids) <==> id in ids
  {
    if ids != [] {
      var n := |ids| - 1;
      FirstSeenIsDistinct(ids[..n]);
      assert ids == ids[..n] + [ids[n]];
    }
  }

  lemma {:induction false} FirstSeenOfDistinct(ids: seq<string>)
    requires Distinct(ids)
    ensures FirstSeen(ids) == ids
  {
    if ids != [] {
      var n := |ids| - 1;
      FirstSeenOfDistinct(ids[..n]);
      assert ids[n] !in ids[..n];
      assert ids == ids[..n] + [ids[n]];
    }
  }

  /** The scores of exactly the ids in `order`. */
  ghost predicate Scores(scores: map<string, real>, rankings: seq<seq<string>>, k: nat) {
    && scores.Keys == (set id | id in Flatten(rankings))
    && forall id | id in scores :: scores[id] == Score(rankings, k, id)
  }

  function ScoreTable(rankings: seq<seq<string>>, k: nat): (scores: map<string, real>)
    ensures Scores(scores, rankings, k)
  {
    map id | id in Flatten(rankings) :: Score(rankings, k, id)
  }

  lemma {:induction false} AbsentEarnsNothing(ranking: seq<string>, k: nat, id: string)
    requires id !in ranking
    ensures RankScore(ranking, k, id) == 0.0
  {
    if ranking != [] {
      AbsentEarnsNothing(ranking[..|ranking| - 1], k, id);
    }
  }

  lemma {:induction false} UnseenScoresZero(rankings: seq<seq<string>>, k: nat, id: string)
    requires id !in Flatten(rankings)
    ensures Score(rankings, k, id) == 0.0
  {
    if rankings != [] {
      UnseenScoresZero(rankings[..|rankings| - 1], k, id);
      AbsentEarnsNothing(rankings[|rankings| - 1], k, id);
    }
  }

  /** One appearance, at the rank that follows `ranked`. */
  method AddOne(id: string, k: nat, ghost base: map<string, real>, table: map<string, real>, order: seq<string>,
                ghost seen: seq<string>, ranked: seq<string>)
    returns (table': map<string, real>, order': seq<string>)
    requires order == FirstSeen(seen) && table.Keys == (set x | x in seen)
    requires base.Keys <= table.Keys && forall x | x in ranked :: x in seen
    requires forall x | x in table :: table[x] == (if x in base then base[x] else 0.0) + RankScore(ranked, k, x)
    ensures order' == FirstSeen(seen + [id]) && table'.Keys == set x | x in seen + [id]
    ensures forall x | x in table' ::
              table'[x] == (if x in base then base[x] else 0.0) + RankScore(ranked + [id], k, x)
  {
    table', order' := table, order;
    SeenAppend(seen, id);
    if id !in table' {
      order' := order' + [id];
      AbsentEarnsNothing(ranked, k, id);
    }
    table' := table'[id := (if id in table' then table'[id] else 0.0) + Weight(k, |ranked|)];
    forall x ensures RankScore(ranked + [id], k, x) ==
                     RankScore(ranked, k, x) + if id == x then Weight(k, |ranked|) else 0.0
    {
      EarnAppend(ranked, k, id, x);
    }
  }

  lemma SeenAppend(ids: seq<string>, id: string)
    ensures FirstSeen(ids + [id]) == if id in ids then FirstSeen(ids) else FirstSeen(ids) + [id]
  {
    assert (ids + [id])[..|ids|] == ids;
  }

  lemma EarnAppend(ranking: seq<string>, k: nat, x: string, id: string)
    ensures RankScore(ranking + [x], k, id) ==
            RankScore(ranking, k, id) + if x == id then Weight(k, |ranking|) else 0.0
  {
    assert (ranking + [x])[..|ranking|] == ranking;
  }

  /** The inner loop: one ranking added to the scores and to the insertion order. */
  method AddRanking(ranking: seq<string>, k: nat, table: map<string, real>, order: seq<string>, ghost seen: seq<string>)
    returns (table': map<string, real>, order': seq<string>)
    requires order == FirstSeen(seen) && table.Keys == set id | id in seen
    ensures order' == FirstSeen(seen + ranking) && table'.Keys == set id | id in seen + ranking
    ensures forall id | id in table' ::
              table'[id] == (if id in table then table[id] else 0.0) + RankScore(ranking, k, id)
  {
    table', order' := table, order;
    ghost var all := seen;
    for i := 0 to |ranking|
      invariant all == seen + ranking[..i]
      invariant order' == FirstSeen(all) && table'.Keys == set id | id in all
      invariant forall id | id in table' ::
                  table'[id] == (if id in table then table[id] else 0.0) + RankScore(ranking[..i], k, id)
    {
      table', order' := AddOne(ranking[i], k, table, table', order', all, ranking[..i]);
      all := all + [ranking[i]];
      assert ranking[..i] + [ranking[i]] == ranking[..i + 1];
    }
    assert ranking[..|ranking|] == ranking;
  }

  /** The fused order: every id once, by summed score, first seen first among equals. */
  function Fusion(rankings: seq<seq<string>>, k: nat): seq<string> {
    FirstSeenIsDistinct(Flatten(rankings));
    SortDescending(FirstSeen(Flatten(rankings)), ScoreTable(rankings, k))
  }

  lemma FusionMeansIt(rankings: seq<seq<string>>, k: nat)
    ensures var fused, scores := Fusion(rankings, k), ScoreTable(rankings, k);
            && Covered(scores, fused) && IsFusion(FirstSeen(Flatten(rankings)), scores, fused)
            && forall id :: id in fused <==> id in Flatten(rankings)
  {
    FirstSeenIsDistinct(Flatten(rankings));
    SortIsFusion(FirstSeen(Flatten(rankings)), ScoreTable(rankings, k));
  }

  method RrfFuse(rankings: seq<seq<string>>, k: nat) returns (fused: seq<string>)
    ensures fused == Fusion(rankings, k)
  {
    var table: map<string, real> := map[];
    var order: seq<string> := [];
    for r := 0 to |rankings|
      invariant order == FirstSeen(Flatten(rankings[..r]))
      invariant Scores(table, rankings[..r], k)
    {
      ghost var before := rankings[..r];
      assert rankings[..r + 1][..r] == before;
      forall id | id !in table ensures Score(before, k, id) == 0.0 {
        UnseenScoresZero(before, k, id);
      }
      table, order := AddRanking(rankings[r], k, table, order, Flatten(before));
    }
    assert rankings[..|rankings|] == rankings;
    FirstSeenIsDistinct(Flatten(rankings));
    assert table == ScoreTable(rankings, k);
    fused := SortDescending(order, table);
  }

  // ----- what the fused order means -----

  lemma WeightDecreases(k: nat, p: nat, q: nat)
    requires p < q
    ensures Weight(k, p) > Weight(k, q) > 0.0
  {
    var x, y := (k + p + 1) as real, (k + q + 1) as real;
    assert 0.0 < x < y;
    assert 1.0 / x > 1.0 / y by {
      assert 1.0 / x - 1.0 / y == (y - x) / (x * y);
    }
  }

  /** In a duplicate-free ranking an id earns the weight of its one rank. */
  lemma {:induction false} EarnsItsRank(ranking: seq<string>, k: nat, p: nat)
    requires Distinct(ranking) && p < |ranking|
    ensures RankScore(ranking, k, ranking[p]) == Weight(k, p)
  {
    var n := |ranking| - 1;
    if p < n {
      EarnsItsRank(ranking[..n], k, p);
    } else {
      assert ranking[n] !in ranking[..n];
      AbsentEarnsNothing(ranking[..n], k, ranking[n]);
    }
  }

  /** `a` is ahead of `b` wherever `b` appears at all. */
  ghost predicate Dominates(rankings: seq<seq<string>>, a: string, b: string) {
    forall r | 0 <= r < |rankings| && b in rankings[r] :: Before(rankings[r], a, b)
  }

  lemma DominatedRankEarnsLess(ranking: seq<string>, k: nat, a: string, b: string)
    requires Distinct(ranking) && a != b && (b in ranking ==> Before(ranking, a, b))
    ensures RankScore(ranking, k, a) >= RankScore(ranking, k, b) >= 0.0
    ensures a in ranking ==> RankScore(ranking, k, a) > RankScore(ranking, k, b)
  {
    if b in ranking {
      var i, j :| 0 <= i < j < |ranking| && ranking[i] == a && ranking[j] == b;
      EarnsItsRank(ranking, k, i);
      EarnsItsRank(ranking, k, j);
      WeightDecreases(k, i, j);
    } else {
      AbsentEarnsNothing(ranking, k, b);
      if a in ranking {
        var i :| 0 <= i < |ranking| && ranking[i] == a;
        EarnsItsRank(ranking, k, i);
        WeightDecreases(k, i, i + 1);
      } else {
        AbsentEarnsNothing(ranking, k, a);
      }
    }
  }

  lemma {:induction false} DominanceRaisesScore(rankings: seq<seq<string>>, k: nat, a: string, b: string)
    requires a != b && Dominates(rankings, a, b)
    requires forall r | 0 <= r < |rankings| :: Distinct(rankings[r])
    ensures Score(rankings, k, a) >= Score(rankings, k, b)
    ensures a in Flatten(rankings) ==> Score(rankings, k, a) > Score(rankings, k, b)
  {
    if rankings != [] {
      var n := |rankings| - 1;
      DominanceRaisesScore(rankings[..n], k, a, b);
      DominatedRankEarnsLess(rankings[n], k, a, b);
    }
  }

  lemma NeverAscends(order: seq<string>, scores: map<string, real>, fused: seq<string>)
    requires Covered(scores, fused) && IsFusion(order, scores, fused)
    ensures forall i, j | 0 <= i < j < |fused| :: scores[fused[i]] >= scores[fused[j]]
  {
    assert forall i, j | 0 <= i < j < |fused| :: Outranks(order, scores, fused[i], fused[j]);
  }

  /** A strictly higher score is a strictly earlier place. */
  lemma HigherScoreComesFirst(order: seq<string>, scores: map<string, real>, fused: seq<string>, a: string, b: string)
    requires Covered(scores, fused) && IsFusion(order, scores, fused) && a in fused && b in fused
    requires scores[a] > scores[b]
    ensures Before(fused, a, b)
  {
    NeverAscends(order, scores, fused);
    var i :| 0 <= i < |fused| && fused[i] == a;
    var j :| 0 <= j < |fused| && fused[j] == b;
  }

  /** An id that is ahead wherever the other appears is ahead in the fusion. */
  lemma DominanceIsRespected(rankings: seq<seq<string>>, k: nat, a: string, b: string)
    requires forall r | 0 <= r < |rankings| :: Distinct(rankings[r])
    requires a != b && a in Flatten(rankings) && b in Flatten(rankings) && Dominates(rankings, a, b)
    ensures Before(Fusion(rankings, k), a, b)
  {
    FusionMeansIt(rankings, k);
    DominanceRaisesScore(rankings, k, a, b);
    HigherScoreComesFirst(FirstSeen(Flatten(rankings)), ScoreTable(rankings, k), Fusion(rankings, k), a, b);
  }

  lemma HalfOfNearlyDouble(x: real)
    requires x >= 1.0
    ensures 1.0 / (2.0 * x - 1.0) + 1.0 / (2.0 * x - 1.0) > 1.0 / x
  {
    var y := 2.0 * x - 1.0;
    var u, v := 1.0 / y, 1.0 / x;
    assert u * y == 1.0 && v * x == 1.0;
    assert (2.0 * u - v) * (x * y) == 1.0 by {
      assert (2.0 * u - v) * (x * y) == 2.0 * x * (u * y) - y * (v * x);
    }
    assert x * y > 0.0;
  }

  lemma TwiceDeepBeatsOnceTop(k: nat, p: nat, q: nat, r: nat)
    requires p <= k && q <= k
    ensures Weight(k, p) + Weight(k, q) > Weight(k, r)
  {
    if p < k { WeightDecreases(k, p, k); }
    if q < k { WeightDecreases(k, q, k); }
    if r > 0 { WeightDecreases(k, 0, r); }
    var x := (k + 1) as real;
    HalfOfNearlyDouble(x);
    assert (k + k + 1) as real == 2.0 * x - 1.0;
  }

  lemma ScoreOfTwo(first: seq<string>, second: seq<string>, k: nat, id: string)
    ensures Score([first, second], k, id) == RankScore(first, k, id) + RankScore(second, k, id)
    ensures Flatten([first, second]) == first + second
  {
    assert [first, second][..1] == [first] && [first][..0] == [];
    assert Score([first], k, id) == RankScore(first, k, id);
    assert Flatten([first]) == first;
  }

  /** An id no deeper than rank `k` in both lists comes before every id found in only one of them. */
  lemma AgreementBeatsSingleList(first: seq<string>, second: seq<string>, k: nat, p: nat, q: nat, b: string)
    requires Distinct(first) && Distinct(second)
    requires p < |first| && q < |second| && first[p] == second[q] && p <= k && q <= k
    requires (b in first || b in second) && !(b in first && b in second)
    ensures Before(Fusion([first, second], k), first[p], b)
  {
    var a := first[p];
    FusionMeansIt([first, second], k);
    ScoreOfTwo(first, second, k, a);
    ScoreOfTwo(first, second, k, b);
    EarnsItsRank(first, k, p);
    EarnsItsRank(second, k, q);
    var alone := if b in first then first else second;
    var other := if b in first then second else first;
    var r :| 0 <= r < |alone| && alone[r] == b;
    EarnsItsRank(alone, k, r);
    AbsentEarnsNothing(other, k, b);
    TwiceDeepBeatsOnceTop(k, p, q, r);
    assert a in Flatten([first, second]) && b in Flatten([first, second]);
    HigherScoreComesFirst(FirstSeen(Flatten([first, second])), ScoreTable([first, second], k),
                          Fusion([first, second], k), a, b);
  }

  lemma DeepTwiceTiesWithTop(k: nat)
    ensures Weight(k, k + 1) + Weight(k, k + 1) == Weight(k, 0)
  {
    var x := (k + 1) as real;
    assert (k + (k + 1) + 1) as real == 2.0 * x;
    assert 1.0 / (2.0 * x) + 1.0 / (2.0 * x) == 1.0 / x;
  }

  lemma {:induction false} FirstListSeenFirst(first: seq<string>, second: seq<string>)
    requires Distinct(first)
    ensures first <= FirstSeen(first + second)
  {
    if second == [] {
      assert first + second == first;
      FirstSeenOfDistinct(first);
    } else {
      var n := |second| - 1;
      FirstListSeenFirst(first, second[..n]);
      assert first + second == first + second[..n] + [second[n]];
      SeenAppend(first + second[..n], second[n]);
    }
  }

  /** Of two fused ids the one that outranks the other comes first. */
  lemma OutrankingComesFirst(order: seq<string>, scores: map<string, real>, fused: seq<string>, a: string, b: string)
    requires Distinct(order) && Covered(scores, fused) && IsFusion(order, scores, fused)
    requires a in fused && b in fused && a != b && Outranks(order, scores, a, b)
    ensures Before(fused, a, b)
  {
    NeverBothWays(order, scores, a, b);
    var i :| 0 <= i < |fused| && fused[i] == a;
    var j :| 0 <= j < |fused| && fused[j] == b;
    assert !(j < i);
  }

  /** The bound is tight: an id one rank deeper in both lists comes after the top of the first list, even
      when that is in the first list only. */
  lemma AgreementBoundIsTight(first: seq<string>, second: seq<string>, k: nat)
    requires Distinct(first) && Distinct(second) && k + 1 < |first| && k + 1 < |second|
    requires first[k + 1] == second[k + 1] && first[0] !in second
    ensures Before(Fusion([first, second], k), first[0], first[k + 1])
  {
    var a, b := first[k + 1], first[0];
    var order, scores := FirstSeen(Flatten([first, second])), ScoreTable([first, second], k);
    FusionMeansIt([first, second], k);
    ScoreOfTwo(first, second, k, a);
    ScoreOfTwo(first, second, k, b);
    EarnsItsRank(first, k, k + 1);
    EarnsItsRank(second, k, k + 1);
    EarnsItsRank(first, k, 0);
    AbsentEarnsNothing(second, k, b);
    DeepTwiceTiesWithTop(k);
    FirstListSeenFirst(first, second);
    FirstSeenIsDistinct(first + second);
    assert a in first + second && b in first + second;
    assert Before(order, b, a) by {
      assert order[0] == b && order[k + 1] == a;
    }
    OutrankingComesFirst(order, scores, Fusion([first, second], k), b, a);
  }

  function Named(n: nat): (name: string)
    ensures |name| == n
  {
    seq(n, _ => 'x')
  }

  /** Such lists exist for every `k`. */
  lemma TightBoundIsReached(k: nat) returns (first: seq<string>, second: seq<string>)
    ensures Distinct(first) && Distinct(second) && k + 1 < |first| && k + 1 < |second|
    ensures first[k + 1] == second[k + 1] && first[0] !in second
    ensures Before(Fusion([first, second], k), first[0], first[k + 1])
  {
    first := seq(k + 2, i requires 0 <= i < k + 2 => Named(i));
    second := seq(k + 2, i requires 0 <= i < k + 2 => Named(if i == k + 1 then k + 1 else k + 2 + i));
    assert forall i | 0 <= i < k + 2 :: first[i] == Named(i);
    assert forall i | 0 <= i < k + 2 :: second[i] == Named(if i == k + 1 then k + 1 else k + 2 + i);
    AgreementBoundIsTight(first, second, k);
  }

  /** Fusing a single ranking changes nothing. */
  lemma SingleRankingUnchanged(ranking: seq<string>, k: nat)
    requires Distinct(ranking)
    ensures Fusion([ranking], k) == ranking
  {
    var scores := ScoreTable([ranking], k);
    FusionMeansIt([ranking], k);
    assert [ranking][..0] == [] && Flatten([ranking]) == ranking;
    FirstSeenOfDistinct(ranking);
    forall i | 0 <= i < |ranking| ensures ranking[i] in scores && scores[ranking[i]] == Weight(k, i) {
      EarnsItsRank(ranking, k, i);
      assert Score([ranking], k, ranking[i]) == RankScore(ranking, k, ranking[i]);
    }
    forall i, j | 0 <= i < j < |ranking| ensures Outranks(ranking, scores, ranking[i], ranking[j]) {
      WeightDecreases(k, i, j);
    }
    FusionIsUnique(ranking, scores, Fusion([ranking], k), ranking);
  }
}
