/** What the other modules share: optional values and a few facts about collections. */
module Collections {

  datatype Option<+T> = None | Some(value: T)

  function Min(a: int, b: int): int { if a < b then a else b }

  ghost predicate Distinct<T>(s: seq<T>) {
    forall i, j | 0 <= i < j < |s| :: s[i] != s[j]
  }

  function Elements<T>(s: seq<T>): set<T> {
    set x | x in s
  }

  lemma {:induction false} SubsetIsNoLarger<T>(a: set<T>, b: set<T>)
    requires a <= b
    ensures |a| <= |b|
  {
    if x :| x in a {
      SubsetIsNoLarger(a - {x}, b - {x});
    }
  }

  lemma {:induction false} ElementsAreNoMore<T>(s: seq<T>)
    ensures |Elements(s)| <= |s|
    ensures Distinct(s) ==> |Elements(s)| == |s|
  {
    if s != [] {
      var n := |s| - 1;
      ElementsAreNoMore(s[..n]);
      assert Elements(s) == Elements(s[..n]) + {s[n]};
    }
  }

  /** Two prefixes of one sequence are comparable. */
  lemma PrefixesCompare<T>(a: seq<T>, b: seq<T>, x: seq<T>)
    requires a <= x && b <= x
    ensures a <= b || b <= a
  {
  }

  // ----- selections -----

  /** Where among the first `n` elements one is kept. */
  ghost function Passing<T>(all: seq<T>, n: nat, keep: T -> bool): set<int>
    requires n <= |all|
  {
    set j | 0 <= j < n && keep(all[j])
  }

  /** As many elements as are kept, each at the place that the kept ones before it leave to it. */
  ghost predicate IsSelection<T>(selected: seq<T>, all: seq<T>, keep: T -> bool) {
    && |selected| == |Passing(all, |all|, keep)|
    && forall i | 0 <= i < |all| && keep(all[i]) ::
         |Passing(all, i, keep)| < |selected| && selected[|Passing(all, i, keep)|] == all[i]
  }

  lemma PassingBefore<T>(all: seq<T>, x: T, i: nat, keep: T -> bool)
    requires i <= |all|
    ensures Passing(all + [x], i, keep) == Passing(all, i, keep)
  {
    assert forall j | 0 <= j < i :: (all + [x])[j] == all[j];
  }

  lemma PassingLast<T>(all: seq<T>, x: T, keep: T -> bool)
    ensures |Passing(all + [x], |all| + 1, keep)| == |Passing(all, |all|, keep)| + if keep(x) then 1 else 0
  {
    var n := |all|;
    assert forall j | 0 <= j < n :: (all + [x])[j] == all[j];
    assert Passing(all + [x], n + 1, keep) == Passing(all, n, keep) + if keep(x) then {n} else {};
  }

  lemma SelectOneMore<T>(selected: seq<T>, all: seq<T>, x: T, keep: T -> bool)
    requires IsSelection(selected, all, keep)
    ensures IsSelection(selected + if keep(x) then [x] else [], all + [x], keep)
  {
    var longer, selected' := all + [x], selected + if keep(x) then [x] else [];
    PassingLast(all, x, keep);
    forall i | 0 <= i < |longer| && keep(longer[i])
      ensures |Passing(longer, i, keep)| < |selected'| && selected'[|Passing(longer, i, keep)|] == longer[i]
    {
      PassingBefore(all, x, i, keep);
    }
  }
}
