/**
  Sequences as JavaScript arrays treat them: `filter`, `reduce` with `+`, and
  `sort` with a comparator. Since ES2019 `Array.prototype.sort` is stable, so
  for a consistent comparator its result is the one permutation that is ordered
  and keeps tied elements in input order; `Sort` below is that permutation,
  computed by insertion.

  A comparator `c` is described by `before(a, b) == (c(a, b) < 0)`.
*/
module Sorting {

  /** `a` and `b` are tied: the comparator puts neither before the other. */
  predicate Tied<T>(before: (T, T) -> bool, a: T, b: T) {
    !before(a, b) && !before(b, a)
  }

  ghost predicate Asymmetric<T(!new)>(before: (T, T) -> bool) {
    forall a, b :: before(a, b) ==> !before(b, a)
  }

  ghost predicate NegativelyTransitive<T(!new)>(before: (T, T) -> bool) {
    forall a, b, c :: !before(a, b) && !before(b, c) ==> !before(a, c)
  }

  /** What a consistent comparator gives: ties form equivalence classes. */
  ghost predicate StrictWeakOrder<T(!new)>(before: (T, T) -> bool) {
    Asymmetric(before) && NegativelyTransitive(before)
  }

  /** A consistent comparator that ties only equal values. */
  ghost predicate StrictTotalOrder<T(!new)>(before: (T, T) -> bool) {
    StrictWeakOrder(before) && forall a, b :: a != b ==> before(a, b) || before(b, a)
  }

  ghost predicate Sorted<T>(s: seq<T>, before: (T, T) -> bool) {
    forall i, j :: 0 <= i < j < |s| ==> !before(s[j], s[i])
  }

  function Filter<T>(s: seq<T>, keep: T -> bool): (r: seq<T>)
    ensures |r| <= |s|
  {
    if s == [] then [] else (if keep(s[0]) then [s[0]] else []) + Filter(s[1..], keep)
  }

  /** What `Filter` keeps: exactly the elements that satisfy `keep`, each from `s`. */
  lemma {:induction false} FilterMembers<T>(s: seq<T>, keep: T -> bool)
    ensures forall x :: x in Filter(s, keep) <==> x in s && keep(x)
  {
    if s != [] {
      FilterMembers(s[1..], keep);
      assert s == [s[0]] + s[1..];
    }
  }

  lemma {:induction false} FilterAppend<T>(a: seq<T>, b: seq<T>, keep: T -> bool)
    ensures Filter(a + b, keep) == Filter(a, keep) + Filter(b, keep)
  {
    if a == [] {
      assert a + b == b;
    } else {
      var h := if keep(a[0]) then [a[0]] else [];
      assert (a + b)[0] == a[0];
      assert (a + b)[1..] == a[1..] + b;
      assert Filter(a + b, keep) == h + Filter(a[1..] + b, keep);
      FilterAppend(a[1..], b, keep);
      assert Filter(a, keep) == h + Filter(a[1..], keep);
    }
  }

  /** Two tests that agree on every element of `s` keep the same elements. */
  lemma {:induction false} FilterSame<T>(s: seq<T>, keep: T -> bool, keep': T -> bool)
    requires forall x :: x in s ==> keep(x) == keep'(x)
    ensures Filter(s, keep) == Filter(s, keep')
  {
    if s != [] {
      assert s[0] in s;
      assert forall x :: x in s[1..] ==> x in s;
      FilterSame(s[1..], keep, keep');
    }
  }

  /** A test every element passes keeps the whole sequence. */
  lemma {:induction false} FilterAll<T>(s: seq<T>, keep: T -> bool)
    requires forall x :: x in s ==> keep(x)
    ensures Filter(s, keep) == s
  {
    if s != [] {
      assert s[0] in s;
      assert forall x :: x in s[1..] ==> x in s;
      FilterAll(s[1..], keep);
      assert s == [s[0]] + s[1..];
    }
  }

  /** Filtering twice keeps what passes both tests. */
  lemma {:induction false} FilterTwice<T>(s: seq<T>, first: T -> bool, second: T -> bool, both: T -> bool)
    requires forall x :: x in s ==> (both(x) <==> first(x) && second(x))
    ensures Filter(Filter(s, first), second) == Filter(s, both)
  {
    if s != [] {
      assert s[0] in s;
      assert forall x :: x in s[1..] ==> x in s;
      FilterTwice(s[1..], first, second, both);
      var rest := Filter(s[1..], first);
      if first(s[0]) {
        FilterCons(s[0], rest, second);
      } else {
        assert Filter(s, first) == rest;
      }
    }
  }

  /** Sum of `f` over `s`, as `s.reduce((sum, x) => sum + f(x), 0)`. */
  function Sum<T>(s: seq<T>, f: T -> int): int {
    if s == [] then 0 else f(s[0]) + Sum(s[1..], f)
  }

  lemma {:induction false} SumAppend<T>(a: seq<T>, b: seq<T>, f: T -> int)
    ensures Sum(a + b, f) == Sum(a, f) + Sum(b, f)
  {
    if a == [] {
      assert a + b == b;
    } else {
      assert (a + b)[1..] == a[1..] + b;
      SumAppend(a[1..], b, f);
    }
  }

  lemma {:induction false} SumUpdate<T>(s: seq<T>, i: nat, v: T, f: T -> int)
    requires i < |s|
    ensures Sum(s[i := v], f) == Sum(s, f) - f(s[i]) + f(v)
  {
    if i > 0 {
      assert s[i := v][1..] == s[1..][i - 1 := v];
      SumUpdate(s[1..], i - 1, v, f);
    }
  }

  /** Inserts `x` in front of the first element that does not go strictly before it. */
  function Insert<T>(x: T, s: seq<T>, before: (T, T) -> bool): (r: seq<T>)
    ensures |r| == |s| + 1
    ensures multiset(r) == multiset(s) + multiset{x}
  {
    if s == [] || !before(s[0], x) then [x] + s
    else
      assert s == [s[0]] + s[1..];
      [s[0]] + Insert(x, s[1..], before)
  }

  /** The stable sort of `s` under `before`. */
  function Sort<T>(s: seq<T>, before: (T, T) -> bool): (r: seq<T>)
    ensures |r| == |s|
    ensures multiset(r) == multiset(s)
  {
    if s == [] then []
    else
      assert s == [s[0]] + s[1..];
      Insert(s[0], Sort(s[1..], before), before)
  }

  lemma SumCons<T>(x: T, t: seq<T>, f: T -> int)
    ensures Sum([x] + t, f) == f(x) + Sum(t, f)
  {
    assert ([x] + t)[0] == x;
    assert ([x] + t)[1..] == t;
  }

  lemma {:induction false} InsertSum<T>(x: T, s: seq<T>, before: (T, T) -> bool, f: T -> int)
    ensures Sum(Insert(x, s, before), f) == f(x) + Sum(s, f)
  {
    if s == [] || !before(s[0], x) {
      SumCons(x, s, f);
    } else {
      InsertSum(x, s[1..], before, f);
      SumCons(s[0], Insert(x, s[1..], before), f);
      SumCons(s[0], s[1..], f);
      assert [s[0]] + s[1..] == s;
    }
  }

  /** Sorting does not change a sum over the sequence. */
  lemma {:induction false} SortSum<T>(s: seq<T>, before: (T, T) -> bool, f: T -> int)
    ensures Sum(Sort(s, before), f) == Sum(s, f)
  {
    if s != [] {
      SortSum(s[1..], before, f);
      InsertSum(s[0], Sort(s[1..], before), before, f);
    }
  }

  lemma FilterNone<T>(s: seq<T>, keep: T -> bool)
    requires forall x :: x in s ==> !keep(x)
    ensures Filter(s, keep) == []
  {
    FilterMembers(s, keep);
  }

  /** Sorting keeps exactly the elements it was given. */
  lemma SortMembers<T>(s: seq<T>, before: (T, T) -> bool)
    ensures forall x :: x in Sort(s, before) <==> x in s
  {
    forall x ensures x in Sort(s, before) <==> x in s {
      assert x in Sort(s, before) <==> x in multiset(Sort(s, before));
      assert x in s <==> x in multiset(s);
    }
  }

  lemma {:induction false} InsertSorted<T(!new)>(x: T, s: seq<T>, before: (T, T) -> bool)
    requires StrictWeakOrder(before)
    requires Sorted(s, before)
    ensures Sorted(Insert(x, s, before), before)
  {
    if s == [] || !before(s[0], x) {
      var r := [x] + s;
      forall i, j | 0 <= i < j < |r| ensures !before(r[j], r[i]) {
        if i == 0 && j > 1 {
          assert !before(r[j], s[0]) && !before(s[0], x);
        }
      }
    } else {
      InsertSorted(x, s[1..], before);
      var t := Insert(x, s[1..], before);
      var r := [s[0]] + t;
      forall j | 0 < j < |r| ensures !before(r[j], s[0]) {
        assert r[j] in multiset(t);
        assert r[j] == x || r[j] in s[1..];
      }
    }
  }

  lemma {:induction false} SortSorted<T(!new)>(s: seq<T>, before: (T, T) -> bool)
    requires StrictWeakOrder(before)
    ensures Sorted(Sort(s, before), before)
  {
    if s != [] {
      SortSorted(s[1..], before);
      InsertSorted(s[0], Sort(s[1..], before), before);
    }
  }

  /** The first element of a sorted sequence goes before, or ties with, every element. */
  lemma SortedHead<T(!new)>(s: seq<T>, before: (T, T) -> bool)
    requires StrictWeakOrder(before)
    requires Sorted(s, before) && |s| > 0
    ensures forall x :: x in s ==> !before(x, s[0])
  {
    forall x | x in s ensures !before(x, s[0]) {
      var j :| 0 <= j < |s| && s[j] == x;
      if j > 0 {
        assert !before(s[j], s[0]);
      } else {
        assert !before(s[0], s[0]);
      }
    }
  }

  /** One instance of negative transitivity. */
  lemma NotBeforeChain<T(!new)>(before: (T, T) -> bool, a: T, b: T, c: T)
    requires StrictWeakOrder(before)
    requires !before(a, b) && !before(b, c)
    ensures !before(a, c)
  {
  }

  lemma FilterCons<T>(x: T, t: seq<T>, keep: T -> bool)
    ensures Filter([x] + t, keep) == (if keep(x) then [x] else []) + Filter(t, keep)
  {
    assert ([x] + t)[0] == x;
    assert ([x] + t)[1..] == t;
  }

  lemma InsertFront<T(!new)>(x: T, s: seq<T>, before: (T, T) -> bool, keep: T -> bool)
    requires StrictWeakOrder(before)
    requires Sorted(s, before)
    requires s == [] || !before(s[0], x)
    ensures Filter(Insert(x, s, before), keep)
         == if keep(x) then Insert(x, Filter(s, keep), before) else Filter(s, keep)
  {
    assert Insert(x, s, before) == [x] + s;
    FilterCons(x, s, keep);
    var f := Filter(s, keep);
    if keep(x) && f != [] {
      FilterMembers(s, keep);
      assert f[0] in s;
      SortedHead(s, before);
      NotBeforeChain(before, f[0], s[0], x);
      assert Insert(x, f, before) == [x] + f;
    }
  }

  lemma InsertBehind<T>(x: T, s: seq<T>, before: (T, T) -> bool, keep: T -> bool)
    requires s != [] && before(s[0], x)
    requires Filter(Insert(x, s[1..], before), keep)
          == if keep(x) then Insert(x, Filter(s[1..], keep), before) else Filter(s[1..], keep)
    ensures Filter(Insert(x, s, before), keep)
         == if keep(x) then Insert(x, Filter(s, keep), before) else Filter(s, keep)
  {
    var y, t := s[0], Insert(x, s[1..], before);
    var f := Filter(s[1..], keep);
    var h: seq<T> := if keep(y) then [y] else [];
    assert Insert(x, s, before) == [y] + t;
    FilterCons(y, t, keep);
    assert Filter(Insert(x, s, before), keep) == h + Filter(t, keep);
    assert Filter(s, keep) == h + f;
    if !keep(x) {
      assert Filter(t, keep) == f;
    } else if keep(y) {
      InsertPast(x, y, f, before);
      assert Filter(Insert(x, s, before), keep) == Insert(x, Filter(s, keep), before);
    } else {
      assert h + f == f && h + Filter(t, keep) == Filter(t, keep);
    }
  }

  /** Inserting behind an element that comes first. */
  lemma InsertPast<T>(x: T, y: T, t: seq<T>, before: (T, T) -> bool)
    requires before(y, x)
    ensures Insert(x, [y] + t, before) == [y] + Insert(x, t, before)
  {
    assert ([y] + t)[0] == y;
    assert ([y] + t)[1..] == t;
  }

  lemma SortedTail<T>(s: seq<T>, before: (T, T) -> bool)
    requires Sorted(s, before) && s != []
    ensures Sorted(s[1..], before)
  {
    forall i, j | 0 <= i < j < |s| - 1 ensures !before(s[1..][j], s[1..][i]) {
      assert s[1..][j] == s[j + 1] && s[1..][i] == s[i + 1];
    }
  }

  lemma {:induction false} FilterInsert<T(!new)>(x: T, s: seq<T>, before: (T, T) -> bool, keep: T -> bool)
    requires StrictWeakOrder(before)
    requires Sorted(s, before)
    ensures Filter(Insert(x, s, before), keep)
         == if keep(x) then Insert(x, Filter(s, keep), before) else Filter(s, keep)
  {
    if s == [] || !before(s[0], x) {
      InsertFront(x, s, before, keep);
    } else {
      SortedTail(s, before);
      FilterInsert(x, s[1..], before, keep);
      InsertBehind(x, s, before, keep);
    }
  }

  /** Sorting commutes with filtering: the order among kept elements does not depend on the others. */
  lemma {:induction false} SortFilter<T(!new)>(s: seq<T>, before: (T, T) -> bool, keep: T -> bool)
    requires StrictWeakOrder(before)
    ensures Sort(Filter(s, keep), before) == Filter(Sort(s, before), keep)
  {
    if s != [] {
      SortFilter(s[1..], before, keep);
      SortSorted(s[1..], before);
      FilterInsert(s[0], Sort(s[1..], before), before, keep);
      assert s == [s[0]] + s[1..];
      FilterCons(s[0], s[1..], keep);
      var f1 := Filter(s[1..], keep);
      if keep(s[0]) {
        assert ([s[0]] + f1)[0] == s[0] && ([s[0]] + f1)[1..] == f1;
        assert Sort(Filter(s, keep), before) == Insert(s[0], Sort(f1, before), before);
      } else {
        assert Filter(s, keep) == f1;
      }
    }
  }

  /** Keeps the elements tied with `x`. */
  function TiedWith<T>(before: (T, T) -> bool, x: T): T -> bool {
    y => Tied(before, x, y)
  }

  lemma {:induction false} SortAllTied<T(!new)>(s: seq<T>, before: (T, T) -> bool, x: T)
    requires StrictWeakOrder(before)
    requires forall y :: y in s ==> Tied(before, x, y)
    ensures Sort(s, before) == s
  {
    if s != [] {
      SortAllTied(s[1..], before, x);
      assert s == [s[0]] + s[1..];
      if s[1..] != [] {
        assert s[0] in s && s[1] in s;
        NotBeforeChain(before, s[1], x, s[0]);
      }
    }
  }

  /** Stability: the elements of any one tie class come out in their input order. */
  lemma SortStable<T(!new)>(s: seq<T>, before: (T, T) -> bool, x: T)
    requires StrictWeakOrder(before)
    ensures Filter(Sort(s, before), TiedWith(before, x)) == Filter(s, TiedWith(before, x))
  {
    SortFilter(s, before, TiedWith(before, x));
    FilterMembers(s, TiedWith(before, x));
    SortAllTied(Filter(s, TiedWith(before, x)), before, x);
  }

  /** Under a total order a sorted arrangement of a multiset is unique. */
  lemma {:induction false} SortedUnique<T(!new)>(a: seq<T>, b: seq<T>, before: (T, T) -> bool)
    requires StrictTotalOrder(before)
    requires Sorted(a, before) && Sorted(b, before)
    requires multiset(a) == multiset(b)
    ensures a == b
  {
    if a != [] {
      assert |b| == |a| by {
        assert |multiset(a)| == |a| && |multiset(b)| == |b|;
      }
      assert a[0] in multiset(b) && b[0] in multiset(a);
      SortedHead(a, before);
      SortedHead(b, before);
      assert a[0] == b[0];
      assert a == [a[0]] + a[1..] && b == [b[0]] + b[1..];
      assert multiset(a) == multiset([a[0]]) + multiset(a[1..]);
      assert multiset(b) == multiset([b[0]]) + multiset(b[1..]);
      assert multiset(a[1..]) == multiset(a) - multiset([a[0]]);
      assert multiset(b[1..]) == multiset(b) - multiset([b[0]]);
      SortedTail(a, before);
      SortedTail(b, before);
      SortedUnique(a[1..], b[1..], before);
    }
  }

  /** Under a total order the sort of a sequence depends only on its elements, not their order. */
  lemma SortPermutationInvariant<T(!new)>(a: seq<T>, b: seq<T>, before: (T, T) -> bool)
    requires StrictTotalOrder(before)
    requires multiset(a) == multiset(b)
    ensures Sort(a, before) == Sort(b, before)
  {
    SortSorted(a, before);
    SortSorted(b, before);
    SortedUnique(Sort(a, before), Sort(b, before), before);
  }

  /** A pair of integers compared lexicographically, larger first. */
  datatype Rank = Rank(primary: int, secondary: int)

  predicate Outranks(a: Rank, b: Rank) {
    a.primary > b.primary || (a.primary == b.primary && a.secondary > b.secondary)
  }

  /** The comparator `(a, b) => rank(b).primary - rank(a).primary || rank(b).secondary - rank(a).secondary`. */
  function Descending<T>(rank: T -> Rank): (T, T) -> bool {
    (a, b) => Outranks(rank(a), rank(b))
  }

  lemma DescendingIsWeakOrder<T(!new)>(rank: T -> Rank)
    ensures StrictWeakOrder(Descending(rank))
  {
  }

  /** No element is ranked strictly higher than one in front of it. */
  ghost predicate RankedDescending<T>(r: seq<T>, rank: T -> Rank) {
    forall i, j :: 0 <= i < j < |r| ==> !Outranks(rank(r[j]), rank(r[i]))
  }

  /** Sorting by a descending rank never puts a strictly higher rank behind a lower one. */
  lemma SortDescending<T(!new)>(s: seq<T>, rank: T -> Rank)
    ensures RankedDescending(Sort(s, Descending(rank)), rank)
  {
    DescendingIsWeakOrder(rank);
    SortSorted(s, Descending(rank));
    var r := Sort(s, Descending(rank));
    forall i, j | 0 <= i < j < |r| ensures !Outranks(rank(r[j]), rank(r[i])) {
      assert !Descending(rank)(r[j], r[i]);
    }
  }
}
