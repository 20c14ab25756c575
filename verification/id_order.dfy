/**
  The default order of JavaScript's `Array.prototype.sort` on string ids:
  lexicographic comparison character by character, a proper prefix first.
*/
module IdOrder {
  import opened Domain
  import opened Sorting

  predicate StrLess(a: string, b: string) {
    if |a| == 0 then |b| > 0
    else if |b| == 0 then false
    else a[0] < b[0] || (a[0] == b[0] && StrLess(a[1..], b[1..]))
  }

  function IdBefore(): (Id, Id) -> bool {
    (a: Id, b: Id) => StrLess(a, b)
  }

  lemma {:induction false} StrLessAsymmetric(a: string, b: string)
    ensures StrLess(a, b) ==> !StrLess(b, a)
  {
    if |a| > 0 && |b| > 0 && a[0] == b[0] {
      StrLessAsymmetric(a[1..], b[1..]);
    }
  }

  lemma {:induction false} StrLessTransitive(a: string, b: string, c: string)
    ensures StrLess(a, b) && StrLess(b, c) ==> StrLess(a, c)
  {
    if |a| > 0 && |b| > 0 && |c| > 0 && a[0] == b[0] && b[0] == c[0] {
      StrLessTransitive(a[1..], b[1..], c[1..]);
    }
  }

  lemma {:induction false} StrLessTotal(a: string, b: string)
    ensures a == b || StrLess(a, b) || StrLess(b, a)
  {
    if |a| > 0 && |b| > 0 && a[0] == b[0] {
      StrLessTotal(a[1..], b[1..]);
      if a[1..] == b[1..] {
        assert a == [a[0]] + a[1..] && b == [b[0]] + b[1..];
      }
    }
  }

  /** Lexicographic order is a strict total order, so sorting ids has one possible result. */
  lemma IdBeforeIsTotal()
    ensures StrictTotalOrder(IdBefore())
  {
    var lt := IdBefore();
    forall a, b ensures lt(a, b) ==> !lt(b, a) {
      StrLessAsymmetric(a, b);
    }
    forall a, b | a != b ensures lt(a, b) || lt(b, a) {
      StrLessTotal(a, b);
    }
    forall a, b, c | !lt(a, b) && !lt(b, c) ensures !lt(a, c) {
      StrLessTotal(a, b);
      StrLessTotal(b, c);
      StrLessTransitive(a, c, b);
    }
  }

  /** `ids.sort()` */
  function SortIds(ids: seq<Id>): seq<Id> {
    Sort(ids, IdBefore())
  }

  /** The same ids in any order sort to the same sequence. */
  lemma SortIdsIgnoresOrder(a: seq<Id>, b: seq<Id>)
    requires multiset(a) == multiset(b)
    ensures SortIds(a) == SortIds(b)
  {
    IdBeforeIsTotal();
    SortPermutationInvariant(a, b, IdBefore());
  }
}
