/**
 * Python's `sorted` and `list.sort` as the route ranker uses them: on
 * tuples compared element by element, where the elements are numbers,
 * strings and tuples of those.  A comparison is given as a strict total
 * order `lt`; then the sorted list is the one ordering of the input
 * that `lt` never contradicts, whatever algorithm produced it, and
 * equal elements (which are identical values) need no stability rule.
 */
module Sorting {

  /** `lt` is irreflexive, transitive and relates any two different values. */
  ghost predicate StrictTotal<T(!new)>(lt: (T, T) -> bool) {
    (forall a :: !lt(a, a)) &&
    (forall a, b, c :: lt(a, b) && lt(b, c) ==> lt(a, c)) &&
    (forall a, b :: a != b ==> lt(a, b) || lt(b, a))
  }

  /** No later element of `s` is below an earlier one. */
  predicate SortedBy<T>(s: seq<T>, lt: (T, T) -> bool) {
    forall i, j :: 0 <= i < j < |s| ==> !lt(s[j], s[i])
  }

  /** `x` put in front of the first element of `s` that it is below. */
  function InsertBy<T>(x: T, s: seq<T>, lt: (T, T) -> bool): (r: seq<T>)
    ensures multiset(r) == multiset(s) + multiset{x}
    ensures |r| == |s| + 1
  {
    if s == [] then [x]
    else if lt(s[0], x) then
      assert s == [s[0]] + s[1..];
      [s[0]] + InsertBy(x, s[1..], lt)
    else [x] + s
  }

  /** The sorted permutation of `s` (an insertion sort; only its result matters). */
  function SortBy<T>(s: seq<T>, lt: (T, T) -> bool): (r: seq<T>)
    ensures multiset(r) == multiset(s)
    ensures |r| == |s|
  {
    if s == [] then []
    else
      assert s == s[..|s| - 1] + [s[|s| - 1]];
      InsertBy(s[|s| - 1], SortBy(s[..|s| - 1], lt), lt)
  }

  /** No element of `s` is below `x`. */
  predicate NoneBelow<T>(x: T, s: seq<T>, lt: (T, T) -> bool) {
    forall j :: 0 <= j < |s| ==> !lt(s[j], x)
  }

  lemma SortedTail<T>(s: seq<T>, lt: (T, T) -> bool)
    requires SortedBy(s, lt) && s != []
    ensures SortedBy(s[1..], lt) && NoneBelow(s[0], s[1..], lt)
  {
    assert forall k :: 0 <= k < |s[1..]| ==> s[1..][k] == s[k + 1];
  }

  lemma SortedCons<T>(x: T, s: seq<T>, lt: (T, T) -> bool)
    requires SortedBy(s, lt) && NoneBelow(x, s, lt)
    ensures SortedBy([x] + s, lt)
  {
    assert forall k :: 1 <= k < |[x] + s| ==> ([x] + s)[k] == s[k - 1];
  }

  /** Every element of a sorted list is at or above its head. */
  lemma HeadLeast<T(!new)>(s: seq<T>, e: T, lt: (T, T) -> bool)
    requires StrictTotal(lt) && SortedBy(s, lt) && e in multiset(s)
    ensures !lt(e, s[0])
  {
    var k :| 0 <= k < |s| && s[k] == e;
    if k > 0 {
      assert !lt(s[k], s[0]);
    }
  }

  lemma MultisetTail<T>(s: seq<T>)
    requires s != []
    ensures multiset(s[1..]) == multiset(s) - multiset{s[0]}
    ensures multiset(s) == multiset(s[1..]) + multiset{s[0]}
  {
    assert s == [s[0]] + s[1..];
  }

  lemma {:induction false} InsertSorted<T(!new)>(x: T, s: seq<T>, lt: (T, T) -> bool)
    requires StrictTotal(lt) && SortedBy(s, lt)
    ensures SortedBy(InsertBy(x, s, lt), lt)
  {
    if s != [] {
      SortedTail(s, lt);
      if lt(s[0], x) {
        var rest := InsertBy(x, s[1..], lt);
        InsertSorted(x, s[1..], lt);
        forall j | 0 <= j < |rest|
          ensures !lt(rest[j], s[0])
        {
          assert rest[j] in multiset(rest);
          if rest[j] != x {
            var k :| 0 <= k < |s[1..]| && s[1..][k] == rest[j];
          }
        }
        SortedCons(s[0], rest, lt);
      } else {
        forall j | 0 <= j < |s|
          ensures !lt(s[j], x)
        {
          if s[j] != s[0] {
            assert !lt(s[j], s[0]) by {
              if j > 0 {
                assert s[1..][j - 1] == s[j];
              }
            }
            assert lt(s[0], s[j]);
          }
        }
        SortedCons(x, s, lt);
      }
    }
  }

  /** `SortBy` sorts. */
  lemma {:induction false} SortBySorted<T(!new)>(s: seq<T>, lt: (T, T) -> bool)
    requires StrictTotal(lt)
    ensures SortedBy(SortBy(s, lt), lt)
  {
    if s != [] {
      SortBySorted(s[..|s| - 1], lt);
      InsertSorted(s[|s| - 1], SortBy(s[..|s| - 1], lt), lt);
    }
  }

  /** Under a strict total order there is one sorted arrangement of a multiset. */
  lemma {:induction false} SortedUnique<T(!new)>(a: seq<T>, b: seq<T>, lt: (T, T) -> bool)
    requires StrictTotal(lt) && SortedBy(a, lt) && SortedBy(b, lt)
    requires multiset(a) == multiset(b)
    ensures a == b
    decreases |a|
  {
    assert |a| == |multiset(a)| == |multiset(b)| == |b|;
    if a != [] {
      assert a[0] in multiset(b) && b[0] in multiset(a);
      HeadLeast(b, a[0], lt);
      HeadLeast(a, b[0], lt);
      assert a[0] == b[0];
      MultisetTail(a);
      MultisetTail(b);
      SortedTail(a, lt);
      SortedTail(b, lt);
      SortedUnique(a[1..], b[1..], lt);
      assert a == [a[0]] + a[1..] && b == [b[0]] + b[1..];
    }
  }

  /** Python's tuple and list order: the first differing element decides; a prefix comes first. */
  predicate SeqLt<T(==)>(a: seq<T>, b: seq<T>, lt: (T, T) -> bool) {
    if a == [] then b != []
    else if b == [] then false
    else if a[0] != b[0] then lt(a[0], b[0])
    else SeqLt(a[1..], b[1..], lt)
  }

  lemma {:induction false} SeqLtIrreflexive<T(!new)>(a: seq<T>, lt: (T, T) -> bool)
    ensures !SeqLt(a, a, lt)
  {
    if a != [] {
      SeqLtIrreflexive(a[1..], lt);
    }
  }

  lemma {:induction false} SeqLtTransitive<T(!new)>(a: seq<T>, b: seq<T>, c: seq<T>, lt: (T, T) -> bool)
    requires StrictTotal(lt) && SeqLt(a, b, lt) && SeqLt(b, c, lt)
    ensures SeqLt(a, c, lt)
  {
    if a != [] && a[0] == b[0] && b[0] == c[0] {
      SeqLtTransitive(a[1..], b[1..], c[1..], lt);
    } else if a != [] && a[0] != b[0] && b[0] != c[0] {
      assert lt(a[0], c[0]) && a[0] != c[0];
    }
  }

  lemma {:induction false} SeqLtTotal<T(!new)>(a: seq<T>, b: seq<T>, lt: (T, T) -> bool)
    requires StrictTotal(lt) && a != b
    ensures SeqLt(a, b, lt) || SeqLt(b, a, lt)
  {
    if a != [] && b != [] && a[0] == b[0] {
      assert a == [a[0]] + a[1..] && b == [b[0]] + b[1..];
      SeqLtTotal(a[1..], b[1..], lt);
    }
  }

  /** The list order over a strict total order is a strict total order. */
  lemma SeqLtStrict<T(!new)>(lt: (T, T) -> bool)
    requires StrictTotal(lt)
    ensures StrictTotal((a: seq<T>, b: seq<T>) => SeqLt(a, b, lt))
  {
    forall a: seq<T> {
      SeqLtIrreflexive(a, lt);
    }
    forall a: seq<T>, b: seq<T>, c: seq<T> | SeqLt(a, b, lt) && SeqLt(b, c, lt) {
      SeqLtTransitive(a, b, c, lt);
    }
    forall a: seq<T>, b: seq<T> | a != b {
      SeqLtTotal(a, b, lt);
    }
  }
}
