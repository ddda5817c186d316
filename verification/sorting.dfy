/**
 * Sorting as the original relies on it (`std::sort`, `std::list::sort`): a
 * permutation of the input that is ordered by a total preorder. Insertion sort
 * is the reference; the ordering lemmas show every sorted permutation is the
 * same one whenever the order is antisymmetric, so the choice of algorithm does
 * not matter for the results.
 */
module Sorting {

  ghost predicate TotalPreorder<T(!new)>(le: (T, T) -> bool) {
    && (forall a, b :: le(a, b) || le(b, a))
    && (forall a, b, c :: le(a, b) && le(b, c) ==> le(a, c))
  }

  ghost predicate Antisymmetric<T(!new)>(le: (T, T) -> bool) {
    forall a, b :: le(a, b) && le(b, a) ==> a == b
  }

  predicate SortedBy<T>(le: (T, T) -> bool, s: seq<T>) {
    forall i, j {:trigger le(s[i], s[j])} | 0 <= i < j < |s| :: le(s[i], s[j])
  }

  /** Inserts `x` before the first element it does not follow. */
  function Insert<T(!new)>(le: (T, T) -> bool, x: T, s: seq<T>): (r: seq<T>)
    requires TotalPreorder(le) && SortedBy(le, s)
    ensures SortedBy(le, r)
    ensures multiset(r) == multiset(s) + multiset{x}
    ensures |r| == |s| + 1
  {
    if |s| == 0 then [x]
    else if le(x, s[0]) then
      assert forall j | 0 <= j < |s| :: le(x, s[j]) by {
        forall j | 0 <= j < |s| ensures le(x, s[j]) {
          if j > 0 { assert le(s[0], s[j]); }
        }
      }
      assert s == [s[0]] + s[1..];
      [x] + s
    else
      var rest := Insert(le, x, s[1..]);
      assert le(s[0], x);
      assert forall k | 0 <= k < |rest| :: le(s[0], rest[k]) by {
        forall k | 0 <= k < |rest| ensures le(s[0], rest[k]) {
          assert rest[k] in multiset(rest);
          if rest[k] != x {
            assert rest[k] in multiset(s[1..]);
            var j :| 0 <= j < |s[1..]| && s[1..][j] == rest[k];
            assert le(s[0], s[j + 1]);
          }
        }
      }
      assert s == [s[0]] + s[1..];
      [s[0]] + rest
  }

  /** Insertion sort: the reference sorted permutation. */
  function Sort<T(!new)>(le: (T, T) -> bool, s: seq<T>): (r: seq<T>)
    requires TotalPreorder(le)
    ensures SortedBy(le, r)
    ensures multiset(r) == multiset(s)
    ensures |r| == |s|
  {
    if |s| == 0 then []
    else
      assert s == [s[0]] + s[1..];
      Insert(le, s[0], Sort(le, s[1..]))
  }

  /** The head of a sorted sequence precedes each of its elements. */
  lemma SortedHeadFirst<T(!new)>(le: (T, T) -> bool, a: seq<T>, x: T)
    requires TotalPreorder(le) && SortedBy(le, a)
    requires x in multiset(a)
    ensures le(a[0], x)
  {
    var j :| 0 <= j < |a| && a[j] == x;
    if j > 0 { assert le(a[0], a[j]); } else { assert le(x, x) || le(x, x); }
  }

  /** Removing the heads of two equal multisets of sequences with equal heads. */
  lemma TailsAgree<T>(a: seq<T>, b: seq<T>)
    requires |a| > 0 && |b| > 0 && a[0] == b[0] && multiset(a) == multiset(b)
    ensures multiset(a[1..]) == multiset(b[1..])
  {
    assert a == [a[0]] + a[1..];
    assert b == [b[0]] + b[1..];
    assert multiset(a[1..]) == multiset(a) - multiset{a[0]};
    assert multiset(b[1..]) == multiset(b) - multiset{b[0]};
  }

  /** Under an antisymmetric order a multiset has exactly one sorted arrangement. */
  lemma {:induction false} SortedUnique<T(!new)>(le: (T, T) -> bool, a: seq<T>, b: seq<T>)
    requires TotalPreorder(le) && Antisymmetric(le)
    requires SortedBy(le, a) && SortedBy(le, b)
    requires multiset(a) == multiset(b)
    ensures a == b
  {
    if |a| == 0 {
      assert |b| == |multiset(b)| == 0;
    } else {
      assert |b| == |multiset(b)| == |a|;
      assert a[0] in multiset(a);
      assert b[0] in multiset(b);
      SortedHeadFirst(le, b, a[0]);
      SortedHeadFirst(le, a, b[0]);
      assert a[0] == b[0];
      TailsAgree(a, b);
      SortedUnique(le, a[1..], b[1..]);
      assert a == [a[0]] + a[1..];
      assert b == [b[0]] + b[1..];
    }
  }

  /** Ascending order of integers. */
  function IntLe(a: int, b: int): bool { a <= b }

  lemma IntLeIsOrder()
    ensures TotalPreorder(IntLe) && Antisymmetric(IntLe)
  {}

  /** Ascending sort of integers (`std::sort`, `std::list::sort`). */
  function SortAsc(s: seq<int>): (r: seq<int>)
    ensures SortedBy(IntLe, r)
    ensures multiset(r) == multiset(s)
    ensures |r| == |s|
  {
    IntLeIsOrder();
    Sort(IntLe, s)
  }

  /** A sorted permutation of the input is the reference sort of it. */
  lemma SortIsUnique<T(!new)>(le: (T, T) -> bool, s: seq<T>, r: seq<T>)
    requires TotalPreorder(le) && Antisymmetric(le)
    requires SortedBy(le, r) && multiset(r) == multiset(s)
    ensures r == Sort(le, s)
  {
    SortedUnique(le, r, Sort(le, s));
  }

  /** Sorting does not depend on the order of the input. */
  lemma SortOrderIndependent<T(!new)>(le: (T, T) -> bool, a: seq<T>, b: seq<T>)
    requires TotalPreorder(le) && Antisymmetric(le)
    requires multiset(a) == multiset(b)
    ensures Sort(le, a) == Sort(le, b)
  {
    SortedUnique(le, Sort(le, a), Sort(le, b));
  }

  /** Equal multisets sort to the same sequence. */
  lemma SortAscUnique(a: seq<int>, b: seq<int>)
    requires multiset(a) == multiset(b)
    ensures SortAsc(a) == SortAsc(b)
  {
    IntLeIsOrder();
    SortedUnique(IntLe, SortAsc(a), SortAsc(b));
  }
}
