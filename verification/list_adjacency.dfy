/**
 * `ListaAdjacencia`: one list of 1-based neighbour ids per vertex, built by
 * appending both orientations of every edge and then sorting each list.
 * Duplicated edges and self-loops are kept: a self-loop `(u, u)` puts `u`
 * twice into list `u-1`.
 */
module ListAdjacency {
  import opened Edges
  import opened Sorting

  /** The neighbour ids the edge list contributes to vertex `x`, with multiplicity. */
  function Contrib(es: seq<Edge>, x: int): multiset<int> {
    if |es| == 0 then multiset{}
    else
      var e := es[|es| - 1];
      Contrib(es[..|es| - 1], x)
        + (if e.0 == x then multiset{e.1} else multiset{})
        + (if e.1 == x then multiset{e.0} else multiset{})
  }

  function Empties(n: nat): (l: seq<seq<int>>)
    ensures |l| == n
  {
    seq(n, _ => [])
  }

  /** One edge: `lista[u-1].push_back(v)` then `lista[v-1].push_back(u)`. */
  function AddEdge(l: seq<seq<int>>, e: Edge): (r: seq<seq<int>>)
    requires 1 <= e.0 <= |l| && 1 <= e.1 <= |l|
    ensures |r| == |l|
  {
    var l1 := l[e.0 - 1 := l[e.0 - 1] + [e.1]];
    l1[e.1 - 1 := l1[e.1 - 1] + [e.0]]
  }

  lemma AddEdgeContrib(l: seq<seq<int>>, e: Edge, i: nat)
    requires 1 <= e.0 <= |l| && 1 <= e.1 <= |l| && i < |l|
    ensures multiset(AddEdge(l, e)[i])
      == multiset(l[i])
         + (if e.0 == i + 1 then multiset{e.1} else multiset{})
         + (if e.1 == i + 1 then multiset{e.0} else multiset{})
  {
    var l1 := l[e.0 - 1 := l[e.0 - 1] + [e.1]];
    assert multiset(l1[i]) == multiset(l[i]) + (if e.0 == i + 1 then multiset{e.1} else multiset{});
  }

  /** The lists after the append loop and before the sort. */
  function Unsorted(n: nat, es: seq<Edge>): (l: seq<seq<int>>)
    requires EdgesInRange(n, es)
    ensures |l| == n
    ensures forall i | 0 <= i < n :: multiset(l[i]) == Contrib(es, i + 1)
  {
    if |es| == 0 then Empties(n)
    else
      var prev := es[..|es| - 1];
      var e := es[|es| - 1];
      var l0 := Unsorted(n, prev);
      var l := AddEdge(l0, e);
      forall i | 0 <= i < n ensures multiset(l[i]) == Contrib(es, i + 1) {
        AddEdgeContrib(l0, e, i);
        assert es == prev + [e];
      }
      l
  }

  /**
   * The constructor: n lists, each sorted ascending, holding exactly the
   * neighbour ids the edges contribute to that vertex.
   */
  function Build(n: nat, es: seq<Edge>): (l: seq<seq<int>>)
    requires EdgesInRange(n, es)
    ensures |l| == n
    ensures forall i | 0 <= i < n :: SortedBy(IntLe, l[i])
    ensures forall i | 0 <= i < n :: multiset(l[i]) == Contrib(es, i + 1)
  {
    var u := Unsorted(n, es);
    seq(n, i requires 0 <= i < n => SortAsc(u[i]))
  }

  /** An id is stored in list `u` exactly when the edges contribute it to vertex `u+1`. */
  lemma BuildMembership(n: nat, es: seq<Edge>, u: nat, x: int)
    requires EdgesInRange(n, es) && u < n
    ensures x in Build(n, es)[u] <==> x in Contrib(es, u + 1)
  {
    var l := Build(n, es);
    assert multiset(l[u]) == Contrib(es, u + 1);
  }

  /** Every contributed id is a vertex id in 1..n. */
  lemma {:induction false} ContribInRange(n: nat, es: seq<Edge>, x: int, y: int)
    requires EdgesInRange(n, es) && y in Contrib(es, x)
    ensures 1 <= y <= n
  {
    if |es| > 0 {
      var e := es[|es| - 1];
      if y in Contrib(es[..|es| - 1], x) {
        ContribInRange(n, es[..|es| - 1], x, y);
      } else {
        assert y == e.0 || y == e.1;
      }
    }
  }

  /** Every stored id lies in 1..n. */
  lemma BuildInRange(n: nat, es: seq<Edge>, i: nat, k: nat)
    requires EdgesInRange(n, es) && i < n && k < |Build(n, es)[i]|
    ensures 1 <= Build(n, es)[i][k] <= n
  {
    var l := Build(n, es);
    assert l[i][k] in multiset(l[i]);
    ContribInRange(n, es, i + 1, l[i][k]);
  }

  /**
   * For vertices u and w, w occurs in u's list exactly as often as u occurs
   * in w's list.
   */
  lemma {:induction false} ContribSymmetric(es: seq<Edge>, u: int, w: int)
    ensures Contrib(es, u)[w] == Contrib(es, w)[u]
  {
    if |es| > 0 {
      ContribSymmetric(es[..|es| - 1], u, w);
    }
  }

  /** The number of times `w` occurs in the list of `u` equals the reverse count. */
  lemma BuildCountSymmetric(n: nat, es: seq<Edge>, u: int, w: int)
    requires EdgesInRange(n, es) && 1 <= u <= n && 1 <= w <= n
    ensures multiset(Build(n, es)[u - 1])[w] == multiset(Build(n, es)[w - 1])[u]
  {
    ContribSymmetric(es, u, w);
  }

  /** Sum of the list lengths. */
  function TotalLength<T>(l: seq<seq<T>>): nat {
    if |l| == 0 then 0 else |l[0]| + TotalLength(l[1..])
  }

  lemma {:induction false} TotalLengthAppend<T>(l: seq<seq<T>>, i: nat, x: T)
    requires i < |l|
    ensures TotalLength(l[i := l[i] + [x]]) == TotalLength(l) + 1
  {
    if i > 0 {
      assert l[i := l[i] + [x]][1..] == l[1..][i - 1 := l[i] + [x]];
      TotalLengthAppend(l[1..], i - 1, x);
    } else {
      assert l[i := l[i] + [x]][1..] == l[1..];
    }
  }

  lemma {:induction false} TotalLengthSameShape<T, U>(a: seq<seq<T>>, b: seq<seq<U>>)
    requires |a| == |b| && forall i | 0 <= i < |a| :: |a[i]| == |b[i]|
    ensures TotalLength(a) == TotalLength(b)
  {
    if |a| > 0 {
      TotalLengthSameShape(a[1..], b[1..]);
    }
  }

  lemma {:induction false} UnsortedTotal(n: nat, es: seq<Edge>)
    requires EdgesInRange(n, es)
    ensures TotalLength(Unsorted(n, es)) == 2 * |es|
  {
    if |es| == 0 {
      ZeroTotal(n);
    } else {
      var prev := es[..|es| - 1];
      var e := es[|es| - 1];
      var l0 := Unsorted(n, prev);
      UnsortedTotal(n, prev);
      var l1 := l0[e.0 - 1 := l0[e.0 - 1] + [e.1]];
      TotalLengthAppend(l0, e.0 - 1, e.1);
      TotalLengthAppend(l1, e.1 - 1, e.0);
    }
  }

  lemma {:induction false} ZeroTotal(n: nat)
    ensures TotalLength(Empties(n)) == 0
  {
    if n > 0 {
      assert Empties(n)[1..] == Empties(n - 1);
      ZeroTotal(n - 1);
    }
  }

  /**
   * The lists hold 2 entries per input edge in total: duplicates and
   * self-loops are not removed.
   */
  lemma BuildTotalLength(n: nat, es: seq<Edge>)
    requires EdgesInRange(n, es)
    ensures TotalLength(Build(n, es)) == 2 * |es|
  {
    UnsortedTotal(n, es);
    TotalLengthSameShape(Build(n, es), Unsorted(n, es));
  }
}
