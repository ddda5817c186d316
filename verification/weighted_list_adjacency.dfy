/**
 * `ListaAdjacenciaPeso`: one list of `(neighbour id, weight)` pairs per vertex
 * (ids 1-based), filled in input order with both orientations of every edge.
 * The stored lists stay unsorted; `getListaOrdenada` returns a sorted copy.
 * Weights are `double` in the original and `real` here.
 */
module WeightedListAdjacency {
  import opened Edges
  import opened Sorting
  import ListAdjacency

  /** A list entry: neighbour id (1-based) and edge weight. */
  type Entry = (int, real)

  /**
   * Reference definition: the entries vertex `x` receives, in input order;
   * an edge `(x, x, w)` contributes `(x, w)` twice.
   */
  function Incident(es: seq<WeightedEdge>, x: int): seq<Entry> {
    if |es| == 0 then []
    else
      var e := es[|es| - 1];
      Incident(es[..|es| - 1], x)
        + (if e.0 == x then [(e.1, e.2)] else [])
        + (if e.1 == x then [(e.0, e.2)] else [])
  }

  function AddEdge(l: seq<seq<Entry>>, e: WeightedEdge): (r: seq<seq<Entry>>)
    requires 1 <= e.0 <= |l| && 1 <= e.1 <= |l|
    ensures |r| == |l|
    ensures forall i {:trigger r[i]} | 0 <= i < |l| ::
      r[i] == l[i] + (if e.0 == i + 1 then [(e.1, e.2)] else [])
                   + (if e.1 == i + 1 then [(e.0, e.2)] else [])
  {
    var l1 := l[e.0 - 1 := l[e.0 - 1] + [(e.1, e.2)]];
    l1[e.1 - 1 := l1[e.1 - 1] + [(e.0, e.2)]]
  }

  function Empties(n: nat): (l: seq<seq<Entry>>)
    ensures |l| == n && forall i | 0 <= i < n :: l[i] == []
  {
    seq(n, _ => [])
  }

  /** The constructor: list `i` is exactly what the edges give vertex `i+1`, in input order. */
  function Build(n: nat, es: seq<WeightedEdge>): (l: seq<seq<Entry>>)
    requires WeightedEdgesInRange(n, es)
    ensures |l| == n
    ensures forall i | 0 <= i < n :: l[i] == Incident(es, i + 1)
  {
    if |es| == 0 then Empties(n)
    else AddEdge(Build(n, es[..|es| - 1]), es[|es| - 1])
  }

  /** Every entry names a vertex in 1..n. */
  lemma {:induction false} IncidentInRange(n: nat, es: seq<WeightedEdge>, x: int, k: nat)
    requires WeightedEdgesInRange(n, es) && k < |Incident(es, x)|
    ensures 1 <= Incident(es, x)[k].0 <= n
  {
    if |es| > 0 {
      var prev := es[..|es| - 1];
      if k < |Incident(prev, x)| {
        IncidentInRange(n, prev, x, k);
      }
    }
  }

  /**
   * Symmetry with weights: the entries of `u` naming `v` and the entries of
   * `v` naming `u` carry the same weights with the same multiplicity.
   */
  lemma {:induction false} IncidentSymmetric(es: seq<WeightedEdge>, u: int, v: int, w: real)
    ensures multiset(Incident(es, u))[(v, w)] == multiset(Incident(es, v))[(u, w)]
  {
    if |es| > 0 {
      IncidentSymmetric(es[..|es| - 1], u, v, w);
      IncidentLast(es, u);
      IncidentLast(es, v);
      EdgeEntriesSymmetric(es[|es| - 1], u, v, w);
    }
  }

  /** The entries one edge gives vertex `x`. */
  function EdgeEntries(e: WeightedEdge, x: int): seq<Entry> {
    (if e.0 == x then [(e.1, e.2)] else []) + (if e.1 == x then [(e.0, e.2)] else [])
  }

  lemma IncidentLast(es: seq<WeightedEdge>, x: int)
    requires |es| > 0
    ensures multiset(Incident(es, x)) == multiset(Incident(es[..|es| - 1], x)) + multiset(EdgeEntries(es[|es| - 1], x))
  {
    assert Incident(es, x) == Incident(es[..|es| - 1], x) + EdgeEntries(es[|es| - 1], x);
  }

  lemma EdgeEntriesSymmetric(e: WeightedEdge, u: int, v: int, w: real)
    ensures multiset(EdgeEntries(e, u))[(v, w)] == multiset(EdgeEntries(e, v))[(u, w)]
  {
  }

  /** Two entries per edge in total. */
  lemma {:induction false} BuildTotalLength(n: nat, es: seq<WeightedEdge>)
    requires WeightedEdgesInRange(n, es)
    ensures ListAdjacency.TotalLength(Build(n, es)) == 2 * |es|
  {
    if |es| == 0 {
      EmptiesTotal(n);
    } else {
      var e := es[|es| - 1];
      var l0 := Build(n, es[..|es| - 1]);
      BuildTotalLength(n, es[..|es| - 1]);
      AddEdgeTotal(l0, e);
    }
  }

  /** Adding an edge adds two entries. */
  lemma AddEdgeTotal(l: seq<seq<Entry>>, e: WeightedEdge)
    requires 1 <= e.0 <= |l| && 1 <= e.1 <= |l|
    ensures ListAdjacency.TotalLength(AddEdge(l, e)) == ListAdjacency.TotalLength(l) + 2
  {
    var l1 := l[e.0 - 1 := l[e.0 - 1] + [(e.1, e.2)]];
    ListAdjacency.TotalLengthAppend(l, e.0 - 1, (e.1, e.2));
    ListAdjacency.TotalLengthAppend(l1, e.1 - 1, (e.0, e.2));
  }

  lemma {:induction false} EmptiesTotal(n: nat)
    ensures ListAdjacency.TotalLength(Empties(n)) == 0
  {
    if n > 0 {
      assert Empties(n)[1..] == Empties(n - 1);
      EmptiesTotal(n - 1);
    }
  }

  /** `std::pair` ordering: by neighbour id, then by weight. */
  function EntryLe(a: Entry, b: Entry): bool {
    a.0 < b.0 || (a.0 == b.0 && a.1 <= b.1)
  }

  lemma EntryLeIsOrder()
    ensures TotalPreorder(EntryLe) && Antisymmetric(EntryLe)
  {
  }

  /** `getListaOrdenada`: each list sorted by `(id, weight)`, the stored lists untouched. */
  function SortedLists(l: seq<seq<Entry>>): (r: seq<seq<Entry>>)
    ensures |r| == |l|
    ensures forall i | 0 <= i < |l| :: SortedBy(EntryLe, r[i]) && multiset(r[i]) == multiset(l[i])
  {
    EntryLeIsOrder();
    seq(|l|, i requires 0 <= i < |l| => Sort(EntryLe, l[i]))
  }

  /**
   * The sorted copy does not depend on the order the edges came in: any
   * two edge lists giving each vertex the same entries (as multisets) give
   * the same sorted lists.
   */
  lemma SortedListsCanonical(n: nat, es1: seq<WeightedEdge>, es2: seq<WeightedEdge>)
    requires WeightedEdgesInRange(n, es1) && WeightedEdgesInRange(n, es2)
    requires forall x | 1 <= x <= n :: multiset(Incident(es1, x)) == multiset(Incident(es2, x))
    ensures SortedLists(Build(n, es1)) == SortedLists(Build(n, es2))
  {
    var a := SortedLists(Build(n, es1));
    var b := SortedLists(Build(n, es2));
    EntryLeIsOrder();
    forall i | 0 <= i < n ensures a[i] == b[i] {
      SortedUnique(EntryLe, a[i], b[i]);
    }
  }
}
