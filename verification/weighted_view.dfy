/**
 * `IGrafoPeso` through `ListaAdjacenciaPesoAdapter`: the vertex count is the
 * number of lists, `getVizinhosComPeso` shifts the stored 1-based ids to
 * 0-based and keeps order and weights, and `getAresta` reports the weight
 * of the first entry naming the destination.
 */
module WeightedView {
  import opened Edges
  import opened WeightedListAdjacency

  /** Every stored entry names a vertex in 1..n. */
  predicate WellFormedW(l: seq<seq<Entry>>) {
    forall u, k | 0 <= u < |l| && 0 <= k < |l[u]| :: 1 <= l[u][k].0 <= |l|
  }

  /** `getVizinhosComPeso`: the stored list of `v` with ids made 0-based. */
  function NeighborsW(l: seq<seq<Entry>>, v: nat): (r: seq<(int, real)>)
    requires v < |l|
    ensures |r| == |l[v]|
    ensures forall k | 0 <= k < |r| :: r[k].0 + 1 == l[v][k].0 && r[k].1 == l[v][k].1
  {
    Shift(l[v])
  }

  /** Ids made 0-based, weights and order kept. */
  function Shift(es: seq<Entry>): (r: seq<(int, real)>)
    ensures |r| == |es|
    ensures forall k | 0 <= k < |r| :: r[k].0 + 1 == es[k].0 && r[k].1 == es[k].1
  {
    seq(|es|, k requires 0 <= k < |es| => (es[k].0 - 1, es[k].1))
  }

  /** The linear search of `getAresta` over one list. */
  function FindEntry(es: seq<Entry>, id: int): (r: (bool, real))
    ensures r.0 <==> exists k | 0 <= k < |es| :: es[k].0 == id
    ensures r.0 ==> exists k | 0 <= k < |es| :: es[k].0 == id && r.1 == es[k].1
                      && forall j | 0 <= j < k :: es[j].0 != id
    ensures !r.0 ==> r.1 == 0.0
    decreases |es|
  {
    if |es| == 0 then (false, 0.0)
    else if es[0].0 == id then (true, es[0].1)
    else
      var r := FindEntry(es[1..], id);
      assert forall k | 1 <= k < |es| :: es[1..][k - 1] == es[k];
      if r.0 then
        var k :| 0 <= k < |es[1..]| && es[1..][k].0 == id && r.1 == es[1..][k].1
                 && forall j | 0 <= j < k :: es[1..][j].0 != id;
        assert es[k + 1].0 == id && r.1 == es[k + 1].1 && forall j | 0 <= j < k + 1 :: es[j].0 != id;
        r
      else r
  }

  /** `getAresta(origem, destino)` on 0-based ids: `(true, weight)` of the first match, else `(false, 0.0)`. */
  function GetEdge(l: seq<seq<Entry>>, origin: nat, target: int): (bool, real)
    requires origin < |l|
  {
    FindEntry(l[origin], target + 1)
  }

  /** `getAresta` finds an edge exactly when the destination is among the neighbours `getVizinhosComPeso` lists. */
  lemma GetEdgeMatchesNeighbors(l: seq<seq<Entry>>, origin: nat, target: int)
    requires origin < |l|
    ensures GetEdge(l, origin, target).0 <==> exists k | 0 <= k < |l[origin]| :: NeighborsW(l, origin)[k].0 == target
    ensures GetEdge(l, origin, target).0 ==>
      exists k | 0 <= k < |l[origin]| :: NeighborsW(l, origin)[k] == (target, GetEdge(l, origin, target).1)
  {
    var ns := NeighborsW(l, origin);
    if GetEdge(l, origin, target).0 {
      var k :| 0 <= k < |l[origin]| && l[origin][k].0 == target + 1 && GetEdge(l, origin, target).1 == l[origin][k].1
               && forall j | 0 <= j < k :: l[origin][j].0 != target + 1;
      assert ns[k] == (target, GetEdge(l, origin, target).1);
    }
    if exists k | 0 <= k < |l[origin]| :: ns[k].0 == target {
      var k :| 0 <= k < |l[origin]| && ns[k].0 == target;
      assert l[origin][k].0 == target + 1;
    }
  }

  /** How often an entry occurs. */
  function Count<T(==)>(s: seq<T>, x: T): nat {
    multiset(s)[x]
  }

  /** Appending `a` adds one occurrence of `a` and none of anything else. */
  lemma CountLast<T>(s: seq<T>, a: T, x: T)
    ensures Count(s + [a], x) == Count(s, x) + (if a == x then 1 else 0)
  {
    assert multiset(s + [a]) == multiset(s) + multiset{a};
  }

  /** Shifting ids keeps multiplicities: `(x - 1, w)` occurs in the view as often as `(x, w)` is stored. */
  lemma {:induction false} ShiftCount(es: seq<Entry>, x: int, w: real)
    ensures Count(Shift(es), (x - 1, w)) == Count(es, (x, w))
  {
    if |es| > 0 {
      var t, e := es[..|es| - 1], es[|es| - 1];
      ShiftCount(t, x, w);
      assert Shift(es) == Shift(t) + [(e.0 - 1, e.1)];
      assert es == t + [e];
      CountLast(Shift(t), (e.0 - 1, e.1), (x - 1, w));
      CountLast(t, e, (x, w));
    }
  }

  /**
   * The view of a built list is symmetric with weights: `(v, w)` is a
   * neighbour of `u` exactly as often as `(u, w)` is a neighbour of `v`.
   */
  lemma ViewSymmetric(n: nat, es: seq<WeightedEdge>, u: nat, v: nat, w: real)
    requires WeightedEdgesInRange(n, es) && u < n && v < n
    ensures var l := Build(n, es);
      Count(NeighborsW(l, u), (v, w)) == Count(NeighborsW(l, v), (u, w))
  {
    var l := Build(n, es);
    assert l[u] == Incident(es, u + 1) && l[v] == Incident(es, v + 1);
    IncidentViewSymmetric(l, es, u, v, w);
  }

  lemma IncidentViewSymmetric(l: seq<seq<Entry>>, es: seq<WeightedEdge>, u: nat, v: nat, w: real)
    requires u < |l| && v < |l| && l[u] == Incident(es, u + 1) && l[v] == Incident(es, v + 1)
    ensures Count(NeighborsW(l, u), (v, w)) == Count(NeighborsW(l, v), (u, w))
  {
    ShiftCount(l[u], v + 1, w);
    ShiftCount(l[v], u + 1, w);
    IncidentSymmetric(es, u + 1, v + 1, w);
  }

  /** A built list is well formed. */
  lemma BuildWellFormed(n: nat, es: seq<WeightedEdge>)
    requires WeightedEdgesInRange(n, es)
    ensures WellFormedW(Build(n, es))
  {
    IncidentWellFormed(n, es, Build(n, es));
  }

  /** Lists holding each vertex's incident entries name only vertices of the graph. */
  lemma IncidentWellFormed(n: nat, es: seq<WeightedEdge>, l: seq<seq<Entry>>)
    requires WeightedEdgesInRange(n, es) && |l| == n
    requires forall i | 0 <= i < n :: l[i] == Incident(es, i + 1)
    ensures WellFormedW(l)
  {
    forall u: int, k: int | 0 <= u < n && 0 <= k < |l[u]| ensures 1 <= l[u][k].0 <= n {
      IncidentInRange(n, es, u + 1, k);
    }
  }
}
