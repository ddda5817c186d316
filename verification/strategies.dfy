/**
 * The `IDijkstraStrategy` interface and its two implementations, which the
 * Dijkstra functions do not use. The interface is a tagged union: one
 * constructor per implementation, with the five operations dispatching on
 * it. Vertices are 0-based; distances are `Dist` values, infinity included,
 * since callers may store any `double`.
 *
 * `DijkstraVetorStrategy` keeps distances and visited marks and extracts by
 * a linear scan. `DijkstraHeapStrategy` keeps distances and a min-queue of
 * (distance, vertex) entries, and extracts by popping until an entry
 * carries its vertex's current distance.
 */
module DijkstraStrategies {
  import opened Sorting
  import opened Dijkstra
  import opened DijkstraProof

  /** A queue entry `(distance, vertex)`. */
  type QItem = (Dist, int)

  /** The order of `pair<double, int>` that the `greater<>` min-queue pops by. */
  predicate QLe(a: QItem, b: QItem) {
    Below(a.0, b.0) || (a.0 == b.0 && a.1 <= b.1)
  }

  lemma QLeIsOrder()
    ensures TotalPreorder(QLe) && Antisymmetric(QLe)
  {
  }

  datatype Kind = VectorKind | HeapKind

  datatype Strategy =
    | VectorStrategy(dist: seq<Dist>, visited: seq<bool>)
    | HeapStrategy(dist: seq<Dist>, pq: seq<QItem>)

  /** The vertex count `n` the strategy was initialised with. */
  function Size(s: Strategy): nat {
    |s.dist|
  }

  /** Marks for every vertex; a queue ordered as the min-queue pops it, naming vertices only. */
  predicate Valid(s: Strategy) {
    match s
    case VectorStrategy(dist, visited) => |visited| == |dist|
    case HeapStrategy(dist, pq) => SortedBy(QLe, pq) && forall k | 0 <= k < |pq| :: 0 <= pq[k].1 < |dist|
  }

  /** `inicializar(n)`: every distance infinite, nothing visited, an empty queue. */
  function Initialize(k: Kind, n: nat): (s: Strategy)
    ensures Valid(s) && Size(s) == n && (k == VectorKind <==> s.VectorStrategy?)
    ensures forall v | 0 <= v < n :: s.dist[v] == Inf
    ensures s.VectorStrategy? ==> forall v | 0 <= v < n :: !s.visited[v]
    ensures s.HeapStrategy? ==> s.pq == []
    ensures IsEmpty(s) && ExtractMin(s) == (s, -1)
  {
    match k
    case VectorKind => VectorStrategy(seq(n, _ => Inf), seq(n, _ => false))
    case HeapKind => HeapStrategy(seq(n, _ => Inf), [])
  }

  /** `inserirOuAtualizar(v, d)`: `d` becomes `v`'s distance; the heap also queues `(d, v)`. */
  function InsertOrUpdate(s: Strategy, v: int, d: Dist): (r: Strategy)
    requires Valid(s) && 0 <= v < Size(s)
    ensures Valid(r) && r.VectorStrategy? == s.VectorStrategy? && r.dist == s.dist[v := d]
    ensures s.VectorStrategy? ==> r.visited == s.visited
    ensures s.HeapStrategy? ==> multiset(r.pq) == multiset(s.pq) + multiset{(d, v)}
  {
    match s
    case VectorStrategy(dist, visited) => VectorStrategy(dist[v := d], visited)
    case HeapStrategy(dist, pq) =>
      QLeIsOrder();
      var q := Insert(QLe, (d, v), pq);
      assert forall k | 0 <= k < |q| :: 0 <= q[k].1 < |dist| by {
        forall k | 0 <= k < |q| ensures 0 <= q[k].1 < |dist| {
          assert q[k] in multiset(q);
          if q[k] != (d, v) {
            assert q[k] in multiset(pq);
          }
        }
      }
      HeapStrategy(dist[v := d], q)
  }

  /** `marcarVisitado(v)`: the vector marks `v`; the heap ignores the call. */
  function MarkVisited(s: Strategy, v: int): (r: Strategy)
    requires Valid(s) && 0 <= v < Size(s)
    ensures Valid(r) && r.VectorStrategy? == s.VectorStrategy? && r.dist == s.dist
    ensures s.VectorStrategy? ==> r.visited == s.visited[v := true]
    ensures s.HeapStrategy? ==> r == s
  {
    match s
    case VectorStrategy(dist, visited) => VectorStrategy(dist, visited[v := true])
    case HeapStrategy(_, _) => s
  }

  // ---------------------------------------------------------------------
  // The vector scan
  // ---------------------------------------------------------------------

  /** Some unvisited vertex below `v` has a finite distance. */
  predicate FiniteUnvisitedBelow(dist: seq<Dist>, visited: seq<bool>, v: nat)
    requires |visited| == |dist| && v <= |dist|
  {
    exists x | 0 <= x < v :: !visited[x] && dist[x].Fin?
  }

  /**
   * After scanning the vertices below `v`: -1 if none of them is unvisited
   * and finite, else the first unvisited one of least distance, which is finite.
   */
  predicate ScannedSoFar(dist: seq<Dist>, visited: seq<bool>, u: int, v: nat)
    requires |visited| == |dist| && v <= |dist|
  {
    if !FiniteUnvisitedBelow(dist, visited, v) then u == -1
    else
      && 0 <= u < v && !visited[u] && dist[u].Fin?
      && (forall x | 0 <= x < v && !visited[x] :: AtMost(dist[u], dist[x]))
      && (forall x | 0 <= x < u && !visited[x] :: Below(dist[u], dist[x]))
  }

  /** The scan loop from `v` on; the running minimum is `u`'s distance, or infinity while `u` is -1. */
  function ScanFrom(dist: seq<Dist>, visited: seq<bool>, v: nat, u: int): (r: int)
    requires |visited| == |dist| && v <= |dist| && ScannedSoFar(dist, visited, u, v)
    ensures ScannedSoFar(dist, visited, r, |dist|)
    decreases |dist| - v
  {
    if v == |dist| then u
    else
      var best := if u == -1 then Inf else dist[u];
      var u' := if !visited[v] && Below(dist[v], best) then v else u;
      assert ScannedSoFar(dist, visited, u', v + 1) by {
        if !visited[v] && dist[v].Fin? {
          assert FiniteUnvisitedBelow(dist, visited, v + 1);
        }
        if FiniteUnvisitedBelow(dist, visited, v) {
          var x :| 0 <= x < v && !visited[x] && dist[x].Fin?;
          assert FiniteUnvisitedBelow(dist, visited, v + 1);
        } else if FiniteUnvisitedBelow(dist, visited, v + 1) {
          var x :| 0 <= x < v + 1 && !visited[x] && dist[x].Fin?;
          assert x == v;
        }
      }
      ScanFrom(dist, visited, v + 1, u')
  }

  /** The vector's `vazio` loop from `v` on: no unvisited finite vertex remains. */
  function NoneLeftFrom(dist: seq<Dist>, visited: seq<bool>, v: nat): (b: bool)
    requires |visited| == |dist| && v <= |dist|
    ensures b <==> forall x | v <= x < |dist| :: visited[x] || dist[x].Inf?
    decreases |dist| - v
  {
    if v == |dist| then true
    else if !visited[v] && dist[v].Fin? then false
    else NoneLeftFrom(dist, visited, v + 1)
  }

  // ---------------------------------------------------------------------
  // The heap pop loop
  // ---------------------------------------------------------------------

  /** An entry whose distance is no longer its vertex's current one. */
  predicate Stale(dist: seq<Dist>, it: QItem)
    requires 0 <= it.1 < |dist|
  {
    it.0 != dist[it.1]
  }

  /** The queue after popping stale entries and then one live entry, and that entry's vertex, or -1 if none is live. */
  function PopLive(dist: seq<Dist>, pq: seq<QItem>): (r: (seq<QItem>, int))
    requires forall k | 0 <= k < |pq| :: 0 <= pq[k].1 < |dist|
    ensures r.1 == -1 ==> r.0 == [] && forall k | 0 <= k < |pq| :: Stale(dist, pq[k])
    ensures r.1 != -1 ==>
      exists k | 0 <= k < |pq| :: PoppedAt(dist, pq, k, r.1) && r.0 == pq[k + 1..]
    decreases |pq|
  {
    if |pq| == 0 then ([], -1)
    else if pq[0].0 == dist[pq[0].1] then
      assert PoppedAt(dist, pq, 0, pq[0].1);
      (pq[1..], pq[0].1)
    else
      var r := PopLive(dist, pq[1..]);
      if r.1 != -1 then
        var k :| 0 <= k < |pq[1..]| && PoppedAt(dist, pq[1..], k, r.1) && r.0 == pq[1..][k + 1..];
        assert PoppedAt(dist, pq, k + 1, r.1) by {
          forall j | 0 <= j < k + 1 ensures Stale(dist, pq[j]) {
            if j > 0 {
              assert pq[j] == pq[1..][j - 1];
            }
          }
        }
        assert pq[k + 2..] == pq[1..][k + 1..];
        r
      else
        assert forall k | 1 <= k < |pq| :: pq[k] == pq[1..][k - 1];
        r
  }

  /** Entry `k` is the first live one, it names `u`, and every entry before it is stale. */
  predicate PoppedAt(dist: seq<Dist>, pq: seq<QItem>, k: nat, u: int)
    requires forall j | 0 <= j < |pq| :: 0 <= pq[j].1 < |dist|
  {
    && k < |pq| && pq[k].1 == u && pq[k].0 == dist[u]
    && forall j | 0 <= j < k :: Stale(dist, pq[j])
  }

  // ---------------------------------------------------------------------
  // The remaining interface operations
  // ---------------------------------------------------------------------

  /** `extrairMinimo`: the new state and the 0-based vertex returned, or -1. */
  function ExtractMin(s: Strategy): (r: (Strategy, int))
    requires Valid(s)
    ensures Valid(r.0) && r.0.VectorStrategy? == s.VectorStrategy? && r.0.dist == s.dist
    ensures -1 <= r.1 < Size(s)
  {
    match s
    case VectorStrategy(dist, visited) =>
      var u := ScanFrom(dist, visited, 0, -1);
      if u != -1 then (VectorStrategy(dist, visited[u := true]), u) else (s, -1)
    case HeapStrategy(dist, pq) =>
      var p := PopLive(dist, pq);
      var q, u := p.0, p.1;
      assert SortedBy(QLe, q) && forall j | 0 <= j < |q| :: 0 <= q[j].1 < |dist| by {
        if u != -1 {
          var k :| 0 <= k < |pq| && PoppedAt(dist, pq, k, u) && q == pq[k + 1..];
          assert forall j | 0 <= j < |q| :: q[j] == pq[k + 1 + j];
        }
      }
      (HeapStrategy(dist, q), u)
  }

  /** `vazio`: the vector checks for an unvisited finite vertex, the heap only for an empty queue. */
  function IsEmpty(s: Strategy): (b: bool)
    requires Valid(s)
    ensures s.HeapStrategy? ==> (b <==> s.pq == [])
  {
    match s
    case VectorStrategy(dist, visited) => NoneLeftFrom(dist, visited, 0)
    case HeapStrategy(_, pq) => |pq| == 0
  }

  // ---------------------------------------------------------------------
  // What the operations guarantee
  // ---------------------------------------------------------------------

  /**
   * The vector's `extrairMinimo` returns the unvisited vertex of least finite
   * distance, the smallest index among ties, and marks it visited; it returns
   * -1, changing nothing, exactly when no unvisited vertex is finite.
   */
  lemma VectorExtract(s: Strategy)
    requires Valid(s) && s.VectorStrategy?
    ensures var (r, u) := ExtractMin(s);
      && (u == -1 <==> forall x | 0 <= x < Size(s) :: s.visited[x] || s.dist[x].Inf?)
      && (u == -1 ==> r == s)
      && (u != -1 ==>
            && 0 <= u < Size(s) && !s.visited[u] && s.dist[u].Fin?
            && (forall x | 0 <= x < Size(s) && !s.visited[x] :: AtMost(s.dist[u], s.dist[x]))
            && (forall x | 0 <= x < u && !s.visited[x] :: Below(s.dist[u], s.dist[x]))
            && r == s.(visited := s.visited[u := true]))
  {
    var u := ScanFrom(s.dist, s.visited, 0, -1);
    if u == -1 {
      assert !FiniteUnvisitedBelow(s.dist, s.visited, |s.dist|);
    }
  }

  /** The vector's `vazio` holds exactly when `extrairMinimo` would return -1. */
  lemma VectorEmptyIffNone(s: Strategy)
    requires Valid(s) && s.VectorStrategy?
    ensures IsEmpty(s) <==> ExtractMin(s).1 == -1
  {
    VectorExtract(s);
  }

  /**
   * The heap's `extrairMinimo` pops stale entries and then one entry that
   * carries its vertex's current distance, returning that vertex; that
   * distance is at most every entry left. It returns -1 only after emptying
   * a queue of stale entries.
   */
  lemma HeapExtract(s: Strategy)
    requires Valid(s) && s.HeapStrategy?
    ensures var r, u := ExtractMin(s).0, ExtractMin(s).1;
      && (u == -1 ==> r.pq == [] && forall k | 0 <= k < |s.pq| :: Stale(s.dist, s.pq[k]))
      && (u != -1 ==>
            && (exists k | 0 <= k < |s.pq| :: PoppedAt(s.dist, s.pq, k, u) && r.pq == s.pq[k + 1..])
            && forall it | it in r.pq :: AtMost(s.dist[u], it.0))
  {
    var p := PopLive(s.dist, s.pq);
    assert ExtractMin(s) == (HeapStrategy(s.dist, p.0), p.1);
    PopLiveLeast(s.dist, s.pq);
  }

  /** The vertex popped live is at most every entry left behind it. */
  lemma PopLiveLeast(dist: seq<Dist>, pq: seq<QItem>)
    requires SortedBy(QLe, pq) && forall k | 0 <= k < |pq| :: 0 <= pq[k].1 < |dist|
    ensures var p := PopLive(dist, pq);
      p.1 != -1 ==> forall it | it in p.0 :: AtMost(dist[p.1], it.0)
  {
    var p := PopLive(dist, pq);
    if p.1 != -1 {
      var k :| 0 <= k < |pq| && PoppedAt(dist, pq, k, p.1) && p.0 == pq[k + 1..];
      TailAtLeast(pq, k);
    }
  }

  /** In an ordered queue every entry behind position `k` is at least `pq[k]`'s distance. */
  lemma TailAtLeast(pq: seq<QItem>, k: nat)
    requires SortedBy(QLe, pq) && k < |pq|
    ensures forall it | it in pq[k + 1..] :: AtMost(pq[k].0, it.0)
  {
    forall it | it in pq[k + 1..] ensures AtMost(pq[k].0, it.0) {
      var j :| 0 <= j < |pq[k + 1..]| && pq[k + 1..][j] == it;
      assert QLe(pq[k], pq[k + 1 + j]);
    }
  }

  /** The heap's `vazio` can be false while `extrairMinimo` finds only a stale entry. */
  lemma HeapEmptyOnlyQueue()
    ensures var s := HeapStrategy([Fin(1.0)], [(Fin(2.0), 0)]);
      Valid(s) && !IsEmpty(s) && ExtractMin(s).1 == -1
  {
    var s := HeapStrategy([Fin(1.0)], [(Fin(2.0), 0)]);
    assert PopLive(s.dist, s.pq[1..]) == ([], -1);
  }

  /** An operation of the interface, with its argument. */
  datatype Op = InsertOp(v: int, d: Dist) | ExtractOp | MarkOp(v: int)

  predicate OpOK(n: nat, op: Op) {
    !op.ExtractOp? ==> 0 <= op.v < n
  }

  /** One operation: the new state and what it returned (-1 for the void ones). */
  function Apply(s: Strategy, op: Op): (r: (Strategy, int))
    requires Valid(s) && OpOK(Size(s), op)
    ensures Valid(r.0) && Size(r.0) == Size(s) && r.0.VectorStrategy? == s.VectorStrategy?
  {
    match op
    case InsertOp(v, d) => (InsertOrUpdate(s, v, d), -1)
    case ExtractOp => ExtractMin(s)
    case MarkOp(v) => (MarkVisited(s, v), -1)
  }

  /** What each operation of a run returned. */
  function Returns(s: Strategy, ops: seq<Op>): (rs: seq<int>)
    requires Valid(s) && forall i | 0 <= i < |ops| :: OpOK(Size(s), ops[i])
    ensures |rs| == |ops|
    decreases |ops|
  {
    if |ops| == 0 then []
    else
      var (s', u) := Apply(s, ops[0]);
      [u] + Returns(s', ops[1..])
  }

  /** A visited vertex stays visited and is never returned by the rest of a run. */
  lemma {:induction false} VisitedNeverReturned(s: Strategy, ops: seq<Op>, v: int)
    requires Valid(s) && s.VectorStrategy? && forall i | 0 <= i < |ops| :: OpOK(Size(s), ops[i])
    requires 0 <= v < Size(s) && s.visited[v]
    ensures v !in Returns(s, ops)
    decreases |ops|
  {
    if |ops| > 0 {
      var (s', u) := Apply(s, ops[0]);
      if ops[0].ExtractOp? {
        VectorExtract(s);
      }
      VisitedNeverReturned(s', ops[1..], v);
    }
  }

  /**
   * The vector strategy never returns a vertex twice, nor one passed to
   * `marcarVisitado` earlier in the run.
   */
  lemma {:induction false} VectorReturnsOnce(s: Strategy, ops: seq<Op>)
    requires Valid(s) && s.VectorStrategy? && forall i | 0 <= i < |ops| :: OpOK(Size(s), ops[i])
    ensures forall i, j | 0 <= i < j < |ops| && Returns(s, ops)[i] != -1 :: Returns(s, ops)[i] != Returns(s, ops)[j]
    ensures forall i, j | 0 <= i < j < |ops| && ops[i].MarkOp? :: Returns(s, ops)[j] != ops[i].v
    decreases |ops|
  {
    if |ops| > 0 {
      var (s', u) := Apply(s, ops[0]);
      var rs := Returns(s, ops);
      var rest := Returns(s', ops[1..]);
      assert rs == [u] + rest;
      VectorReturnsOnce(s', ops[1..]);
      if ops[0].ExtractOp? {
        VectorExtract(s);
        if u != -1 {
          VisitedNeverReturned(s', ops[1..], u);
        }
      }
      if ops[0].MarkOp? {
        VisitedNeverReturned(s', ops[1..], ops[0].v);
      }
      forall i, j | 0 <= i < j < |ops| && rs[i] != -1 ensures rs[i] != rs[j] {
        assert rs[j] == rest[j - 1];
        if i > 0 {
          assert rs[i] == rest[i - 1];
        } else {
          assert rest[j - 1] in rest;
        }
      }
      forall i, j | 0 <= i < j < |ops| && ops[i].MarkOp? ensures rs[j] != ops[i].v {
        assert rs[j] == rest[j - 1];
        if i > 0 {
          assert ops[i] == ops[1..][i - 1];
        } else {
          assert rest[j - 1] in rest;
        }
      }
    }
  }
}
