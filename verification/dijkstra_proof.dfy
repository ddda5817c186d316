/**
 * What both Dijkstra versions end with, and what follows from it. A
 * distance vector is sound when the origin is at 0, every finite value is
 * the cost of some walk, and no entry of a finite vertex could still
 * improve its target; sound vectors are exactly the shortest costs, with
 * infinity for the unreachable. A predecessor tree gives each finite
 * vertex other than the origin an entry from a vertex of smaller rank that
 * accounts for its distance; following it back is what `obterCaminho` does.
 */
module DijkstraProof {
  import opened Common
  import opened Paths
  import opened WeightedListAdjacency
  import opened WeightedView
  import opened WeightedPaths
  import opened Dijkstra

  /** `a` is not above `b`. */
  predicate AtMost(a: Dist, b: Dist) {
    !Below(b, a)
  }

  /** No entry of `x` leads to a vertex farther than through `x`. */
  ghost predicate Relaxed(l: seq<seq<Entry>>, dist: seq<Dist>, x: nat)
    requires |dist| == |l| && x < |l|
  {
    forall k | 0 <= k < |l[x]| ::
      0 <= l[x][k].0 - 1 < |l| && AtMost(dist[l[x][k].0 - 1], Add(dist[x], l[x][k].1))
  }

  /** The final state of a Dijkstra run from the 0-based `s`. */
  ghost predicate Sound(l: seq<seq<Entry>>, s: nat, dist: seq<Dist>) {
    && |dist| == |l| && s < |l| && dist[s] == Fin(0.0)
    && (forall x | 0 <= x < |l| && dist[x].Fin? :: Achievable(l, s, x, dist[x].r))
    && (forall x | 0 <= x < |l| && dist[x].Fin? :: Relaxed(l, dist, x))
  }

  /** Every walk from `s` costs at least the sound distance of its end. */
  lemma {:induction false} WalkBound(l: seq<seq<Entry>>, s: nat, dist: seq<Dist>, t: int, p: seq<int>, ws: seq<real>)
    requires Sound(l, s, dist) && WalkFrom(l, s, t, p, ws)
    ensures AtMost(dist[t], Fin(Cost(ws)))
    decreases |p|
  {
    if |p| == 1 {
      assert ws == [];
    } else {
      var b := p[|p| - 2];
      var w := ws[|ws| - 1];
      WalkDropLast(l, s, t, p, ws);
      WalkBound(l, s, dist, b, p[..|p| - 1], ws[..|ws| - 1]);
      var k :| 0 <= k < |l[b]| && l[b][k] == (t + 1, w);
      assert Relaxed(l, dist, b);
    }
  }

  /** Sound distances are the shortest costs, and infinity marks exactly the unreachable vertices. */
  lemma SoundMeaning(l: seq<seq<Entry>>, s: nat, dist: seq<Dist>, t: int)
    requires Sound(l, s, dist) && 0 <= t < |l|
    ensures dist[t].Fin? ==> ShortestCost(l, s, t, dist[t].r)
    ensures dist[t].Inf? <==> !WReachable(l, s, t)
  {
    forall p, ws | WalkFrom(l, s, t, p, ws) ensures dist[t].Fin? && dist[t].r <= Cost(ws) {
      WalkBound(l, s, dist, t, p, ws);
    }
    if dist[t].Fin? {
      var p, ws :| WalkFrom(l, s, t, p, ws) && Cost(ws) == dist[t].r;
    }
  }

  /** Two sound vectors for the same origin are equal. */
  lemma SoundUnique(l: seq<seq<Entry>>, s: nat, d1: seq<Dist>, d2: seq<Dist>)
    requires Sound(l, s, d1) && Sound(l, s, d2)
    ensures d1 == d2
  {
    forall t | 0 <= t < |l| ensures d1[t] == d2[t] {
      SoundMeaning(l, s, d1, t);
      SoundMeaning(l, s, d2, t);
      if d1[t].Fin? && d2[t].Fin? {
        ShortestUnique(l, s, t, d1[t].r, d2[t].r);
      }
    }
  }

  /**
   * `v`'s predecessor: a finite vertex of smaller rank with an entry naming
   * `v` whose weight added to its distance gives `v`'s distance.
   */
  ghost predicate PredEdge(l: seq<seq<Entry>>, dist: seq<Dist>, pred: seq<int>, rank: seq<nat>, v: nat)
    requires |dist| == |l| && |pred| == |l| && |rank| == |l| && v < |l|
  {
    && 1 <= pred[v] <= |l|
    && dist[pred[v] - 1].Fin? && rank[pred[v] - 1] < rank[v]
    && Accounts(l, dist, pred[v] - 1, v)
  }

  /** Some entry of `u` names `v` with a weight that, added to `u`'s distance, gives `v`'s. */
  ghost predicate Accounts(l: seq<seq<Entry>>, dist: seq<Dist>, u: nat, v: nat)
    requires |dist| == |l| && u < |l| && v < |l|
  {
    exists k | 0 <= k < |l[u]| :: l[u][k].0 == v + 1 && dist[v] == Add(dist[u], l[u][k].1)
  }

  /** The predecessors of a run from the 0-based `s`, ranked by the order vertices were finalised. */
  ghost predicate PredTree(l: seq<seq<Entry>>, s: nat, dist: seq<Dist>, pred: seq<int>, rank: seq<nat>) {
    && |dist| == |l| && |pred| == |l| && |rank| == |l| && s < |l|
    && pred[s] == -1 && dist[s] == Fin(0.0)
    && (forall v | 0 <= v < |l| :: pred[v] == -1 || 1 <= pred[v] <= |l|)
    && (forall v | 0 <= v < |l| && dist[v].Fin? :: rank[v] < |l|)
    && (forall v {:trigger PredEdge(l, dist, pred, rank, v)} | 0 <= v < |l| && dist[v].Fin? && v != s :: PredEdge(l, dist, pred, rank, v))
  }

  /** The origin has no predecessor; every predecessor is -1 or an id. */
  predicate PredShape(pred: seq<int>, s: nat) {
    && s < |pred| && pred[s] == -1
    && forall v | 0 <= v < |pred| :: pred[v] == -1 || 1 <= pred[v] <= |pred|
  }

  /** Finalised vertices are ranked below their count, the others at n. */
  ghost predicate RankOK(visited: seq<bool>, rank: seq<nat>) {
    && |visited| == |rank|
    && (forall v | 0 <= v < |rank| && visited[v] :: rank[v] < CountTrue(visited))
    && (forall v | 0 <= v < |rank| && !visited[v] :: rank[v] == |rank|)
  }

  ghost predicate PredEdges(l: seq<seq<Entry>>, s: nat, dist: seq<Dist>, pred: seq<int>, rank: seq<nat>)
    requires |dist| == |l| && |pred| == |l| && |rank| == |l|
  {
    forall v {:trigger PredEdge(l, dist, pred, rank, v)} | 0 <= v < |l| && dist[v].Fin? && v != s :: PredEdge(l, dist, pred, rank, v)
  }

  /** 0-based vertices from 1-based ids. */
  function ToVertices(p: seq<int>): (q: seq<int>)
    ensures |q| == |p| && forall k | 0 <= k < |p| :: q[k] + 1 == p[k]
  {
    seq(|p|, k requires 0 <= k < |p| => p[k] - 1)
  }

  /** `p` lists the 0-based vertices of the 1-based chain `c` in reverse. */
  predicate Backwards(p: seq<int>, c: seq<int>) {
    |p| == |c| && forall k | 0 <= k < |p| :: p[k] + 1 == c[|c| - 1 - k]
  }

  lemma BackwardsSnoc(p: seq<int>, c: seq<int>, x: int)
    requires Backwards(p, c)
    ensures Backwards(p + [x - 1], [x] + c)
  {
    var p', c' := p + [x - 1], [x] + c;
    forall k | 0 <= k < |p'| ensures p'[k] + 1 == c'[|c'| - 1 - k] {
      if k < |p| {
        assert p'[k] == p[k] && c'[|c'| - 1 - k] == c[|c| - 1 - k];
      }
    }
  }

  lemma BackwardsIs(p: seq<int>, c: seq<int>)
    requires Backwards(p, c)
    ensures p == ToVertices(Reverse(c))
  {
  }

  /** Following predecessors from a finite `v` reaches the origin along a walk costing `v`'s distance. */
  lemma {:induction false} ChainWalk(l: seq<seq<Entry>>, s: nat, dist: seq<Dist>, pred: seq<int>, rank: seq<nat>,
                                     res: DijkstraResult, v: nat, fuel: nat)
    returns (p: seq<int>, ws: seq<real>)
    requires PredTree(l, s, dist, pred, rank) && res == DijkstraResult(dist, pred, s + 1)
    requires v < |l| && dist[v].Fin? && fuel > rank[v]
    ensures ResultShape(res) && Backwards(p, Chain(res, v + 1, fuel))
    ensures WalkFrom(l, s, v, p, ws) && Cost(ws) == dist[v].r
    decreases rank[v]
  {
    if v == s {
      ChainAtRoot(l, res, s, fuel);
      p, ws := [s], [];
    } else {
      assert PredEdge(l, dist, pred, rank, v);
      var u, e := ChainBack(l, s, dist, pred, rank, v, fuel);
      var p', ws' := ChainWalk(l, s, dist, pred, rank, res, u, fuel - 1);
      WalkSnoc(l, s, u, v, e.1, p', ws');
      BackwardsSnoc(p', Chain(res, u + 1, fuel - 1), v + 1);
      p, ws := p' + [v], ws' + [e.1];
    }
  }

  /** The chain from the origin is the origin alone, a walk of no steps. */
  lemma ChainAtRoot(l: seq<seq<Entry>>, res: DijkstraResult, s: nat, fuel: nat)
    requires ResultShape(res) && s < |l| && s < |res.pred| && res.origin == s + 1 && fuel > 0
    ensures Backwards([s], Chain(res, s + 1, fuel))
    ensures WalkFrom(l, s, s, [s], []) && Cost([]) == 0.0
  {
    assert Chain(res, s + 1, fuel) == [s + 1];
    WalkRefl(l, s);
  }

  /** One step back along the predecessors of a finite `v` other than the origin. */
  lemma ChainBack(l: seq<seq<Entry>>, s: nat, dist: seq<Dist>, pred: seq<int>, rank: seq<nat>, v: nat, fuel: nat)
    returns (u: nat, e: Entry)
    requires |dist| == |l| && |pred| == |l| && |rank| == |l| && s < |l| && ResultShape(DijkstraResult(dist, pred, s + 1))
    requires v < |l| && v != s && fuel > rank[v] && PredEdge(l, dist, pred, rank, v)
    ensures u < |l| && u + 1 == pred[v] && dist[u].Fin? && fuel - 1 > rank[u]
    ensures e in l[u] && e.0 == v + 1 && dist[v].r == dist[u].r + e.1
    ensures var res := DijkstraResult(dist, pred, s + 1);
      Chain(res, v + 1, fuel) == [v + 1] + Chain(res, u + 1, fuel - 1)
  {
    u := pred[v] - 1;
    assert Accounts(l, dist, u, v);
    var k :| 0 <= k < |l[u]| && l[u][k].0 == v + 1 && dist[v] == Add(dist[u], l[u][k].1);
    e := l[u][k];
  }

  /**
   * `obterCaminho` over a predecessor tree: empty exactly for a destination
   * at infinity, otherwise a walk from the origin to the destination whose
   * weights add up to the destination's distance; for the origin itself,
   * just the origin.
   */
  lemma PathToMeaning(l: seq<seq<Entry>>, res: DijkstraResult, rank: seq<nat>, dest: int)
    requires 1 <= res.origin && PredTree(l, res.origin - 1, res.dist, res.pred, rank) && 1 <= dest <= |l|
    ensures ResultShape(res)
    ensures PathTo(res, dest) == [] <==> res.dist[dest - 1].Inf?
    ensures res.dist[dest - 1].Fin? ==>
      exists ws :: WalkFrom(l, res.origin - 1, dest - 1, ToVertices(PathTo(res, dest)), ws) && Cost(ws) == res.dist[dest - 1].r
    ensures PathTo(res, res.origin) == [res.origin]
  {
    if res.dist[dest - 1].Fin? {
      var ws := PathToWalk(l, res, rank, dest);
    }
    PathToOrigin(res, |l|);
  }

  /** The path to a finite destination, as 0-based vertices, is a walk costing its distance. */
  lemma PathToWalk(l: seq<seq<Entry>>, res: DijkstraResult, rank: seq<nat>, dest: int) returns (ws: seq<real>)
    requires 1 <= res.origin && PredTree(l, res.origin - 1, res.dist, res.pred, rank) && 1 <= dest <= |l|
    requires ResultShape(res) && res.dist[dest - 1].Fin?
    ensures WalkFrom(l, res.origin - 1, dest - 1, ToVertices(PathTo(res, dest)), ws) && Cost(ws) == res.dist[dest - 1].r
  {
    var s := res.origin - 1;
    assert res == DijkstraResult(res.dist, res.pred, s + 1);
    var p;
    p, ws := ChainWalk(l, s, res.dist, res.pred, rank, res, dest - 1, |l|);
    BackwardsIs(p, Chain(res, dest, |l|));
  }

  /** The path to the origin is the origin alone. */
  lemma PathToOrigin(res: DijkstraResult, n: nat)
    requires ResultShape(res) && |res.dist| == n && 1 <= res.origin <= n && res.dist[res.origin - 1].Fin?
    ensures PathTo(res, res.origin) == [res.origin]
  {
    assert Chain(res, res.origin, n) == [res.origin];
  }
}
