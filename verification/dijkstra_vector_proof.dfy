/**
 * `dijkstraVetor` with non-negative weights ends sound with a predecessor
 * tree. The rounds keep: the origin at 0; every finite distance is
 * non-negative and the cost of a walk; visited vertices are finite,
 * relaxed, and no farther than any unvisited one; predecessors of finite
 * vertices are visited vertices of smaller visit rank.
 */
module VectorDijkstraProof {
  import opened Common
  import opened WeightedListAdjacency
  import opened WeightedView
  import opened WeightedPaths
  import opened Dijkstra
  import opened DijkstraProof

  ghost predicate DistInv(l: seq<seq<Entry>>, s: nat, st: VState) {
    && VSized(st, |l|) && s < |l| && st.dist[s] == Fin(0.0)
    && (forall x | 0 <= x < |l| && st.dist[x].Fin? :: 0.0 <= st.dist[x].r && Achievable(l, s, x, st.dist[x].r))
    && (forall x | 0 <= x < |l| && st.visited[x] :: st.dist[x].Fin? && Relaxed(l, st.dist, x))
    && (forall x, y | 0 <= x < |l| && 0 <= y < |l| && st.visited[x] && !st.visited[y] :: AtMost(st.dist[x], st.dist[y]))
  }

  ghost predicate PredInv(l: seq<seq<Entry>>, s: nat, st: VState, rank: seq<nat>) {
    && VSized(st, |l|) && |rank| == |l| && s < |l|
    && PredShape(st.pred, s) && RankOK(st.visited, rank) && PredEdges(l, s, st.dist, st.pred, rank)
  }

  /** `y` kept its values, or was unvisited and improved through some entry of `es` from `u`. */
  ghost predicate KeptOrImproved(st: VState, r: VState, u: nat, es: seq<Entry>, y: nat)
    requires VSized(st, |st.dist|) && VSized(r, |st.dist|) && u < |st.dist| && y < |st.dist|
  {
    || (r.dist[y] == st.dist[y] && r.pred[y] == st.pred[y])
    || (&& !st.visited[y] && r.pred[y] == u + 1 && Below(r.dist[y], st.dist[y])
        && exists k | 0 <= k < |es| :: es[k].0 == y + 1 && r.dist[y] == Add(st.dist[u], es[k].1))
  }

  /** What one relaxation loop does, for a visited `u`. */
  lemma {:induction false} RelaxVFacts(st: VState, u: nat, es: seq<Entry>)
    requires VSized(st, |st.dist|) && u < |st.dist| && st.visited[u]
    requires forall k | 0 <= k < |es| :: 1 <= es[k].0 <= |st.dist|
    ensures var r := RelaxV(st, u, es);
      && r.dist[u] == st.dist[u]
      && (forall y | 0 <= y < |st.dist| :: KeptOrImproved(st, r, u, es, y))
      && (forall y | 0 <= y < |st.dist| :: AtMost(r.dist[y], st.dist[y]))
      && (forall k | 0 <= k < |es| && !st.visited[es[k].0 - 1] :: AtMost(r.dist[es[k].0 - 1], Add(st.dist[u], es[k].1)))
    decreases |es|
  {
    if |es| > 0 {
      var n := |st.dist|;
      var st1 := RelaxVOne(st, u, es[0]);
      var r := RelaxV(st, u, es);
      assert r == RelaxV(st1, u, es[1..]);
      RelaxVFacts(st1, u, es[1..]);
      assert st1.dist[u] == st.dist[u];
      forall y | 0 <= y < n ensures KeptOrImproved(st, r, u, es, y) {
        assert KeptOrImproved(st1, r, u, es[1..], y);
        assert AtMost(st1.dist[y], st.dist[y]);
        if !(r.dist[y] == st1.dist[y] && r.pred[y] == st1.pred[y]) {
          var k :| 0 <= k < |es[1..]| && es[1..][k].0 == y + 1 && r.dist[y] == Add(st1.dist[u], es[1..][k].1);
          assert es[k + 1] == es[1..][k];
        } else if !(st1.dist[y] == st.dist[y] && st1.pred[y] == st.pred[y]) {
          assert es[0].0 == y + 1;
        }
      }
      forall k | 0 <= k < |es| && !st.visited[es[k].0 - 1] ensures AtMost(r.dist[es[k].0 - 1], Add(st.dist[u], es[k].1)) {
        if k > 0 {
          assert es[k] == es[1..][k - 1];
        }
      }
    }
  }

  /** The selected `u`: unvisited, finite, and no farther than any unvisited vertex. */
  ghost predicate Chosen(st: VState, u: nat)
    requires VSized(st, |st.dist|)
  {
    && u < |st.dist| && !st.visited[u] && st.dist[u].Fin?
    && forall x | 0 <= x < |st.dist| && !st.visited[x] :: AtMost(st.dist[u], st.dist[x])
  }

  /** The state after round `u`. */
  function Round(l: seq<seq<Entry>>, st: VState, u: nat): (r: VState)
    requires WellFormedW(l) && VSized(st, |l|) && u < |l|
    ensures VSized(r, |l|)
  {
    RelaxV(st.(visited := st.visited[u := true]), u, l[u])
  }

  /** What round `u` turns `st` into: `u` marked, each vertex kept or improved through `u`, every entry of `u` relaxed. */
  ghost predicate RoundEffect(l: seq<seq<Entry>>, st: VState, u: nat, r: VState)
    requires WellFormedW(l) && VSized(st, |l|) && u < |l|
  {
    var st0 := st.(visited := st.visited[u := true]);
    && VSized(r, |l|) && r.visited == st0.visited && r.dist[u] == st.dist[u]
    && (forall y | 0 <= y < |l| :: KeptOrImproved(st0, r, u, l[u], y))
    && (forall y | 0 <= y < |l| :: AtMost(r.dist[y], st.dist[y]))
    && (forall k | 0 <= k < |l[u]| && !st0.visited[l[u][k].0 - 1] ::
          AtMost(r.dist[l[u][k].0 - 1], Add(st.dist[u], l[u][k].1)))
  }

  lemma RoundEffectHolds(l: seq<seq<Entry>>, st: VState, u: nat)
    requires WellFormedW(l) && VSized(st, |l|) && u < |l|
    ensures RoundEffect(l, st, u, Round(l, st, u))
  {
    RelaxVFacts(st.(visited := st.visited[u := true]), u, l[u]);
  }

  /** Improved values are non-negative walk costs, and the origin stays at 0. */
  lemma RoundAchievable(l: seq<seq<Entry>>, s: nat, st: VState, u: nat, r: VState)
    requires WellFormedW(l) && NonNegative(l) && DistInv(l, s, st) && Chosen(st, u) && RoundEffect(l, st, u, r)
    ensures r.dist[s] == Fin(0.0)
    ensures forall y | 0 <= y < |l| && r.dist[y].Fin? :: 0.0 <= r.dist[y].r && Achievable(l, s, y, r.dist[y].r)
  {
    var st0 := st.(visited := st.visited[u := true]);
    forall y | 0 <= y < |l| && r.dist[y].Fin? ensures 0.0 <= r.dist[y].r && Achievable(l, s, y, r.dist[y].r) {
      assert KeptOrImproved(st0, r, u, l[u], y);
      if r.dist[y] != st.dist[y] {
        var k :| 0 <= k < |l[u]| && l[u][k].0 == y + 1 && r.dist[y] == Add(st.dist[u], l[u][k].1);
        AchieveStep(l, s, u, st.dist[u].r, k);
      }
    }
    assert AtMost(r.dist[s], st.dist[s]);
  }

  /** Visited vertices are untouched by a round. */
  lemma VisitedKept(l: seq<seq<Entry>>, st: VState, u: nat, r: VState, x: nat)
    requires WellFormedW(l) && VSized(st, |l|) && u < |l| && RoundEffect(l, st, u, r)
    requires x < |l| && r.visited[x]
    ensures r.dist[x] == st.dist[x] && r.pred[x] == st.pred[x]
  {
    assert KeptOrImproved(st.(visited := st.visited[u := true]), r, u, l[u], x);
  }

  /** Visited vertices stay finite, relaxed, and no farther than unvisited ones. */
  lemma RoundRelaxed(l: seq<seq<Entry>>, s: nat, st: VState, u: nat, r: VState)
    requires WellFormedW(l) && NonNegative(l) && DistInv(l, s, st) && Chosen(st, u) && RoundEffect(l, st, u, r)
    ensures forall x | 0 <= x < |l| && r.visited[x] :: r.dist[x].Fin? && Relaxed(l, r.dist, x)
    ensures forall x, y | 0 <= x < |l| && 0 <= y < |l| && r.visited[x] && !r.visited[y] :: AtMost(r.dist[x], r.dist[y])
  {
    var n := |l|;
    var st0 := st.(visited := st.visited[u := true]);
    forall x | 0 <= x < n && r.visited[x] ensures r.dist[x].Fin? && Relaxed(l, r.dist, x) {
      VisitedKept(l, st, u, r, x);
      forall k | 0 <= k < |l[x]| ensures AtMost(r.dist[l[x][k].0 - 1], Add(r.dist[x], l[x][k].1)) {
        var y := l[x][k].0 - 1;
        if x == u {
          if st.visited[y] {
            assert AtMost(st.dist[y], st.dist[u]);
            VisitedKept(l, st, u, r, y);
          }
        } else {
          assert Relaxed(l, st.dist, x);
          assert AtMost(r.dist[y], st.dist[y]);
        }
      }
    }
    forall x, y | 0 <= x < n && 0 <= y < n && r.visited[x] && !r.visited[y] ensures AtMost(r.dist[x], r.dist[y]) {
      VisitedKept(l, st, u, r, x);
      assert KeptOrImproved(st0, r, u, l[u], y);
      if r.dist[y] != st.dist[y] {
        var k :| 0 <= k < |l[u]| && l[u][k].0 == y + 1 && r.dist[y] == Add(st.dist[u], l[u][k].1);
      }
    }
  }

  lemma RoundDist(l: seq<seq<Entry>>, s: nat, st: VState, u: nat, r: VState)
    requires WellFormedW(l) && NonNegative(l) && DistInv(l, s, st) && Chosen(st, u) && RoundEffect(l, st, u, r)
    ensures DistInv(l, s, r)
  {
    RoundAchievable(l, s, st, u, r);
    RoundRelaxed(l, s, st, u, r);
  }

  /** A round keeps the origin without predecessor and every predecessor an id or -1. */
  lemma RoundPredShape(l: seq<seq<Entry>>, s: nat, st: VState, u: nat, r: VState)
    requires WellFormedW(l) && NonNegative(l) && DistInv(l, s, st) && PredShape(st.pred, s)
    requires Chosen(st, u) && RoundEffect(l, st, u, r)
    ensures PredShape(r.pred, s)
  {
    var st0 := st.(visited := st.visited[u := true]);
    RoundAchievable(l, s, st, u, r);
    assert KeptOrImproved(st0, r, u, l[u], s);
    forall v | 0 <= v < |l| ensures r.pred[v] == -1 || 1 <= r.pred[v] <= |l| {
      assert KeptOrImproved(st0, r, u, l[u], v);
    }
  }

  /** `u` is ranked next. */
  lemma RankStep(visited: seq<bool>, rank: seq<nat>, u: nat)
    requires RankOK(visited, rank) && u < |visited| && !visited[u]
    ensures RankOK(visited[u := true], rank[u := CountTrue(visited)])
  {
    CountTrueSet(visited, u);
  }

  /** After a round, a finite vertex `v` other than the origin has its predecessor edge. */
  lemma RoundPredEdgeAt(l: seq<seq<Entry>>, s: nat, st: VState, u: nat, rank: seq<nat>, r: VState, v: nat)
    requires WellFormedW(l) && VSized(st, |l|) && |rank| == |l| && Chosen(st, u) && RoundEffect(l, st, u, r)
    requires RankOK(st.visited, rank) && PredEdges(l, s, st.dist, st.pred, rank)
    requires v < |l| && v != s && r.dist[v].Fin?
    ensures PredEdge(l, r.dist, r.pred, rank[u := CountTrue(st.visited)], v)
  {
    var st0 := st.(visited := st.visited[u := true]);
    var rank' := rank[u := CountTrue(st.visited)];
    assert KeptOrImproved(st0, r, u, l[u], v);
    if r.dist[v] == st.dist[v] && r.pred[v] == st.pred[v] {
      assert PredEdge(l, st.dist, st.pred, rank, v);
      var p := st.pred[v] - 1;
      assert st.visited[p];
      VisitedKept(l, st, u, r, p);
      PredKept(l, st.dist, st.pred, rank, r.dist, r.pred, rank', v);
    } else {
      var k :| 0 <= k < |l[u]| && l[u][k].0 == v + 1 && r.dist[v] == Add(st.dist[u], l[u][k].1);
      assert Accounts(l, r.dist, u, v);
      CountTrueBelow(st.visited, u);
    }
  }

  /** A predecessor edge survives when `v`, its predecessor and their order are unchanged. */
  lemma PredKept(l: seq<seq<Entry>>, dist: seq<Dist>, pred: seq<int>, rank: seq<nat>,
                 dist': seq<Dist>, pred': seq<int>, rank': seq<nat>, v: nat)
    requires |dist| == |l| && |pred| == |l| && |rank| == |l| && |dist'| == |l| && |pred'| == |l| && |rank'| == |l|
    requires v < |l| && PredEdge(l, dist, pred, rank, v)
    requires dist'[v] == dist[v] && pred'[v] == pred[v]
    requires dist'[pred[v] - 1] == dist[pred[v] - 1] && rank'[pred[v] - 1] < rank'[v]
    ensures PredEdge(l, dist', pred', rank', v)
  {
    var p := pred[v] - 1;
    var k :| 0 <= k < |l[p]| && l[p][k].0 == v + 1 && dist[v] == Add(dist[p], l[p][k].1);
    assert Accounts(l, dist', p, v);
  }

  /** `u` takes the next rank; improved vertices get `u` as predecessor, the rest keep theirs. */
  lemma RoundPred(l: seq<seq<Entry>>, s: nat, st: VState, u: nat, rank: seq<nat>, r: VState)
    requires WellFormedW(l) && NonNegative(l) && DistInv(l, s, st) && PredInv(l, s, st, rank)
    requires Chosen(st, u) && RoundEffect(l, st, u, r)
    ensures PredInv(l, s, r, rank[u := CountTrue(st.visited)])
  {
    RoundPredShape(l, s, st, u, r);
    RankStep(st.visited, rank, u);
    forall v | 0 <= v < |l| && r.dist[v].Fin? && v != s
      ensures PredEdge(l, r.dist, r.pred, rank[u := CountTrue(st.visited)], v)
    {
      RoundPredEdgeAt(l, s, st, u, rank, r, v);
    }
  }

  /** A state where every finite vertex is visited is final. */
  lemma FinalState(l: seq<seq<Entry>>, s: nat, st: VState, rank: seq<nat>)
    requires DistInv(l, s, st) && PredInv(l, s, st, rank)
    requires forall x | 0 <= x < |l| && st.dist[x].Fin? :: st.visited[x]
    ensures Sound(l, s, st.dist) && PredTree(l, s, st.dist, st.pred, rank)
  {
  }

  /** When the rounds stop, every finite vertex has been visited. */
  lemma Stopped(l: seq<seq<Entry>>, st: VState, i: nat)
    requires VSized(st, |l|) && i <= |l| && CountTrue(st.visited) == i
    requires i == |l| || Select(st) == -1 || st.dist[Select(st)].Inf?
    ensures forall x | 0 <= x < |l| && st.dist[x].Fin? :: st.visited[x]
  {
    if i == |l| {
      CountTrueAll(st.visited);
    }
  }

  /** The rounds from `i` on end sound, with a predecessor tree. */
  lemma {:induction false} VLoopCorrect(l: seq<seq<Entry>>, s: nat, st: VState, i: nat, rank: seq<nat>, fin: VState)
    returns (rank': seq<nat>)
    requires WellFormedW(l) && NonNegative(l) && DistInv(l, s, st) && PredInv(l, s, st, rank)
    requires i <= |l| && CountTrue(st.visited) == i && fin == VLoop(l, st, i)
    ensures Sound(l, s, fin.dist) && PredTree(l, s, fin.dist, fin.pred, rank')
    decreases |l| - i
  {
    if i == |l| || Select(st) == -1 || st.dist[Select(st)].Inf? {
      assert fin == st;
      Stopped(l, st, i);
      FinalState(l, s, st, rank);
      rank' := rank;
    } else {
      var u := Select(st);
      var r := Round(l, st, u);
      assert fin == VLoop(l, r, i + 1);
      assert Chosen(st, u);
      RoundEffectHolds(l, st, u);
      RoundDist(l, s, st, u, r);
      RoundPred(l, s, st, u, rank, r);
      CountTrueSet(st.visited, u);
      rank' := VLoopCorrect(l, s, r, i + 1, rank[u := i], fin);
    }
  }

  /** `dijkstraVetor` with non-negative weights ends sound, with a predecessor tree. */
  lemma DijkstraVectorCorrect(l: seq<seq<Entry>>, origin: int) returns (rank: seq<nat>)
    requires WellFormedW(l) && NonNegative(l) && 1 <= origin <= |l|
    ensures Sound(l, origin - 1, DijkstraVector(l, origin).dist)
    ensures PredTree(l, origin - 1, DijkstraVector(l, origin).dist, DijkstraVector(l, origin).pred, rank)
  {
    var n, s := |l|, origin - 1;
    var st := VStart(n, s);
    WalkRefl(l, s);
    CountTrueNone(st.visited);
    var fin := VLoop(l, st, 0);
    rank := VLoopCorrect(l, s, st, 0, seq(n, _ => n), fin);
    assert DijkstraVector(l, origin) == DijkstraResult(fin.dist, fin.pred, origin);
  }
}
