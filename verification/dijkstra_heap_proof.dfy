/**
 * `dijkstraHeap` with non-negative weights ends sound with a predecessor
 * tree, and so agrees with `dijkstraVetor`. A vertex is finalised when its
 * live item is popped; from then on no item is below its distance, so it is
 * never improved again and its entries stay relaxed. The rounds are argued
 * about on the plain arrays of distances, predecessors and finalised marks.
 */
module HeapDijkstraProof {
  import opened Common
  import opened WeightedListAdjacency
  import opened WeightedView
  import opened WeightedPaths
  import opened Dijkstra
  import opened HeapDijkstra
  import opened DijkstraProof
  import VectorDijkstraProof

  /** Finite distances are non-negative walk costs; finalised vertices are finite and relaxed. */
  ghost predicate HDistInv(l: seq<seq<Entry>>, s: nat, dist: seq<Dist>, done: seq<bool>) {
    && |dist| == |l| && |done| == |l| && s < |l| && dist[s] == Fin(0.0)
    && (forall x | 0 <= x < |l| && dist[x].Fin? :: 0.0 <= dist[x].r && Achievable(l, s, x, dist[x].r))
    && (forall x | 0 <= x < |l| && done[x] :: dist[x].Fin? && Relaxed(l, dist, x))
  }

  ghost predicate HPredInv(l: seq<seq<Entry>>, s: nat, dist: seq<Dist>, pred: seq<int>, done: seq<bool>, rank: seq<nat>) {
    && |dist| == |l| && |pred| == |l| && |done| == |l| && |rank| == |l| && s < |l|
    && PredShape(pred, s) && RankOK(done, rank) && PredEdges(l, s, dist, pred, rank)
  }

  /** `y` kept its values, or was improved through some entry of `es` from `u`. */
  ghost predicate KeptOrImprovedH(dist: seq<Dist>, pred: seq<int>, dist': seq<Dist>, pred': seq<int>, u: nat, es: seq<Entry>, y: nat)
    requires |dist| == |pred| == |dist'| == |pred'| && u < |dist| && y < |dist|
  {
    || (dist'[y] == dist[y] && pred'[y] == pred[y])
    || (&& pred'[y] == u + 1 && Below(dist'[y], dist[y])
        && exists k | 0 <= k < |es| :: es[k].0 == y + 1 && dist'[y] == Add(dist[u], es[k].1))
  }

  /** What one relaxation loop does to the distances and predecessors. */
  lemma {:induction false} RelaxHFacts(st: HState, u: nat, es: seq<Entry>)
    requires HShape(st, |st.dist|) && u < |st.dist| && st.dist[u].Fin?
    requires forall k | 0 <= k < |es| :: 1 <= es[k].0 <= |st.dist| && es[k].1 >= 0.0
    ensures var r := RelaxH(st, u, es);
      && r.dist[u] == st.dist[u]
      && (forall y | 0 <= y < |st.dist| :: KeptOrImprovedH(st.dist, st.pred, r.dist, r.pred, u, es, y))
      && (forall y | 0 <= y < |st.dist| :: AtMost(r.dist[y], st.dist[y]))
      && (forall k | 0 <= k < |es| :: AtMost(r.dist[es[k].0 - 1], Add(st.dist[u], es[k].1)))
    decreases |es|
  {
    if |es| > 0 {
      var n := |st.dist|;
      var st1 := RelaxOne(st, u, es[0]);
      var r := RelaxH(st, u, es);
      assert r == RelaxH(st1, u, es[1..]);
      RelaxOneFacts(st, u, es[0]);
      RelaxHFacts(st1, u, es[1..]);
      forall y | 0 <= y < n ensures KeptOrImprovedH(st.dist, st.pred, r.dist, r.pred, u, es, y) {
        KeptCompose(st.dist, st.pred, st1.dist, st1.pred, r.dist, r.pred, u, es, y);
      }
      forall k | 0 <= k < |es| ensures AtMost(r.dist[es[k].0 - 1], Add(st.dist[u], es[k].1)) {
        if k > 0 {
          assert es[k] == es[1..][k - 1];
        }
      }
    }
  }

  /** What one entry does: `u` keeps its distance, `e`'s target is at most the distance through `u`, nothing else changes. */
  lemma RelaxOneFacts(st: HState, u: nat, e: Entry)
    requires HShape(st, |st.dist|) && u < |st.dist| && st.dist[u].Fin? && 1 <= e.0 <= |st.dist| && e.1 >= 0.0
    ensures var r := RelaxOne(st, u, e);
      && r.dist[u] == st.dist[u]
      && AtMost(r.dist[e.0 - 1], Add(st.dist[u], e.1))
      && forall y | 0 <= y < |st.dist| ::
        && AtMost(r.dist[y], st.dist[y])
        && (|| (r.dist[y] == st.dist[y] && r.pred[y] == st.pred[y])
            || (r.pred[y] == u + 1 && Below(r.dist[y], st.dist[y]) && e.0 == y + 1 && r.dist[y] == Add(st.dist[u], e.1)))
  {
  }

  /** A first entry that kept or improved `y`, followed by the rest of the loop. */
  lemma KeptCompose(dist: seq<Dist>, pred: seq<int>, dist1: seq<Dist>, pred1: seq<int>, dist2: seq<Dist>, pred2: seq<int>,
                    u: nat, es: seq<Entry>, y: nat)
    requires |dist| == |pred| == |dist1| == |pred1| == |dist2| == |pred2| && u < |dist| && y < |dist| && |es| > 0
    requires dist1[u] == dist[u]
    requires || (dist1[y] == dist[y] && pred1[y] == pred[y])
             || (pred1[y] == u + 1 && Below(dist1[y], dist[y]) && es[0].0 == y + 1 && dist1[y] == Add(dist[u], es[0].1))
    requires KeptOrImprovedH(dist1, pred1, dist2, pred2, u, es[1..], y)
    ensures KeptOrImprovedH(dist, pred, dist2, pred2, u, es, y)
  {
    if !(dist2[y] == dist1[y] && pred2[y] == pred1[y]) {
      var k :| 0 <= k < |es[1..]| && es[1..][k].0 == y + 1 && dist2[y] == Add(dist1[u], es[1..][k].1);
      assert es[k + 1] == es[1..][k];
    } else if !(dist1[y] == dist[y] && pred1[y] == pred[y]) {
      assert es[0].0 == y + 1;
    }
  }

  /**
   * A live round on the arrays: `u` at `d` is finalised; every vertex
   * finalised before is at most `d`; each vertex is kept or improved
   * through an entry of `u`; no distance grows; every entry of `u` is relaxed.
   */
  ghost predicate LiveStep(l: seq<seq<Entry>>, dist: seq<Dist>, pred: seq<int>, done: seq<bool>, u: nat, d: real,
                           dist': seq<Dist>, pred': seq<int>, done': seq<bool>)
    requires WellFormedW(l)
  {
    && |dist| == |l| && |pred| == |l| && |done| == |l| && |dist'| == |l| && |pred'| == |l| && u < |l|
    && dist[u] == Fin(d) && dist'[u] == Fin(d) && !done[u] && done' == done[u := true]
    && (forall x | 0 <= x < |l| && done[x] :: dist[x].Fin? && dist[x].r <= d)
    && (forall y | 0 <= y < |l| :: KeptOrImprovedH(dist, pred, dist', pred', u, l[u], y))
    && (forall y | 0 <= y < |l| :: AtMost(dist'[y], dist[y]))
    && (forall k | 0 <= k < |l[u]| :: AtMost(dist'[l[u][k].0 - 1], Add(dist[u], l[u][k].1)))
  }

  /** The round that pops a live head and relaxes its vertex. */
  function LiveRound(l: seq<seq<Entry>>, st: HState): (r: HState)
    requires WellFormedW(l) && HShape(st, |l|) && |st.pq| > 0
    ensures HShape(r, |l|)
  {
    RelaxH(st.(pq := st.pq[1..]), st.pq[0].1, l[st.pq[0].1])
  }

  lemma LiveRoundInv(l: seq<seq<Entry>>, st: HState)
    requires WellFormedW(l) && NonNegative(l) && HInv(st, |l|) && |st.pq| > 0 && !Below(st.dist[st.pq[0].1], Fin(st.pq[0].0))
    ensures var r := LiveRound(l, st);
      && HInv(r, |l|) && r.dist[st.pq[0].1] == Fin(st.pq[0].0)
      && !SettledMarks(st)[st.pq[0].1] && SettledMarks(r) == SettledMarks(st)[st.pq[0].1 := true]
  {
    var (d, u) := st.pq[0];
    LivePop(st, |l|);
    assert forall k | 0 <= k < |l[u]| :: 1 <= l[u][k].0 <= |l| && l[u][k].1 >= 0.0;
    RelaxHInv(st.(pq := st.pq[1..]), |l|, u, d, l[u]);
  }

  lemma LiveRoundStep(l: seq<seq<Entry>>, st: HState)
    requires WellFormedW(l) && NonNegative(l) && HInv(st, |l|) && |st.pq| > 0 && !Below(st.dist[st.pq[0].1], Fin(st.pq[0].0))
    ensures var r := LiveRound(l, st);
      LiveStep(l, st.dist, st.pred, SettledMarks(st), st.pq[0].1, st.pq[0].0, r.dist, r.pred, SettledMarks(r))
  {
    var (d, u) := st.pq[0];
    var st0 := st.(pq := st.pq[1..]);
    LiveRoundInv(l, st);
    LiveHead(st, |l|);
    assert forall k | 0 <= k < |l[u]| :: 1 <= l[u][k].0 <= |l| && l[u][k].1 >= 0.0;
    RelaxHFacts(st0, u, l[u]);
  }

  /** A live head carries its vertex's distance, which no settled distance exceeds. */
  lemma LiveHead(st: HState, n: nat)
    requires HInv(st, n) && |st.pq| > 0 && !Below(st.dist[st.pq[0].1], Fin(st.pq[0].0))
    ensures st.dist[st.pq[0].1] == Fin(st.pq[0].0)
    ensures forall x | 0 <= x < n && SettledMarks(st)[x] :: st.dist[x].Fin? && st.dist[x].r <= st.pq[0].0
  {
    assert ItemOK(st, st.pq[0]);
    assert st.pq[0] in st.pq;
  }

  /** A vertex finalised before a live round is untouched by it. */
  lemma DoneKept(l: seq<seq<Entry>>, dist: seq<Dist>, pred: seq<int>, done: seq<bool>, u: nat, d: real,
                 dist': seq<Dist>, pred': seq<int>, done': seq<bool>, x: nat)
    requires WellFormedW(l) && NonNegative(l) && LiveStep(l, dist, pred, done, u, d, dist', pred', done')
    requires x < |l| && done[x]
    ensures dist'[x] == dist[x] && pred'[x] == pred[x]
  {
    assert KeptOrImprovedH(dist, pred, dist', pred', u, l[u], x);
    assert forall k | 0 <= k < |l[u]| :: l[u][k].1 >= 0.0;
  }

  lemma LiveDist(l: seq<seq<Entry>>, s: nat, dist: seq<Dist>, pred: seq<int>, done: seq<bool>, u: nat, d: real,
                 dist': seq<Dist>, pred': seq<int>, done': seq<bool>)
    requires WellFormedW(l) && NonNegative(l) && HDistInv(l, s, dist, done)
    requires LiveStep(l, dist, pred, done, u, d, dist', pred', done')
    ensures HDistInv(l, s, dist', done')
  {
    forall y | 0 <= y < |l| && dist'[y].Fin? ensures 0.0 <= dist'[y].r && Achievable(l, s, y, dist'[y].r) {
      assert KeptOrImprovedH(dist, pred, dist', pred', u, l[u], y);
      if dist'[y] != dist[y] {
        var k :| 0 <= k < |l[u]| && l[u][k].0 == y + 1 && dist'[y] == Add(dist[u], l[u][k].1);
        AchieveStep(l, s, u, dist[u].r, k);
      }
    }
    assert AtMost(dist'[s], dist[s]);
    forall x | 0 <= x < |l| && done'[x] ensures dist'[x].Fin? && Relaxed(l, dist', x) {
      if x != u {
        DoneKept(l, dist, pred, done, u, d, dist', pred', done', x);
        assert Relaxed(l, dist, x);
        forall k | 0 <= k < |l[x]| ensures AtMost(dist'[l[x][k].0 - 1], Add(dist'[x], l[x][k].1)) {
          assert AtMost(dist'[l[x][k].0 - 1], dist[l[x][k].0 - 1]);
        }
      }
    }
  }

  lemma LivePredEdgeAt(l: seq<seq<Entry>>, s: nat, dist: seq<Dist>, pred: seq<int>, done: seq<bool>, u: nat, d: real,
                       dist': seq<Dist>, pred': seq<int>, done': seq<bool>, rank: seq<nat>, v: nat)
    requires WellFormedW(l) && NonNegative(l) && LiveStep(l, dist, pred, done, u, d, dist', pred', done')
    requires |rank| == |l| && RankOK(done, rank) && PredEdges(l, s, dist, pred, rank)
    requires v < |l| && v != s && dist'[v].Fin?
    ensures PredEdge(l, dist', pred', rank[u := CountTrue(done)], v)
  {
    var rank' := rank[u := CountTrue(done)];
    assert KeptOrImprovedH(dist, pred, dist', pred', u, l[u], v);
    if dist'[v] == dist[v] && pred'[v] == pred[v] {
      assert PredEdge(l, dist, pred, rank, v);
      var p := pred[v] - 1;
      assert done[p];
      DoneKept(l, dist, pred, done, u, d, dist', pred', done', p);
      VectorDijkstraProof.PredKept(l, dist, pred, rank, dist', pred', rank', v);
    } else {
      if done[v] {
        DoneKept(l, dist, pred, done, u, d, dist', pred', done', v);
      }
      var k :| 0 <= k < |l[u]| && l[u][k].0 == v + 1 && dist'[v] == Add(dist[u], l[u][k].1);
      assert Accounts(l, dist', u, v);
      CountTrueBelow(done, u);
    }
  }

  lemma LivePred(l: seq<seq<Entry>>, s: nat, dist: seq<Dist>, pred: seq<int>, done: seq<bool>, u: nat, d: real,
                 dist': seq<Dist>, pred': seq<int>, done': seq<bool>, rank: seq<nat>)
    requires WellFormedW(l) && NonNegative(l) && HDistInv(l, s, dist, done) && HPredInv(l, s, dist, pred, done, rank)
    requires LiveStep(l, dist, pred, done, u, d, dist', pred', done')
    ensures HPredInv(l, s, dist', pred', done', rank[u := CountTrue(done)])
  {
    assert KeptOrImprovedH(dist, pred, dist', pred', u, l[u], s);
    assert AtMost(dist'[s], dist[s]);
    forall v | 0 <= v < |l| ensures pred'[v] == -1 || 1 <= pred'[v] <= |l| {
      assert KeptOrImprovedH(dist, pred, dist', pred', u, l[u], v);
    }
    VectorDijkstraProof.RankStep(done, rank, u);
    forall v | 0 <= v < |l| && dist'[v].Fin? && v != s
      ensures PredEdge(l, dist', pred', rank[u := CountTrue(done)], v)
    {
      LivePredEdgeAt(l, s, dist, pred, done, u, d, dist', pred', done', rank, v);
    }
  }

  /** With the queue empty every finite vertex is finalised, so the state is final. */
  lemma EmptyFinal(l: seq<seq<Entry>>, s: nat, st: HState, rank: seq<nat>)
    requires HDistInv(l, s, st.dist, SettledMarks(st)) && HPredInv(l, s, st.dist, st.pred, SettledMarks(st), rank)
    requires st.pq == []
    ensures Sound(l, s, st.dist) && PredTree(l, s, st.dist, st.pred, rank)
  {
    assert forall x | 0 <= x < |st.dist| && st.dist[x].Fin? :: SettledMarks(st)[x];
  }

  /** Dropping a stale head keeps every invariant. */
  lemma StaleKeeps(l: seq<seq<Entry>>, s: nat, st: HState, rank: seq<nat>)
    requires WellFormedW(l) && HInv(st, |l|) && |st.pq| > 0 && Below(st.dist[st.pq[0].1], Fin(st.pq[0].0))
    requires HDistInv(l, s, st.dist, SettledMarks(st)) && HPredInv(l, s, st.dist, st.pred, SettledMarks(st), rank)
    ensures var st0 := st.(pq := st.pq[1..]);
      && HInv(st0, |l|) && SettledMarks(st0) == SettledMarks(st)
      && HDistInv(l, s, st0.dist, SettledMarks(st0)) && HPredInv(l, s, st0.dist, st0.pred, SettledMarks(st0), rank)
  {
    StaleStep(st, |l|);
  }

  /** A live round keeps every invariant, ranks its vertex next, and finalises one more vertex. */
  lemma LiveKeeps(l: seq<seq<Entry>>, s: nat, st: HState, rank: seq<nat>)
    requires WellFormedW(l) && NonNegative(l) && HInv(st, |l|) && |st.pq| > 0 && !Below(st.dist[st.pq[0].1], Fin(st.pq[0].0))
    requires HDistInv(l, s, st.dist, SettledMarks(st)) && HPredInv(l, s, st.dist, st.pred, SettledMarks(st), rank)
    ensures var r, u := LiveRound(l, st), st.pq[0].1;
      var rank' := rank[u := CountTrue(SettledMarks(st))];
      && HInv(r, |l|) && CountTrue(SettledMarks(r)) == CountTrue(SettledMarks(st)) + 1
      && HDistInv(l, s, r.dist, SettledMarks(r)) && HPredInv(l, s, r.dist, r.pred, SettledMarks(r), rank')
  {
    var (d, u) := st.pq[0];
    var r := LiveRound(l, st);
    var done := SettledMarks(st);
    LiveRoundInv(l, st);
    LiveRoundStep(l, st);
    LiveDist(l, s, st.dist, st.pred, done, u, d, r.dist, r.pred, SettledMarks(r));
    LivePred(l, s, st.dist, st.pred, done, u, d, r.dist, r.pred, SettledMarks(r), rank);
    CountTrueSet(done, u);
  }

  lemma HLoopStale(l: seq<seq<Entry>>, st: HState)
    requires WellFormedW(l) && NonNegative(l) && HInv(st, |l|) && |st.pq| > 0 && Below(st.dist[st.pq[0].1], Fin(st.pq[0].0))
    ensures HInv(st.(pq := st.pq[1..]), |l|) && HLoop(l, st) == HLoop(l, st.(pq := st.pq[1..]))
  {
    StaleStep(st, |l|);
  }

  lemma HLoopLive(l: seq<seq<Entry>>, st: HState)
    requires WellFormedW(l) && NonNegative(l) && HInv(st, |l|) && |st.pq| > 0 && !Below(st.dist[st.pq[0].1], Fin(st.pq[0].0))
    ensures HInv(LiveRound(l, st), |l|) && HLoop(l, st) == HLoop(l, LiveRound(l, st))
  {
    LiveRoundInv(l, st);
  }

  /** The loop from `st` on ends sound, with a predecessor tree. */
  lemma {:induction false} HLoopCorrect(l: seq<seq<Entry>>, s: nat, st: HState, rank: seq<nat>, fin: HState)
    returns (rank': seq<nat>)
    requires WellFormedW(l) && NonNegative(l) && HInv(st, |l|)
    requires HDistInv(l, s, st.dist, SettledMarks(st)) && HPredInv(l, s, st.dist, st.pred, SettledMarks(st), rank)
    requires fin == HLoop(l, st)
    ensures Sound(l, s, fin.dist) && PredTree(l, s, fin.dist, fin.pred, rank')
    decreases |l| - CountTrue(SettledMarks(st)), |st.pq|
  {
    if |st.pq| == 0 {
      assert fin == st;
      EmptyFinal(l, s, st, rank);
      rank' := rank;
    } else if Below(st.dist[st.pq[0].1], Fin(st.pq[0].0)) {
      var st0 := st.(pq := st.pq[1..]);
      HLoopStale(l, st);
      StaleKeeps(l, s, st, rank);
      rank' := HLoopCorrect(l, s, st0, rank, fin);
    } else {
      var r := LiveRound(l, st);
      HLoopLive(l, st);
      LiveKeeps(l, s, st, rank);
      rank' := HLoopCorrect(l, s, r, rank[st.pq[0].1 := CountTrue(SettledMarks(st))], fin);
    }
  }

  /** `dijkstraHeap` with non-negative weights ends sound, with a predecessor tree. */
  lemma DijkstraHeapCorrect(l: seq<seq<Entry>>, origin: int) returns (rank: seq<nat>)
    requires WellFormedW(l) && NonNegative(l) && 1 <= origin <= |l|
    ensures Sound(l, origin - 1, DijkstraHeap(l, origin).dist)
    ensures PredTree(l, origin - 1, DijkstraHeap(l, origin).dist, DijkstraHeap(l, origin).pred, rank)
  {
    var n, s := |l|, origin - 1;
    var st := HStart(n, s);
    HStartInv(l, s);
    var fin := HLoop(l, st);
    rank := HLoopCorrect(l, s, st, seq(n, _ => n), fin);
    assert DijkstraHeap(l, origin) == DijkstraResult(fin.dist, fin.pred, origin);
  }

  /** The start state meets every invariant, with nothing settled. */
  lemma HStartInv(l: seq<seq<Entry>>, s: nat)
    requires WellFormedW(l) && s < |l|
    ensures var st := HStart(|l|, s);
      && HInv(st, |l|) && HDistInv(l, s, st.dist, SettledMarks(st))
      && HPredInv(l, s, st.dist, st.pred, SettledMarks(st), seq(|l|, _ => |l|))
  {
    var n := |l|;
    var st := HStart(n, s);
    WalkRefl(l, s);
    assert forall x | 0 <= x < n :: !SettledMarks(st)[x] by {
      assert st.pq[0] == (0.0, s);
    }
    CountTrueNone(SettledMarks(st));
  }
}
