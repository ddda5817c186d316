/**
 * What callers of both Dijkstra versions get, for non-negative weights:
 * the distance array holds the least walk costs from the origin with
 * infinity for the unreachable, `obterCaminho` on the result returns a
 * least-cost walk to any reachable destination, and the two versions agree.
 */
module DijkstraTheorems {
  import opened WeightedListAdjacency
  import opened WeightedView
  import opened WeightedPaths
  import opened Dijkstra
  import opened HeapDijkstra
  import opened DijkstraProof
  import VectorDijkstraProof
  import HeapDijkstraProof

  /** A distance array holds the least costs from `s`, with infinity exactly for the unreachable. */
  ghost predicate Shortest(l: seq<seq<Entry>>, s: nat, dist: seq<Dist>) {
    && |dist| == |l| && s < |l| && dist[s] == Fin(0.0)
    && (forall t | 0 <= t < |l| && dist[t].Fin? :: ShortestCost(l, s, t, dist[t].r))
    && (forall t | 0 <= t < |l| :: dist[t].Inf? <==> !WReachable(l, s, t))
  }

  lemma SoundShortest(l: seq<seq<Entry>>, s: nat, dist: seq<Dist>)
    requires Sound(l, s, dist)
    ensures Shortest(l, s, dist)
  {
    forall t | 0 <= t < |l| ensures (dist[t].Fin? ==> ShortestCost(l, s, t, dist[t].r)) && (dist[t].Inf? <==> !WReachable(l, s, t)) {
      SoundMeaning(l, s, dist, t);
    }
  }

  /** `obterCaminho` to `dest`: empty exactly when unreachable, otherwise a least-cost walk from the origin. */
  ghost predicate PathsShortest(l: seq<seq<Entry>>, res: DijkstraResult, dest: int)
    requires ResultShape(res) && |res.dist| == |l| && 1 <= dest <= |l|
  {
    && (PathTo(res, dest) == [] <==> !WReachable(l, res.origin - 1, dest - 1))
    && (PathTo(res, dest) != [] ==>
          exists ws :: WalkFrom(l, res.origin - 1, dest - 1, ToVertices(PathTo(res, dest)), ws)
                       && ShortestCost(l, res.origin - 1, dest - 1, Cost(ws)))
  }

  lemma TreePaths(l: seq<seq<Entry>>, res: DijkstraResult, rank: seq<nat>, dest: int)
    requires 1 <= res.origin && Sound(l, res.origin - 1, res.dist) && PredTree(l, res.origin - 1, res.dist, res.pred, rank)
    requires 1 <= dest <= |l|
    ensures ResultShape(res) && PathsShortest(l, res, dest)
  {
    PathToMeaning(l, res, rank, dest);
    SoundMeaning(l, res.origin - 1, res.dist, dest - 1);
  }

  /** `dijkstraVetor`: least costs from the origin, infinity exactly for the unreachable. */
  lemma VectorShortest(l: seq<seq<Entry>>, origin: int)
    requires WellFormedW(l) && NonNegative(l) && 1 <= origin <= |l|
    ensures Shortest(l, origin - 1, DijkstraVector(l, origin).dist)
  {
    var _ := VectorDijkstraProof.DijkstraVectorCorrect(l, origin);
    SoundShortest(l, origin - 1, DijkstraVector(l, origin).dist);
  }

  /** `dijkstraHeap`: least costs from the origin, infinity exactly for the unreachable. */
  lemma HeapShortest(l: seq<seq<Entry>>, origin: int)
    requires WellFormedW(l) && NonNegative(l) && 1 <= origin <= |l|
    ensures Shortest(l, origin - 1, DijkstraHeap(l, origin).dist)
  {
    var _ := HeapDijkstraProof.DijkstraHeapCorrect(l, origin);
    SoundShortest(l, origin - 1, DijkstraHeap(l, origin).dist);
  }

  /** `obterCaminho` on a `dijkstraVetor` result returns least-cost walks, and the origin alone for the origin. */
  lemma VectorPaths(l: seq<seq<Entry>>, origin: int, dest: int)
    requires WellFormedW(l) && NonNegative(l) && 1 <= origin <= |l| && 1 <= dest <= |l|
    ensures ResultShape(DijkstraVector(l, origin)) && PathsShortest(l, DijkstraVector(l, origin), dest)
    ensures PathTo(DijkstraVector(l, origin), origin) == [origin]
  {
    var rank := VectorDijkstraProof.DijkstraVectorCorrect(l, origin);
    TreePaths(l, DijkstraVector(l, origin), rank, dest);
    PathToMeaning(l, DijkstraVector(l, origin), rank, dest);
  }

  /** `obterCaminho` on a `dijkstraHeap` result returns least-cost walks, and the origin alone for the origin. */
  lemma HeapPaths(l: seq<seq<Entry>>, origin: int, dest: int)
    requires WellFormedW(l) && NonNegative(l) && 1 <= origin <= |l| && 1 <= dest <= |l|
    ensures ResultShape(DijkstraHeap(l, origin)) && PathsShortest(l, DijkstraHeap(l, origin), dest)
    ensures PathTo(DijkstraHeap(l, origin), origin) == [origin]
  {
    var rank := HeapDijkstraProof.DijkstraHeapCorrect(l, origin);
    TreePaths(l, DijkstraHeap(l, origin), rank, dest);
    PathToMeaning(l, DijkstraHeap(l, origin), rank, dest);
  }

  /** With non-negative weights both versions compute the same distances. */
  lemma VariantsAgree(l: seq<seq<Entry>>, origin: int)
    requires WellFormedW(l) && NonNegative(l) && 1 <= origin <= |l|
    ensures DijkstraVector(l, origin).dist == DijkstraHeap(l, origin).dist
  {
    var _ := VectorDijkstraProof.DijkstraVectorCorrect(l, origin);
    var _ := HeapDijkstraProof.DijkstraHeapCorrect(l, origin);
    SoundUnique(l, origin - 1, DijkstraVector(l, origin).dist, DijkstraHeap(l, origin).dist);
  }
}
