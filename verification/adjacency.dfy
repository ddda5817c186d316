/**
 * The neighbour table every algorithm works on: entry `v` is the sequence
 * `getVizinhos(v)` returns, 0-based. A table is taken from a graph view once
 * (`GraphViews.Table`); the views are read-only, so repeated `getVizinhos`
 * calls return the same sequence.
 */
module Adjacency {

  type Adj = seq<seq<int>>

  /** Every entry names a vertex. */
  predicate AdjOK(adj: Adj) {
    forall v, k | 0 <= v < |adj| && 0 <= k < |adj[v]| :: 0 <= adj[v][k] < |adj|
  }

  /** Every neighbour relation holds in both directions. */
  predicate Symmetric(adj: Adj) {
    forall u, w | 0 <= u < |adj| && 0 <= w < |adj| :: w in adj[u] <==> u in adj[w]
  }
}
