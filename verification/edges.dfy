/**
 * The edge lists produced by the graph reader: a vertex count and 1-based
 * endpoint pairs (and, for weighted graphs, a weight per edge). The
 * constructors of the three adjacency representations assume every endpoint
 * lies in 1..n and do not check it.
 */
module Edges {

  /** An undirected edge between two 1-based vertex ids. */
  type Edge = (int, int)

  /** An undirected weighted edge `(u, v, weight)`. */
  type WeightedEdge = (int, int, real)

  predicate EdgesInRange(n: nat, es: seq<Edge>) {
    forall k | 0 <= k < |es| :: 1 <= es[k].0 <= n && 1 <= es[k].1 <= n
  }

  predicate WeightedEdgesInRange(n: nat, es: seq<WeightedEdge>) {
    forall k | 0 <= k < |es| :: 1 <= es[k].0 <= n && 1 <= es[k].1 <= n
  }

  /** Some edge of the list joins `a` and `b`, in either orientation. */
  predicate Joins(es: seq<Edge>, a: int, b: int) {
    exists k | 0 <= k < |es| :: es[k] == (a, b) || es[k] == (b, a)
  }

  lemma JoinsSnoc(es: seq<Edge>, e: Edge, a: int, b: int)
    ensures Joins(es + [e], a, b) <==> Joins(es, a, b) || e == (a, b) || e == (b, a)
  {
    if Joins(es + [e], a, b) && !(e == (a, b) || e == (b, a)) {
      var k :| 0 <= k < |es + [e]| && ((es + [e])[k] == (a, b) || (es + [e])[k] == (b, a));
      assert k < |es|;
      assert es[k] == (es + [e])[k];
    }
    if Joins(es, a, b) {
      var k :| 0 <= k < |es| && (es[k] == (a, b) || es[k] == (b, a));
      assert (es + [e])[k] == es[k];
    }
    if e == (a, b) || e == (b, a) {
      assert (es + [e])[|es|] == e;
    }
  }
}
