/**
 * Facts shared by the BFS and DFS proofs: the shape of a finished or
 * running search (root, tree links, visit order) and what follows from it
 * about paths.
 */
module SearchTree {
  import opened Common
  import opened Adjacency
  import opened Paths
  import opened Search

  ghost predicate ShapeOK(adj: Adj, s: int, st: SearchState) {
    && Sized(st, |adj|)
    && 0 <= s < |adj|
    && st.marked[s] && st.level[s] == 0 && st.parent[s] == -1
  }

  /** Parent links form a BFS tree rooted at `s`; unvisited vertices keep -1. */
  ghost predicate TreeOK(adj: Adj, s: int, st: SearchState)
    requires Sized(st, |adj|)
  {
    var n := |adj|;
    && (forall v {:trigger st.parent[v]} | 0 <= v < n && v != s && st.marked[v] ::
          && 0 <= st.parent[v] < n
          && st.marked[st.parent[v]]
          && v in adj[st.parent[v]]
          && st.level[v] == st.level[st.parent[v]] + 1)
    && (forall v | 0 <= v < n && !st.marked[v] :: st.parent[v] == -1 && st.level[v] == -1)
    && (forall v | 0 <= v < n && st.marked[v] :: st.level[v] >= 0)
  }

  /** The order lists each visited vertex once, 1-based, starting with the root. */
  ghost predicate OrderOK(n: nat, s: int, st: SearchState)
    requires Sized(st, n)
  {
    && Distinct(st.order)
    && |st.order| >= 1 && st.order[0] == s + 1
    && |st.order| == CountTrue(st.marked)
    && (forall k | 0 <= k < |st.order| :: 1 <= st.order[k] <= n && st.marked[st.order[k] - 1])
    && (forall v | 0 <= v < n && st.marked[v] :: v + 1 in st.order)
  }

  /** The parent of the k-th visited vertex was visited before it. */
  ghost predicate ParentSeen(n: nat, st: SearchState, k: nat)
    requires Sized(st, n) && k < |st.order|
  {
    1 <= st.order[k] <= n ==> st.parent[st.order[k] - 1] + 1 in st.order[..k]
  }

  /** Every visited vertex but the first comes after its parent in the visit order. */
  ghost predicate ParentsFirst(n: nat, st: SearchState)
    requires Sized(st, n)
  {
    forall k | 0 < k < |st.order| :: ParentSeen(n, st, k)
  }

  /** Discovery keeps the tree property. */
  lemma MarkTree(adj: Adj, s: int, st: SearchState, v: nat, w: nat)
    requires AdjOK(adj) && ShapeOK(adj, s, st) && TreeOK(adj, s, st)
    requires v < |adj| && st.marked[v] && w in adj[v] && w < |adj| && !st.marked[w]
    ensures ShapeOK(adj, s, Mark(st, v, w)) && TreeOK(adj, s, Mark(st, v, w))
  {
  }

  lemma MarkOrder(n: nat, s: int, st: SearchState, v: nat, w: nat)
    requires Sized(st, n) && OrderOK(n, s, st) && v < n && w < n && !st.marked[w]
    ensures OrderOK(n, s, Mark(st, v, w))
  {
    var r := Mark(st, v, w);
    assert w + 1 !in st.order;
    assert r.order[0] == st.order[0];
    forall v' | 0 <= v' < n && r.marked[v'] ensures v' + 1 in r.order {
      if v' != w {
        var k :| 0 <= k < |st.order| && st.order[k] == v' + 1;
        assert r.order[k] == v' + 1;
      } else {
        assert r.order[|st.order|] == w + 1;
      }
    }
  }

  /** Discovering `w` from a vertex already in the order keeps parents before children. */
  lemma MarkParentsFirst(n: nat, st: SearchState, v: nat, w: nat)
    requires Sized(st, n) && ParentsFirst(n, st) && v < n && w < n && !st.marked[w]
    requires v + 1 in st.order && w + 1 !in st.order
    ensures ParentsFirst(n, Mark(st, v, w))
  {
    var r := Mark(st, v, w);
    forall k | 0 < k < |r.order| ensures ParentSeen(n, r, k) {
      if k < |st.order| {
        assert ParentSeen(n, st, k);
        assert r.order[k] == st.order[k] && r.order[..k] == st.order[..k];
        assert st.order[k] != w + 1;
      } else {
        assert r.order[..k] == st.order;
      }
    }
  }

  /** The tree read through the 1-based queries `foiVisitado`, `getPai` and `getNivel`. */
  lemma TreeQueries(adj: Adj, s: int, st: SearchState, v: int)
    requires AdjOK(adj) && ShapeOK(adj, s, st) && TreeOK(adj, s, st) && 1 <= v <= |adj|
    ensures WasVisited(st, v) && v != s + 1 ==>
      var p := ParentOf(st, v);
      && 1 <= p <= |adj| && WasVisited(st, p) && v - 1 in adj[p - 1]
      && LevelOf(st, v) == LevelOf(st, p) + 1
    ensures !WasVisited(st, v) ==> ParentOf(st, v) == -1 && LevelOf(st, v) == -1
  {
    assert st.parent[v - 1] == st.parent[v - 1];
  }

  /** Every visited vertex is reached from the root by a path of exactly its level. */
  lemma TreePath(adj: Adj, s: int, st: SearchState, v: int)
    requires AdjOK(adj) && ShapeOK(adj, s, st) && TreeOK(adj, s, st)
    requires 0 <= v < |adj| && st.marked[v]
    ensures exists p :: PathFrom(adj, s, v, p) && |p| == st.level[v] + 1
    decreases st.level[v]
  {
    if v == s {
      ReachRefl(adj, s);
      assert PathFrom(adj, s, s, [s]) && |[s]| == 1;
    } else {
      var u := st.parent[v];
      TreePath(adj, s, st, u);
      var p :| PathFrom(adj, s, u, p) && |p| == st.level[u] + 1;
      PathSnoc(adj, s, u, v, p);
      assert PathFrom(adj, s, v, p + [v]) && |p + [v]| == st.level[v] + 1;
    }
  }

  /**
   * If every neighbour of a visited vertex is visited, the visited
   * vertices are exactly those reachable from the root.
   */
  lemma ClosedReachable(adj: Adj, s: int, st: SearchState, v: int)
    requires AdjOK(adj) && ShapeOK(adj, s, st) && TreeOK(adj, s, st) && 0 <= v < |adj|
    requires forall u, k | 0 <= u < |adj| && st.marked[u] && 0 <= k < |adj[u]| :: st.marked[adj[u][k]]
    ensures st.marked[v] <==> Reachable(adj, s, v)
  {
    if st.marked[v] {
      TreePath(adj, s, st, v);
    }
    if Reachable(adj, s, v) {
      var p :| PathFrom(adj, s, v, p);
      PathMarked(adj, s, st, p);
    }
  }

  lemma {:induction false} PathMarked(adj: Adj, s: int, st: SearchState, p: seq<int>)
    requires AdjOK(adj) && ShapeOK(adj, s, st) && |p| >= 1 && PathFrom(adj, s, p[|p| - 1], p)
    requires forall u, k | 0 <= u < |adj| && st.marked[u] && 0 <= k < |adj[u]| :: st.marked[adj[u][k]]
    ensures st.marked[p[|p| - 1]]
    decreases |p|
  {
    if |p| > 1 {
      var q := p[..|p| - 1];
      assert PathFrom(adj, s, q[|q| - 1], q);
      PathMarked(adj, s, st, q);
      var y := q[|q| - 1];
      assert p[|p| - 1] in adj[y];
    }
  }
}
