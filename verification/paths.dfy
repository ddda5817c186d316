/**
 * Walks in an unweighted neighbour table, and reachability. A path is a
 * non-empty sequence of 0-based vertices in which each vertex is a
 * neighbour (per `getVizinhos`) of the one before; its length in edges is
 * one less than its number of vertices.
 */
module Paths {
  import opened Common
  import opened Adjacency

  predicate IsPath(adj: Adj, p: seq<int>)
    requires AdjOK(adj)
  {
    && |p| >= 1
    && (forall i | 0 <= i < |p| :: 0 <= p[i] < |adj|)
    && (forall i | 0 <= i < |p| - 1 :: p[i + 1] in adj[p[i]])
  }

  /** `p` is a path from `a` to `b`. */
  predicate PathFrom(adj: Adj, a: int, b: int, p: seq<int>)
    requires AdjOK(adj)
  {
    IsPath(adj, p) && p[0] == a && p[|p| - 1] == b
  }

  ghost predicate Reachable(adj: Adj, a: int, b: int)
    requires AdjOK(adj)
  {
    exists p :: PathFrom(adj, a, b, p)
  }

  /** `d` is the least number of edges on a path from `a` to `b`. */
  ghost predicate ShortestIs(adj: Adj, a: int, b: int, d: nat)
    requires AdjOK(adj)
  {
    && (exists p :: PathFrom(adj, a, b, p) && |p| == d + 1)
    && (forall p | PathFrom(adj, a, b, p) :: |p| >= d + 1)
  }

  lemma ReachRefl(adj: Adj, a: int)
    requires AdjOK(adj) && 0 <= a < |adj|
    ensures PathFrom(adj, a, a, [a])
    ensures Reachable(adj, a, a)
  {
    assert PathFrom(adj, a, a, [a]);
  }

  /** Extending a path by one neighbour. */
  lemma PathSnoc(adj: Adj, a: int, b: int, c: int, p: seq<int>)
    requires AdjOK(adj) && PathFrom(adj, a, b, p) && c in adj[b]
    ensures PathFrom(adj, a, c, p + [c])
  {
    var q := p + [c];
    forall i | 0 <= i < |q| ensures 0 <= q[i] < |adj| {
      if i == |p| {
        var k :| 0 <= k < |adj[b]| && adj[b][k] == c;
      }
    }
    forall i | 0 <= i < |q| - 1 ensures q[i + 1] in adj[q[i]] {
      if i < |p| - 1 {
        assert q[i] == p[i] && q[i + 1] == p[i + 1];
      }
    }
  }

  lemma ReachStep(adj: Adj, a: int, b: int, c: int)
    requires AdjOK(adj) && Reachable(adj, a, b) && c in adj[b]
    ensures Reachable(adj, a, c)
  {
    var p :| PathFrom(adj, a, b, p);
    PathSnoc(adj, a, b, c, p);
  }

  /** Concatenating paths `a ~> b` and `b ~> c`. */
  lemma {:induction false} PathConcat(adj: Adj, a: int, b: int, c: int, p: seq<int>, q: seq<int>)
    requires AdjOK(adj) && PathFrom(adj, a, b, p) && PathFrom(adj, b, c, q)
    ensures PathFrom(adj, a, c, p + q[1..])
    decreases |q|
  {
    if |q| == 1 {
      assert p + q[1..] == p;
    } else {
      var q0 := q[..|q| - 1];
      assert PathFrom(adj, b, q[|q| - 2], q0);
      PathConcat(adj, a, b, q[|q| - 2], p, q0);
      PathSnoc(adj, a, q[|q| - 2], c, p + q0[1..]);
      assert p + q0[1..] + [c] == p + q[1..];
    }
  }

  lemma ReachTrans(adj: Adj, a: int, b: int, c: int)
    requires AdjOK(adj) && Reachable(adj, a, b) && Reachable(adj, b, c)
    ensures Reachable(adj, a, c)
  {
    var p :| PathFrom(adj, a, b, p);
    var q :| PathFrom(adj, b, c, q);
    PathConcat(adj, a, b, c, p, q);
  }

  function Reverse(p: seq<int>): (r: seq<int>)
    ensures |r| == |p| && forall i | 0 <= i < |p| :: r[i] == p[|p| - 1 - i]
  {
    seq(|p|, i requires 0 <= i < |p| => p[|p| - 1 - i])
  }

  /** In an undirected view a reversed path is a path. */
  lemma PathReverse(adj: Adj, a: int, b: int, p: seq<int>)
    requires AdjOK(adj) && Symmetric(adj) && PathFrom(adj, a, b, p)
    ensures PathFrom(adj, b, a, Reverse(p))
  {
    var r := Reverse(p);
    forall i | 0 <= i < |r| - 1 ensures r[i + 1] in adj[r[i]] {
      var j := |p| - 2 - i;
      assert r[i] == p[j + 1] && r[i + 1] == p[j];
      assert p[j + 1] in adj[p[j]];
    }
  }

  lemma ReachSym(adj: Adj, a: int, b: int)
    requires AdjOK(adj) && Symmetric(adj) && Reachable(adj, a, b)
    ensures Reachable(adj, b, a)
  {
    var p :| PathFrom(adj, a, b, p);
    PathReverse(adj, a, b, p);
  }

  /** Every vertex of a path is reachable from its start. */
  lemma PrefixReach(adj: Adj, a: int, p: seq<int>, k: nat)
    requires AdjOK(adj) && IsPath(adj, p) && p[0] == a && k < |p|
    ensures PathFrom(adj, a, p[k], p[..k + 1])
  {
  }
  /**
   * A duplicate-free sequence of values below `n` has at most `n` entries:
   * dropping the last value `x` and closing the gap above `x` leaves a
   * duplicate-free sequence of values below `n - 1`.
   */
  lemma {:induction false} DistinctBound(p: seq<int>, n: nat)
    requires Distinct(p) && forall i | 0 <= i < |p| :: 0 <= p[i] < n
    ensures |p| <= n
    decreases |p|
  {
    if |p| > 0 {
      var x := p[|p| - 1];
      var q := seq(|p| - 1, k requires 0 <= k < |p| - 1 => if p[k] > x then p[k] - 1 else p[k]);
      forall i, j | 0 <= i < j < |q| ensures q[i] != q[j] {
        assert p[i] != p[j] && p[i] != x && p[j] != x;
      }
      forall k | 0 <= k < |q| ensures 0 <= q[k] < n - 1 {
        assert p[k] != x;
      }
      DistinctBound(q, n - 1);
    }
  }

  /** Cutting out the loop between two visits of the same vertex leaves a path with the same ends. */
  lemma PathCut(adj: Adj, a: int, b: int, p: seq<int>, i: nat, j: nat)
    requires AdjOK(adj) && PathFrom(adj, a, b, p) && i < j < |p| && p[i] == p[j]
    ensures PathFrom(adj, a, b, p[..i] + p[j..]) && |p[..i] + p[j..]| < |p|
  {
    var q := p[..i] + p[j..];
    forall k | 0 <= k < |q| ensures q[k] == (if k < i then p[k] else p[k + j - i]) {
    }
    forall k | 0 <= k < |q| - 1 ensures q[k + 1] in adj[q[k]] {
      if k + 1 < i {
        assert p[k + 1] in adj[p[k]];
      } else if k + 1 == i {
        assert p[i] in adj[p[i - 1]];
      } else {
        assert p[k + 1 + j - i] in adj[p[k + j - i]];
      }
    }
  }

  /** Any walk can be shortened to one through at most `n` vertices. */
  lemma {:induction false} PathShortcut(adj: Adj, a: int, b: int, p: seq<int>) returns (q: seq<int>)
    requires AdjOK(adj) && PathFrom(adj, a, b, p)
    ensures PathFrom(adj, a, b, q) && |q| <= |adj| && |q| <= |p|
    decreases |p|
  {
    if Distinct(p) {
      DistinctBound(p, |adj|);
      q := p;
    } else {
      var i, j :| 0 <= i < j < |p| && p[i] == p[j];
      PathCut(adj, a, b, p, i, j);
      q := PathShortcut(adj, a, b, p[..i] + p[j..]);
    }
  }

  /** Every shortest distance is below the number of vertices. */
  lemma ShortestBound(adj: Adj, a: int, b: int, d: nat)
    requires AdjOK(adj) && ShortestIs(adj, a, b, d)
    ensures d < |adj|
  {
    var p :| PathFrom(adj, a, b, p) && |p| == d + 1;
    var q := PathShortcut(adj, a, b, p);
  }
}
