/**
 * What a BFS run guarantees: the search tree, the visit order, shortest
 * levels (also after an early stop), completeness without a destination,
 * and the destination rule; plus the agreement of the matrix and list
 * variants on graphs built from the same edges.
 */
module BfsProof {
  import opened Common
  import opened Edges
  import opened Adjacency
  import opened GraphViews
  import opened Paths
  import opened Search
  import opened Bfs
  import opened SearchTree
  import MatrixAdjacency
  import ListAdjacency

  // ---------------------------------------------------------------------
  // The loop invariant. `O` is the list of open vertices: the vertex whose
  // neighbours are being scanned (if any) followed by the queue.
  // ---------------------------------------------------------------------

  /** Open vertices are distinct, visited, and their levels rise by at most one along the list. */
  ghost predicate OpenOK(n: nat, st: SearchState, O: seq<int>)
    requires Sized(st, n)
  {
    && Distinct(O)
    && (forall k | 0 <= k < |O| :: 0 <= O[k] < n && st.marked[O[k]])
    && (forall i, j | 0 <= i < j < |O| :: st.level[O[i]] <= st.level[O[j]])
    && (|O| > 0 ==> st.level[O[|O| - 1]] <= st.level[O[0]] + 1)
  }

  /**
   * A visited vertex that is no longer open has all its neighbours visited,
   * at most one level deeper, and is no deeper than the front of the list.
   */
  ghost predicate ClosedOK(adj: Adj, st: SearchState, O: seq<int>)
    requires AdjOK(adj) && Sized(st, |adj|)
  {
    forall v {:trigger adj[v]} | 0 <= v < |adj| && st.marked[v] && v !in O ::
      && (forall k | 0 <= k < |adj[v]| :: st.marked[adj[v][k]] && st.level[adj[v][k]] <= st.level[v] + 1)
      && (|O| > 0 ==> (0 <= O[0] < |adj| && st.level[v] <= st.level[O[0]]))
  }

  /** The stop flag is set exactly when the destination has been visited, and it was visited last. */
  ghost predicate StopOK(n: nat, s: int, d: int, st: SearchState, stopped: bool)
    requires Sized(st, n)
  {
    && (d == -1 ==> !stopped)
    && (d != -1 ==> 0 <= d < n && d != s && (st.marked[d] <==> stopped))
    && (stopped ==> |st.order| > 0 && st.order[|st.order| - 1] == d + 1)
  }

  ghost predicate Inv(adj: Adj, s: int, d: int, b: BfsRun, O: seq<int>)
    requires AdjOK(adj)
  {
    && Valid(b, |adj|)
    && ShapeOK(adj, s, b.st)
    && TreeOK(adj, s, b.st)
    && OrderOK(|adj|, s, b.st)
    && OpenOK(|adj|, b.st, O)
    && ClosedOK(adj, b.st, O)
    && StopOK(|adj|, s, d, b.st, b.stopped)
  }

  // ---------------------------------------------------------------------
  // Establishing and preserving the invariant.
  // ---------------------------------------------------------------------

  lemma RootInv(adj: Adj, s: nat, d: int)
    requires AdjOK(adj) && s < |adj|
    requires d == -1 || (0 <= d < |adj| && d != s)
    ensures Inv(adj, s, d, Root(|adj|, s), [s])
  {
    var n := |adj|;
    var b := Root(n, s);
    var z := Reset(n);
    assert forall v | 0 <= v < n :: b.st.marked[v] <==> v == s;
    CountTrueNone(z.marked);
    CountTrueSet(z.marked, s);
    assert OrderOK(n, s, b.st);
  }

  /** Discovery from the front vertex appends a vertex one level deeper. */
  lemma MarkOpen(n: nat, st: SearchState, O: seq<int>, w: nat)
    requires Sized(st, n) && OpenOK(n, st, O) && |O| > 0 && w < n && !st.marked[w]
    requires st.level[O[0]] >= 0
    ensures OpenOK(n, Mark(st, O[0], w), O + [w])
  {
    var r := Mark(st, O[0], w);
    var O' := O + [w];
    assert w !in O;
    forall i, j | 0 <= i < j < |O'| ensures r.level[O'[i]] <= r.level[O'[j]] {
      if j < |O| {
        assert O'[i] == O[i] && O'[j] == O[j];
      } else {
        assert O'[i] == O[i];
        if i > 0 {
          assert st.level[O[i]] <= st.level[O[|O| - 1]];
        }
      }
    }
  }

  lemma MarkClosed(adj: Adj, st: SearchState, O: seq<int>, w: nat)
    requires AdjOK(adj) && Sized(st, |adj|) && ClosedOK(adj, st, O)
    requires |O| > 0 && 0 <= O[0] < |adj| && w < |adj| && !st.marked[w]
    ensures ClosedOK(adj, Mark(st, O[0], w), O + [w])
  {
    var r := Mark(st, O[0], w);
    forall v | 0 <= v < |adj| && r.marked[v] && v !in O + [w]
      ensures forall k | 0 <= k < |adj[v]| ::
            r.marked[adj[v][k]] && r.level[adj[v][k]] <= r.level[v] + 1
      ensures r.level[v] <= r.level[O[0]]
    {
      assert v !in O && v != w && st.marked[v] && |adj[v]| >= 0;
      forall k | 0 <= k < |adj[v]|
        ensures r.marked[adj[v][k]] && r.level[adj[v][k]] <= r.level[v] + 1
      {
        assert st.marked[adj[v][k]];
      }
    }
    assert (O + [w])[0] == O[0];
  }

  lemma MarkStop(n: nat, s: int, d: int, st: SearchState, v: nat, w: nat)
    requires Sized(st, n) && StopOK(n, s, d, st, false) && v < n && w < n && !st.marked[w] && w != s
    ensures StopOK(n, s, d, Mark(st, v, w), w == d)
  {
  }

  /** One discovery during the scan of the front vertex `v`. */
  lemma DiscoverInv(adj: Adj, s: int, d: int, b: BfsRun, v: nat, w: nat)
    requires AdjOK(adj) && Inv(adj, s, d, b, [v] + b.queue) && !b.stopped
    requires v < |adj| && w in adj[v] && w < |adj| && !b.st.marked[w]
    ensures Inv(adj, s, d, Discover(b, v, w, d), [v] + Discover(b, v, w, d).queue)
  {
    var O := [v] + b.queue;
    var r := Discover(b, v, w, d);
    assert O[0] == v;
    assert [v] + r.queue == O + [w];
    DiscoverParts(adj, s, d, b.st, O, w);
  }

  /** The parts of the invariant after discovering `w` from the front of the open list. */
  lemma DiscoverParts(adj: Adj, s: int, d: int, st: SearchState, O: seq<int>, w: nat)
    requires AdjOK(adj) && Sized(st, |adj|) && ShapeOK(adj, s, st) && TreeOK(adj, s, st)
    requires OrderOK(|adj|, s, st) && OpenOK(|adj|, st, O) && ClosedOK(adj, st, O)
    requires StopOK(|adj|, s, d, st, false)
    requires |O| > 0 && 0 <= O[0] < |adj| && w in adj[O[0]] && w < |adj| && !st.marked[w]
    ensures var r := Mark(st, O[0], w);
      && ShapeOK(adj, s, r) && TreeOK(adj, s, r) && OrderOK(|adj|, s, r)
      && OpenOK(|adj|, r, O + [w]) && ClosedOK(adj, r, O + [w])
      && StopOK(|adj|, s, d, r, w == d)
  {
    var n := |adj|;
    var v := O[0];
    MarkTree(adj, s, st, v, w);
    MarkOrder(n, s, st, v, w);
    MarkOpen(n, st, O, w);
    MarkClosed(adj, st, O, w);
    MarkStop(n, s, d, st, v, w);
  }

  /** The scan of `v`'s neighbours from position `k` on keeps the invariant. */
  lemma {:induction false} ScanInv(adj: Adj, s: int, d: int, b: BfsRun, v: nat, k: nat)
    requires AdjOK(adj) && v < |adj| && k <= |adj[v]|
    requires Inv(adj, s, d, b, [v] + b.queue) && !b.stopped
    ensures var r := Scan(b, v, adj[v][k..], d); Inv(adj, s, d, r, [v] + r.queue)
    decreases |adj[v]| - k
  {
    var ns := adj[v];
    if k < |ns| {
      var w := ns[k];
      assert ns[k..][0] == w && ns[k..][1..] == ns[k + 1..];
      if !b.st.marked[w] {
        var b1 := Discover(b, v, w, d);
        DiscoverInv(adj, s, d, b, v, w);
        if !b1.stopped {
          ScanInv(adj, s, d, b1, v, k + 1);
        }
      } else {
        ScanInv(adj, s, d, b, v, k + 1);
      }
    }
  }

  /** A scan keeps every mark, and one that does not stop marks all of `ns`. */
  lemma {:induction false} ScanMarks(b: BfsRun, v: nat, ns: seq<int>, d: int)
    requires Valid(b, |b.st.marked|) && v < |b.st.marked|
    requires forall k | 0 <= k < |ns| :: 0 <= ns[k] < |b.st.marked|
    ensures var r := Scan(b, v, ns, d);
      && (forall x | 0 <= x < |b.st.marked| && b.st.marked[x] :: r.st.marked[x])
      && (!r.stopped ==> forall j | 0 <= j < |ns| :: r.st.marked[ns[j]])
    decreases |ns|
  {
    if |ns| > 0 {
      var w := ns[0];
      if b.st.marked[w] {
        ScanMarks(b, v, ns[1..], d);
        assert forall j | 1 <= j < |ns| :: ns[j] == ns[1..][j - 1];
      } else {
        var b1 := Discover(b, v, w, d);
        if !b1.stopped {
          ScanMarks(b1, v, ns[1..], d);
          assert forall j | 1 <= j < |ns| :: ns[j] == ns[1..][j - 1];
        }
      }
    }
  }

  /** Once all neighbours of the front vertex are visited, it becomes closed. */
  lemma CloseInv(adj: Adj, s: int, d: int, b: BfsRun, v: nat)
    requires AdjOK(adj) && v < |adj| && Inv(adj, s, d, b, [v] + b.queue)
    requires forall j | 0 <= j < |adj[v]| :: b.st.marked[adj[v][j]]
    ensures Inv(adj, s, d, b, b.queue)
  {
    OpenTail(|adj|, b.st, v, b.queue);
    FrontBound(adj, b.st, [v] + b.queue);
    CloseFront(adj, b.st, v, b.queue);
  }

  /** Dropping the front of the open list keeps it well ordered. */
  lemma OpenTail(n: nat, st: SearchState, v: int, Q: seq<int>)
    requires Sized(st, n) && OpenOK(n, st, [v] + Q)
    ensures OpenOK(n, st, Q) && v !in Q
    ensures |Q| > 0 ==> st.level[v] <= st.level[Q[0]]
  {
    var O := [v] + Q;
    assert O[0] == v;
    assert forall k | 0 <= k < |Q| :: Q[k] == O[k + 1];
    forall i, j | 0 <= i < j < |Q| ensures st.level[Q[i]] <= st.level[Q[j]] {
      assert Q[i] == O[i + 1] && Q[j] == O[j + 1];
    }
    if |Q| > 0 {
      assert Q[0] == O[1] && Q[|Q| - 1] == O[|O| - 1];
    }
  }

  /** Every visited vertex is at most one level below the front of the open list. */
  lemma FrontBound(adj: Adj, st: SearchState, O: seq<int>)
    requires AdjOK(adj) && Sized(st, |adj|) && OpenOK(|adj|, st, O) && ClosedOK(adj, st, O) && |O| > 0
    ensures forall u | 0 <= u < |adj| && st.marked[u] :: st.level[u] <= st.level[O[0]] + 1
  {
    forall u | 0 <= u < |adj| && st.marked[u] ensures st.level[u] <= st.level[O[0]] + 1 {
      if u in O {
        var k :| 0 <= k < |O| && O[k] == u;
        if k > 0 { assert st.level[O[k]] <= st.level[O[|O| - 1]]; }
      } else {
        assert |adj[u]| >= 0;
      }
    }
  }

  /** The front vertex, all of whose neighbours are visited, is closed. */
  lemma CloseFront(adj: Adj, st: SearchState, v: nat, Q: seq<int>)
    requires AdjOK(adj) && Sized(st, |adj|) && v < |adj|
    requires OpenOK(|adj|, st, [v] + Q) && ClosedOK(adj, st, [v] + Q)
    requires forall j | 0 <= j < |adj[v]| :: st.marked[adj[v][j]]
    requires forall u | 0 <= u < |adj| && st.marked[u] :: st.level[u] <= st.level[v] + 1
    requires |Q| > 0 ==> 0 <= Q[0] < |adj| && st.level[v] <= st.level[Q[0]]
    requires v !in Q
    ensures ClosedOK(adj, st, Q)
  {
    var O := [v] + Q;
    assert O[0] == v;
    forall u | 0 <= u < |adj| && st.marked[u] && u !in Q
      ensures forall k | 0 <= k < |adj[u]| :: st.marked[adj[u][k]] && st.level[adj[u][k]] <= st.level[u] + 1
      ensures |Q| > 0 ==> (0 <= Q[0] < |adj| && st.level[u] <= st.level[Q[0]])
    {
      if u != v {
        assert u !in O && |adj[u]| >= 0;
        assert st.level[u] <= st.level[v];
      }
    }
  }

  /** The outer loop ends stopped (with some open list) or with every visited vertex closed. */
  lemma LoopInv(adj: Adj, s: int, d: int, b: BfsRun)
    requires AdjOK(adj) && Inv(adj, s, d, b, b.queue)
    ensures var r := Loop(adj, b, d);
      && (exists O :: Inv(adj, s, d, r, O))
      && (!r.stopped ==> Inv(adj, s, d, r, []))
    decreases |adj| - CountTrue(b.st.marked), |b.queue|
  {
    if b.stopped || |b.queue| == 0 {
      assert Loop(adj, b, d) == b;
      assert Inv(adj, s, d, b, b.queue);
      if !b.stopped { assert b.queue == []; }
    } else {
      var v := b.queue[0];
      var b0 := b.(queue := b.queue[1..]);
      assert [v] + b0.queue == b.queue;
      assert adj[v][0..] == adj[v];
      ScanInv(adj, s, d, b0, v, 0);
      ScanMarks(b0, v, adj[v], d);
      var b1 := Scan(b0, v, adj[v], d);
      if !b1.stopped {
        CloseInv(adj, s, d, b1, v);
        LoopInv(adj, s, d, b1);
      } else {
        assert Loop(adj, b1, d) == b1;
        assert Inv(adj, s, d, b1, [v] + b1.queue);
      }
    }
  }

  // ---------------------------------------------------------------------
  // Consequences of the invariant.
  // ---------------------------------------------------------------------

  /**
   * Along any path from the root: a visited end vertex has level at most the
   * path length; an unvisited one lies beyond the open frontier.
   */
  lemma {:induction false} PathBound(adj: Adj, s: int, d: int, b: BfsRun, O: seq<int>, p: seq<int>)
    requires AdjOK(adj) && Inv(adj, s, d, b, O) && |p| >= 1 && PathFrom(adj, s, p[|p| - 1], p)
    ensures var z := p[|p| - 1];
      || (b.st.marked[z] && b.st.level[z] <= |p| - 1)
      || (!b.st.marked[z] && |O| > 0 && b.st.level[O[0]] + 1 <= |p| - 1)
    decreases |p|
  {
    if |p| > 1 {
      var q := p[..|p| - 1];
      var y := q[|q| - 1];
      assert PathFrom(adj, s, y, q);
      PathBound(adj, s, d, b, O, q);
      PathStep(adj, b.st, O, y, p[|p| - 1], |q| - 1);
    }
  }

  /** One more edge along a path keeps the bound of `PathBound`. */
  lemma PathStep(adj: Adj, st: SearchState, O: seq<int>, y: int, z: int, L: int)
    requires AdjOK(adj) && Sized(st, |adj|) && OpenOK(|adj|, st, O) && ClosedOK(adj, st, O)
    requires 0 <= y < |adj| && z in adj[y]
    requires || (st.marked[y] && st.level[y] <= L)
             || (!st.marked[y] && |O| > 0 && st.level[O[0]] + 1 <= L)
    ensures || (st.marked[z] && st.level[z] <= L + 1)
            || (!st.marked[z] && |O| > 0 && st.level[O[0]] + 1 <= L + 1)
  {
    var k :| 0 <= k < |adj[y]| && adj[y][k] == z;
    if |O| > 0 {
      FrontBound(adj, st, O);
    }
    if st.marked[y] && y in O {
      var i :| 0 <= i < |O| && O[i] == y;
      if i > 0 { assert st.level[O[0]] <= st.level[O[i]]; }
    }
  }

  /** Visited vertices carry their shortest distance as level. */
  lemma LevelIsShortest(adj: Adj, s: int, d: int, b: BfsRun, O: seq<int>, v: int)
    requires AdjOK(adj) && Inv(adj, s, d, b, O) && 0 <= v < |adj| && b.st.marked[v]
    ensures b.st.level[v] >= 0 && ShortestIs(adj, s, v, b.st.level[v])
  {
    TreePath(adj, s, b.st, v);
    forall p | PathFrom(adj, s, v, p) ensures |p| >= b.st.level[v] + 1 {
      PathBound(adj, s, d, b, O, p);
    }
  }

  /** With nothing open, visited means reachable. */
  lemma ClosedMeansReachable(adj: Adj, s: int, d: int, b: BfsRun, v: int)
    requires AdjOK(adj) && Inv(adj, s, d, b, []) && 0 <= v < |adj|
    ensures b.st.marked[v] <==> Reachable(adj, s, v)
  {
    if b.st.marked[v] {
      TreePath(adj, s, b.st, v);
    }
    if Reachable(adj, s, v) {
      var p :| PathFrom(adj, s, v, p);
      PathBound(adj, s, d, b, [], p);
    }
  }

  /** The final state of a successful run, together with an open list for it. */
  lemma RunInv(adj: Adj, start: int, target: int) returns (b: BfsRun, O: seq<int>, D: int)
    requires AdjOK(adj) && Run(adj, start, target).Ok?
    ensures var s := start - 1;
      var d := if target == -1 then -1 else target - 1;
      && Run(adj, start, target).value == b.st
      && D == (if d == s then -1 else d)
      && Inv(adj, s, D, b, O)
      && (d == s ==> b == Root(|adj|, s))
      && (d != s && !b.stopped ==> O == [])
  {
    var n := |adj|;
    var s := start - 1;
    var d := if target == -1 then -1 else target - 1;
    var b0 := Root(n, s);
    if d != -1 && s == d {
      RootInv(adj, s, -1);
      b, O, D := b0, [s], -1;
    } else {
      D := d;
      RootInv(adj, s, d);
      assert [s] == b0.queue;
      LoopInv(adj, s, d, b0);
      b := Loop(adj, b0, d);
      if !b.stopped {
        O := [];
      } else {
        O :| Inv(adj, s, d, b, O);
      }
    }
  }

  // ---------------------------------------------------------------------
  // The guarantees of a run, in terms of the public accessors.
  // ---------------------------------------------------------------------

  /** The tree and order facts of a successful run's final state. */
  lemma RunTree(adj: Adj, start: int, target: int) returns (st: SearchState)
    requires AdjOK(adj) && Run(adj, start, target).Ok?
    ensures st == Run(adj, start, target).value
    ensures ShapeOK(adj, start - 1, st) && TreeOK(adj, start - 1, st) && OrderOK(|adj|, start - 1, st)
  {
    var b, O, D := RunInv(adj, start, target);
    st := b.st;
  }

  /** The root is visited with level 0, no parent, and first in the order. */
  lemma BfsRoot(adj: Adj, start: int, target: int)
    requires AdjOK(adj) && Run(adj, start, target).Ok?
    ensures var st := Run(adj, start, target).value;
      && WasVisited(st, start) && ParentOf(st, start) == -1 && LevelOf(st, start) == 0
      && |st.order| >= 1 && st.order[0] == start
  {
    var st := RunTree(adj, start, target);
  }

  /**
   * The search tree: a visited vertex other than the start has a visited
   * parent of which it is a neighbour, one level up; an unvisited vertex
   * reports parent -1 and level -1.
   */
  lemma BfsTree(adj: Adj, start: int, target: int, v: int)
    requires AdjOK(adj) && Run(adj, start, target).Ok? && 1 <= v <= |adj|
    ensures var st := Run(adj, start, target).value;
      && (WasVisited(st, v) && v != start ==>
            var p := ParentOf(st, v);
            && 1 <= p <= |adj| && WasVisited(st, p) && v - 1 in adj[p - 1]
            && LevelOf(st, v) == LevelOf(st, p) + 1)
      && (!WasVisited(st, v) ==> ParentOf(st, v) == -1 && LevelOf(st, v) == -1)
  {
    var st := RunTree(adj, start, target);
    TreeQueries(adj, start - 1, st, v);
  }

  /**
   * The visit order lists every visited vertex exactly once (1-based), and
   * nothing else; its length is the number of visited vertices.
   */
  lemma BfsOrder(adj: Adj, start: int, target: int)
    requires AdjOK(adj) && Run(adj, start, target).Ok?
    ensures var st := Run(adj, start, target).value;
      && Distinct(st.order)
      && |st.order| == CountTrue(st.marked)
      && forall x :: x in st.order <==> WasVisited(st, x)
  {
    var st := RunTree(adj, start, target);
    forall x ensures x in st.order <==> WasVisited(st, x) {
      if x in st.order {
        var k :| 0 <= k < |st.order| && st.order[k] == x;
      }
      if WasVisited(st, x) {
        assert st.marked[x - 1];
      }
    }
  }

  /**
   * Every visited vertex's level is its distance from the start: the
   * fewest edges on any path. This holds after an early stop too.
   */
  lemma BfsShortest(adj: Adj, start: int, target: int, v: int)
    requires AdjOK(adj) && Run(adj, start, target).Ok?
    requires WasVisited(Run(adj, start, target).value, v)
    ensures var st := Run(adj, start, target).value;
      LevelOf(st, v) >= 0 && ShortestIs(adj, start - 1, v - 1, LevelOf(st, v))
  {
    var b, O, D := RunInv(adj, start, target);
    LevelIsShortest(adj, start - 1, D, b, O, v - 1);
  }

  /** Without a destination the visited vertices are exactly those reachable from the start. */
  lemma BfsComplete(adj: Adj, start: int, v: int)
    requires AdjOK(adj) && Run(adj, start, -1).Ok?
    ensures WasVisited(Run(adj, start, -1).value, v) <==> 1 <= v <= |adj| && Reachable(adj, start - 1, v - 1)
  {
    var b, O, D := RunInv(adj, start, -1);
    if 1 <= v <= |adj| {
      ClosedMeansReachable(adj, start - 1, -1, b, v - 1);
    }
  }

  /**
   * With a destination: it is visited exactly when it is reachable, and
   * then it is the last vertex in the order (the search stops there).
   */
  lemma BfsTarget(adj: Adj, start: int, target: int)
    requires AdjOK(adj) && Run(adj, start, target).Ok? && target != -1
    ensures var st := Run(adj, start, target).value;
      && (WasVisited(st, target) <==> Reachable(adj, start - 1, target - 1))
      && |st.order| >= 1
      && (Reachable(adj, start - 1, target - 1) ==> st.order[|st.order| - 1] == target)
  {
    var b, O, D := RunInv(adj, start, target);
    var s, d := start - 1, target - 1;
    if d == s {
      ReachRefl(adj, s);
      assert b.st.order == [start];
    } else {
      TargetFacts(adj, s, D, b, O);
    }
  }

  /** The destination rule in terms of the invariant, for a destination other than the root. */
  lemma TargetFacts(adj: Adj, s: int, d: int, b: BfsRun, O: seq<int>)
    requires AdjOK(adj) && Inv(adj, s, d, b, O) && d != -1 && (!b.stopped ==> O == [])
    ensures 0 <= d < |adj| && |b.st.order| >= 1
    ensures b.st.marked[d] <==> Reachable(adj, s, d)
    ensures b.st.marked[d] ==> b.st.order[|b.st.order| - 1] == d + 1
  {
    if b.stopped {
      TreePath(adj, s, b.st, d);
    } else {
      ClosedMeansReachable(adj, s, d, b, d);
    }
  }

  // ---------------------------------------------------------------------
  // Matrix and list variants.
  // ---------------------------------------------------------------------

  /**
   * Scanning a neighbour sequence or the same sequence with repetitions and
   * already-visited vertices removed gives the same state.
   */
  lemma {:induction false} ScanDedup(b: BfsRun, v: nat, ns: seq<int>, S: set<int>, d: int)
    requires Valid(b, |b.st.marked|) && v < |b.st.marked|
    requires forall k | 0 <= k < |ns| :: 0 <= ns[k] < |b.st.marked|
    requires forall x | x in S :: 0 <= x < |b.st.marked| && b.st.marked[x]
    ensures forall k | 0 <= k < |DedupFrom(ns, S)| :: 0 <= DedupFrom(ns, S)[k] < |b.st.marked|
    ensures Scan(b, v, ns, d) == Scan(b, v, DedupFrom(ns, S), d)
    decreases |ns|
  {
    var r := DedupFrom(ns, S);
    forall k | 0 <= k < |r| ensures 0 <= r[k] < |b.st.marked| {
      assert r[k] in r;
      var j :| 0 <= j < |ns| && ns[j] == r[k];
    }
    if |ns| > 0 {
      var w := ns[0];
      if w in S {
        ScanDedup(b, v, ns[1..], S, d);
      } else if b.st.marked[w] {
        ScanDedup(b, v, ns[1..], S + {w}, d);
        assert r == [w] + DedupFrom(ns[1..], S + {w});
        assert r[1..] == DedupFrom(ns[1..], S + {w});
      } else {
        var b1 := Discover(b, v, w, d);
        assert r == [w] + DedupFrom(ns[1..], S + {w});
        assert r[1..] == DedupFrom(ns[1..], S + {w});
        if !b1.stopped {
          ScanDedup(b1, v, ns[1..], S + {w}, d);
        }
      }
    }
  }

  /** Two tables whose rows agree up to repetitions drive the loop identically. */
  lemma {:induction false} LoopDedup(adj1: Adj, adj2: Adj, b: BfsRun, d: int)
    requires AdjOK(adj1) && AdjOK(adj2) && |adj1| == |adj2| && Valid(b, |adj1|)
    requires forall v | 0 <= v < |adj1| :: adj1[v] == DedupFrom(adj2[v], {})
    ensures Loop(adj1, b, d) == Loop(adj2, b, d)
    decreases |adj1| - CountTrue(b.st.marked), |b.queue|
  {
    if !b.stopped && |b.queue| > 0 {
      var v := b.queue[0];
      var b0 := b.(queue := b.queue[1..]);
      ScanDedup(b0, v, adj2[v], {}, d);
      LoopDedup(adj1, adj2, Scan(b0, v, adj1[v], d), d);
    }
  }

  /**
   * `executarBFS_Matriz` and `executarBFS_Lista` on the matrix and the
   * lists built from the same edge list give identical results.
   */
  lemma BfsVariantsAgree(n: nat, es: seq<Edge>, start: int, target: int)
    requires EdgesInRange(n, es)
    ensures && WellFormed(MatrixView(MatrixAdjacency.Build(n, es)))
            && WellFormed(ListView(ListAdjacency.Build(n, es)))
            && RunMatrix(MatrixAdjacency.Build(n, es), start, target)
               == RunList(ListAdjacency.Build(n, es), start, target)
  {
    MatrixBuildView(n, es);
    ListBuildView(n, es);
    var adj1 := Table(MatrixView(MatrixAdjacency.Build(n, es)));
    var adj2 := Table(ListView(ListAdjacency.Build(n, es)));
    forall v | 0 <= v < n ensures adj1[v] == DedupFrom(adj2[v], {}) {
      MatrixListNeighbors(n, es, v);
    }
    if Run(adj1, start, target).Ok? {
      var s := start - 1;
      var d := if target == -1 then -1 else target - 1;
      if !(d != -1 && s == d) {
        LoopDedup(adj1, adj2, Root(n, s), d);
      }
    }
  }
}
