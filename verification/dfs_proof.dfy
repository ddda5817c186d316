/**
 * What a DFS run guarantees: the start is the root, parent links form a
 * search tree, the visit order lists each visited vertex once, the visited
 * vertices are exactly the reachable ones, and the depth-first rule: right
 * after a vertex the search visits that vertex's first neighbour (in
 * neighbour order) not yet visited, whenever there is one.
 */
module DfsProof {
  import opened Common
  import opened Adjacency
  import opened Paths
  import opened Search
  import opened SearchTree
  import opened Dfs

  // ---------------------------------------------------------------------
  // The depth-first rule.
  // ---------------------------------------------------------------------

  /** Index of the first entry of `ns` whose 1-based id is not in `seen`; |ns| if none. */
  function FirstUnseen(ns: seq<int>, seen: seq<int>): (i: nat)
    ensures i <= |ns|
    ensures forall j | 0 <= j < i :: ns[j] + 1 in seen
    ensures i < |ns| ==> ns[i] + 1 !in seen
    decreases |ns|
  {
    if |ns| == 0 || ns[0] + 1 !in seen then 0 else 1 + FirstUnseen(ns[1..], seen)
  }

  /** The entry of the visit order after `order[k]` obeys the depth-first rule. */
  ghost predicate DeepAt(adj: Adj, st: SearchState, k: int)
    requires AdjOK(adj) && Sized(st, |adj|)
    requires 0 <= k < |st.order| && 1 <= st.order[k] <= |adj|
  {
    var u := st.order[k] - 1;
    var i := FirstUnseen(adj[u], st.order[..k + 1]);
    i < |adj[u]| ==>
      && k + 1 < |st.order|
      && st.order[k + 1] == adj[u][i] + 1
      && st.parent[adj[u][i]] == u
  }

  // ---------------------------------------------------------------------
  // The loop invariant, for the states after the start has been visited.
  // ---------------------------------------------------------------------

  /** Every stacked entry was pushed from a visited vertex of which it is a neighbour. */
  ghost predicate StackOK(adj: Adj, st: SearchState, stack: seq<(int, int)>)
    requires Sized(st, |adj|)
  {
    forall k | 0 <= k < |stack| ::
      && 0 <= stack[k].0 < |adj| && 0 <= stack[k].1 < |adj|
      && st.marked[stack[k].1] && stack[k].0 in adj[stack[k].1]
  }

  predicate Pending(stack: seq<(int, int)>, w: int) {
    exists j | 0 <= j < |stack| :: stack[j].0 == w
  }

  /** Every neighbour of a visited vertex is visited or still on the stack. */
  ghost predicate FrontierOK(adj: Adj, st: SearchState, stack: seq<(int, int)>)
    requires AdjOK(adj) && Sized(st, |adj|)
  {
    forall v {:trigger adj[v]} | 0 <= v < |adj| && st.marked[v] ::
      forall k | 0 <= k < |adj[v]| :: st.marked[adj[v][k]] || Pending(stack, adj[v][k])
  }

  /** The visit order is non-empty and holds vertex ids. */
  predicate OrderIn(adj: Adj, st: SearchState) {
    |st.order| >= 1 && forall k | 0 <= k < |st.order| :: 1 <= st.order[k] <= |adj|
  }

  /** The rule holds for every vertex but the last visited one. */
  ghost predicate DeepOK(adj: Adj, st: SearchState)
    requires AdjOK(adj) && Sized(st, |adj|) && OrderIn(adj, st)
  {
    forall k | 0 <= k < |st.order| - 1 :: DeepAt(adj, st, k)
  }

  /** If the last visited vertex has an unvisited neighbour, the first one is on top of the stack. */
  ghost predicate TopOK(adj: Adj, st: SearchState, stack: seq<(int, int)>)
    requires AdjOK(adj) && Sized(st, |adj|) && OrderIn(adj, st)
  {
    var u := st.order[|st.order| - 1] - 1;
    var i := FirstUnseen(adj[u], st.order);
    i < |adj[u]| ==> |stack| > 0 && stack[|stack| - 1] == (adj[u][i], u)
  }

  ghost predicate Inv(adj: Adj, s: int, r: DfsRun)
    requires AdjOK(adj)
  {
    && Valid(r, |adj|)
    && ShapeOK(adj, s, r.st)
    && TreeOK(adj, s, r.st)
    && OrderOK(|adj|, s, r.st)
    && ParentsFirst(|adj|, r.st)
    && StackOK(adj, r.st, r.stack)
    && FrontierOK(adj, r.st, r.stack)
    && DeepOK(adj, r.st)
    && TopOK(adj, r.st, r.stack)
  }

  // ---------------------------------------------------------------------
  // Facts about the pushes.
  // ---------------------------------------------------------------------

  /** Every unmarked neighbour is pushed. */
  lemma {:induction false} PushesCover(marked: seq<bool>, u: int, ns: seq<int>, k: nat)
    requires forall j | 0 <= j < |ns| :: 0 <= ns[j] < |marked|
    requires k < |ns| && !marked[ns[k]]
    ensures Pending(Pushes(marked, u, ns), ns[k])
    decreases |ns|
  {
    var r := Pushes(marked, u, ns);
    var rest := Pushes(marked, u, ns[1..]);
    if k == 0 {
      assert r[|r| - 1] == (ns[0], u);
    } else {
      PushesCover(marked, u, ns[1..], k - 1);
      var j :| 0 <= j < |rest| && rest[j].0 == ns[k];
      assert r[j] == rest[j];
    }
  }

  /** The first unmarked neighbour is pushed last, so it is on top. */
  lemma {:induction false} PushesTop(marked: seq<bool>, u: int, ns: seq<int>, i: nat)
    requires forall j | 0 <= j < |ns| :: 0 <= ns[j] < |marked|
    requires i < |ns| && !marked[ns[i]] && forall j | 0 <= j < i :: marked[ns[j]]
    ensures var r := Pushes(marked, u, ns); |r| > 0 && r[|r| - 1] == (ns[i], u)
    decreases |ns|
  {
    if i > 0 {
      PushesTop(marked, u, ns[1..], i - 1);
    }
  }

  /** With marks matching the order, the first unseen neighbour is the first unmarked one. */
  lemma FirstUnseenUnmarked(adj: Adj, s: int, st: SearchState, u: nat)
    requires AdjOK(adj) && Sized(st, |adj|) && OrderOK(|adj|, s, st) && u < |adj|
    ensures var i := FirstUnseen(adj[u], st.order);
      && (forall j | 0 <= j < i :: st.marked[adj[u][j]])
      && (i < |adj[u]| ==> !st.marked[adj[u][i]])
  {
    var i := FirstUnseen(adj[u], st.order);
    forall j | 0 <= j < i ensures st.marked[adj[u][j]] {
      var x := adj[u][j] + 1;
      assert x in st.order;
      var k :| 0 <= k < |st.order| && st.order[k] == x;
    }
  }

  // ---------------------------------------------------------------------
  // Establishing and preserving the invariant.
  // ---------------------------------------------------------------------

  /** Popping a visited vertex keeps the stack facts. */
  lemma SkipStack(adj: Adj, st: SearchState, stack: seq<(int, int)>)
    requires AdjOK(adj) && Sized(st, |adj|) && |stack| > 0
    requires StackOK(adj, st, stack) && FrontierOK(adj, st, stack)
    requires 0 <= stack[|stack| - 1].0 < |adj| && st.marked[stack[|stack| - 1].0]
    ensures StackOK(adj, st, stack[..|stack| - 1]) && FrontierOK(adj, st, stack[..|stack| - 1])
  {
    var rest := stack[..|stack| - 1];
    forall v | 0 <= v < |adj| && st.marked[v]
      ensures forall k | 0 <= k < |adj[v]| :: st.marked[adj[v][k]] || Pending(rest, adj[v][k])
    {
      forall k | 0 <= k < |adj[v]| ensures st.marked[adj[v][k]] || Pending(rest, adj[v][k]) {
        var w := adj[v][k];
        if !st.marked[w] {
          assert |adj[v]| >= 0;
          var j :| 0 <= j < |stack| && stack[j].0 == w;
          assert rest[j].0 == w;
        }
      }
    }
  }

  /** Popping a visited vertex keeps the top fact: the demanded vertex is unvisited, so it was not the top. */
  lemma SkipTop(adj: Adj, s: int, st: SearchState, stack: seq<(int, int)>)
    requires AdjOK(adj) && Sized(st, |adj|) && OrderOK(|adj|, s, st) && |stack| > 0
    requires TopOK(adj, st, stack)
    requires 0 <= stack[|stack| - 1].0 < |adj| && st.marked[stack[|stack| - 1].0]
    ensures TopOK(adj, st, stack[..|stack| - 1])
  {
    var u := st.order[|st.order| - 1] - 1;
    var i := FirstUnseen(adj[u], st.order);
    if i < |adj[u]| {
      FirstUnseenUnmarked(adj, s, st, u);
    }
  }

  /** The stack facts after visiting `u`, popped as (u, p) from `rest + [(u, p)]`. */
  lemma EnterStack(adj: Adj, st: SearchState, u: nat, p: int, rest: seq<(int, int)>)
    requires AdjOK(adj) && Sized(st, |adj|) && u < |adj| && 0 <= p < |adj| && !st.marked[u]
    requires StackOK(adj, st, rest) && FrontierOK(adj, st, rest + [(u, p)])
    ensures var st' := Enter(st, u, p);
      var stack' := rest + Pushes(st'.marked, u, adj[u]);
      StackOK(adj, st', stack') && FrontierOK(adj, st', stack')
  {
    var stack := rest + [(u, p)];
    var st' := Enter(st, u, p);
    var P := Pushes(st'.marked, u, adj[u]);
    var stack' := rest + P;
    forall k | 0 <= k < |stack'|
      ensures 0 <= stack'[k].0 < |adj| && 0 <= stack'[k].1 < |adj|
      ensures st'.marked[stack'[k].1] && stack'[k].0 in adj[stack'[k].1]
    {
      if k < |rest| {
        assert stack'[k] == rest[k];
      } else {
        assert stack'[k] == P[k - |rest|];
      }
    }
    forall v | 0 <= v < |adj| && st'.marked[v]
      ensures forall k | 0 <= k < |adj[v]| :: st'.marked[adj[v][k]] || Pending(stack', adj[v][k])
    {
      forall k | 0 <= k < |adj[v]| ensures st'.marked[adj[v][k]] || Pending(stack', adj[v][k]) {
        var w := adj[v][k];
        if !st'.marked[w] {
          if v == u {
            PushesCover(st'.marked, u, adj[u], k);
            var j :| 0 <= j < |P| && P[j].0 == w;
            assert stack'[|rest| + j] == P[j];
          } else {
            assert |adj[v]| >= 0;
            var j :| 0 <= j < |stack| && stack[j].0 == w;
            assert stack'[j] == rest[j];
          }
        }
      }
    }
  }

  /**
   * The depth-first rule after visiting `u`, popped as (u, p): `st2` is the
   * state after the visit, which appends `u` to the order and changes only
   * the parent of `u`.
   */
  lemma DeepAfterVisit(adj: Adj, st: SearchState, st2: SearchState, u: nat, p: int)
    requires AdjOK(adj) && Sized(st, |adj|) && Sized(st2, |adj|) && u < |adj|
    requires OrderIn(adj, st) && DeepOK(adj, st) && forall k | 0 <= k < |st.order| :: st.order[k] != u + 1
    requires var w := st.order[|st.order| - 1] - 1;
      FirstUnseen(adj[w], st.order) < |adj[w]| ==> u == adj[w][FirstUnseen(adj[w], st.order)] && p == w
    requires st2.order == st.order + [u + 1] && st2.parent == st.parent[u := p]
    ensures DeepOK(adj, st2)
  {
    var n := |st.order|;
    forall k | 0 <= k < |st2.order| - 1 ensures DeepAt(adj, st2, k) {
      if k < n - 1 {
        DeepKept(adj, st, st2, u, p, k);
      } else {
        DeepLast(adj, st, st2, st.order[n - 1] - 1, u, p);
      }
    }
  }

  /** The rule for the vertex `w` visited before `u`: `u` is its first unvisited neighbour, from the top of the stack. */
  lemma DeepLast(adj: Adj, st: SearchState, st2: SearchState, w: nat, u: nat, p: int)
    requires AdjOK(adj) && Sized(st2, |adj|) && w < |adj| && u < |adj|
    requires |st.order| >= 1 && st.order[|st.order| - 1] == w + 1
    requires FirstUnseen(adj[w], st.order) < |adj[w]| ==> u == adj[w][FirstUnseen(adj[w], st.order)] && p == w
    requires st2.order == st.order + [u + 1] && st2.parent[u] == p
    ensures DeepAt(adj, st2, |st.order| - 1)
  {
    var n := |st.order|;
    assert st2.order[..n] == st.order;
    assert st2.order[n - 1] == w + 1 && st2.order[n] == u + 1;
  }

  /** The rule for an earlier vertex survives appending `u`, which changes only the parent of `u`. */
  lemma DeepKept(adj: Adj, st: SearchState, st2: SearchState, u: nat, p: int, k: nat)
    requires AdjOK(adj) && Sized(st, |adj|) && Sized(st2, |adj|) && u < |adj|
    requires k + 1 < |st.order| && 1 <= st.order[k] <= |adj| && 1 <= st.order[k + 1] <= |adj|
    requires st.order[k + 1] != u + 1 && DeepAt(adj, st, k)
    requires st2.order == st.order + [u + 1] && st2.parent == st.parent[u := p]
    ensures DeepAt(adj, st2, k)
  {
    assert st2.order[..k + 1] == st.order[..k + 1];
    assert st2.order[k] == st.order[k] && st2.order[k + 1] == st.order[k + 1];
  }

  /** After visiting `u` (the last in the order), the first unvisited neighbour of `u` is on top. */
  lemma TopAfterVisit(adj: Adj, s: int, st: SearchState, u: nat, rest: seq<(int, int)>)
    requires AdjOK(adj) && Sized(st, |adj|) && u < |adj| && OrderOK(|adj|, s, st)
    requires st.order[|st.order| - 1] == u + 1
    ensures TopOK(adj, st, rest + Pushes(st.marked, u, adj[u]))
  {
    var P := Pushes(st.marked, u, adj[u]);
    var i := FirstUnseen(adj[u], st.order);
    if i < |adj[u]| {
      FirstUnseenUnmarked(adj, s, st, u);
      PushesTop(st.marked, u, adj[u], i);
      assert (rest + P)[|rest + P| - 1] == P[|P| - 1];
    }
  }

  lemma StepInv(adj: Adj, s: int, r: DfsRun)
    requires AdjOK(adj) && Inv(adj, s, r) && |r.stack| > 0
    ensures Inv(adj, s, Step(adj, r))
  {
    if r.st.marked[r.stack[|r.stack| - 1].0] {
      SkipInv(adj, s, r);
    } else {
      VisitInv(adj, s, r);
    }
  }

  /** Popping an already visited vertex keeps the invariant. */
  lemma SkipInv(adj: Adj, s: int, r: DfsRun)
    requires AdjOK(adj) && Inv(adj, s, r) && |r.stack| > 0 && r.st.marked[r.stack[|r.stack| - 1].0]
    ensures Inv(adj, s, Step(adj, r))
  {
    var rest := r.stack[..|r.stack| - 1];
    assert Step(adj, r) == DfsRun(r.st, rest);
    SkipStack(adj, r.st, r.stack);
    SkipTop(adj, s, r.st, r.stack);
  }

  /** Visiting the popped vertex keeps the invariant. */
  lemma VisitInv(adj: Adj, s: int, r: DfsRun)
    requires AdjOK(adj) && Inv(adj, s, r) && |r.stack| > 0 && !r.st.marked[r.stack[|r.stack| - 1].0]
    ensures Inv(adj, s, Step(adj, r))
  {
    var u, p := r.stack[|r.stack| - 1].0, r.stack[|r.stack| - 1].1;
    var rest := r.stack[..|r.stack| - 1];
    var st' := Mark(r.st, p, u);
    assert Enter(r.st, u, p) == st';
    assert Step(adj, r) == DfsRun(st', rest + Pushes(st'.marked, u, adj[u]));
    VisitParts(adj, s, r.st, r.stack, u, p);
  }

  lemma SplitLast<T>(s: seq<T>)
    requires |s| > 0
    ensures s == s[..|s| - 1] + [s[|s| - 1]]
  {
  }

  /** The parts of the invariant after visiting `u`, popped as (u, p). */
  lemma VisitParts(adj: Adj, s: int, st: SearchState, stack: seq<(int, int)>, u: nat, p: nat)
    requires AdjOK(adj) && Sized(st, |adj|) && u < |adj| && p < |adj| && !st.marked[u]
    requires |stack| > 0 && stack[|stack| - 1] == (u, p)
    requires ShapeOK(adj, s, st) && TreeOK(adj, s, st) && OrderOK(|adj|, s, st) && ParentsFirst(|adj|, st)
    requires StackOK(adj, st, stack) && FrontierOK(adj, st, stack) && DeepOK(adj, st) && TopOK(adj, st, stack)
    ensures var st' := Mark(st, p, u);
      var stack' := stack[..|stack| - 1] + Pushes(st'.marked, u, adj[u]);
      && ShapeOK(adj, s, st') && TreeOK(adj, s, st') && OrderOK(|adj|, s, st') && ParentsFirst(|adj|, st')
      && StackOK(adj, st', stack') && FrontierOK(adj, st', stack')
      && DeepOK(adj, st') && TopOK(adj, st', stack')
  {
    var rest := stack[..|stack| - 1];
    SplitLast(stack);
    var st' := Mark(st, p, u);
    assert Enter(st, u, p) == st';
    assert st.marked[p] && u in adj[p];
    MarkTree(adj, s, st, p, u);
    MarkOrder(|adj|, s, st, p, u);
    assert StackOK(adj, st, rest) by {
      forall k | 0 <= k < |rest| ensures rest[k] == stack[k] { }
    }
    EnterStack(adj, st, u, p, rest);
    assert forall k | 0 <= k < |st.order| :: st.order[k] != u + 1 by {
      forall k | 0 <= k < |st.order| ensures st.order[k] != u + 1 {
        assert st.marked[st.order[k] - 1];
      }
    }
    MarkParentsFirst(|adj|, st, p, u);
    DeepAfterVisit(adj, st, st', u, p);
    TopAfterVisit(adj, s, st', u, rest);
  }

  lemma {:induction false} LoopInv(adj: Adj, s: int, r: DfsRun)
    requires AdjOK(adj) && Inv(adj, s, r)
    ensures Inv(adj, s, Loop(adj, r))
    decreases |adj| - CountTrue(r.st.marked), |r.stack|
  {
    if |r.stack| > 0 {
      StepInv(adj, s, r);
      LoopInv(adj, s, Step(adj, r));
    }
  }

  /** The state after the first iteration, which visits the start. */
  lemma FirstInv(adj: Adj, s: nat)
    requires AdjOK(adj) && s < |adj|
    ensures Inv(adj, s, Step(adj, DfsRun(Reset(|adj|), [(s, -1)])))
  {
    var n := |adj|;
    var z := Reset(n);
    var st := Enter(z, s, -1);
    var P := Pushes(st.marked, s, adj[s]);
    assert Step(adj, DfsRun(z, [(s, -1)])) == DfsRun(st, [] + P);
    assert [] + P == P;
    FirstShape(adj, s);
    FirstStack(adj, s);
    assert DeepOK(adj, st);
    TopAfterVisit(adj, s, st, s, []);
  }

  lemma FirstShape(adj: Adj, s: nat)
    requires AdjOK(adj) && s < |adj|
    ensures var st := Enter(Reset(|adj|), s, -1);
      ShapeOK(adj, s, st) && TreeOK(adj, s, st) && OrderOK(|adj|, s, st) && ParentsFirst(|adj|, st)
  {
    var n := |adj|;
    var z := Reset(n);
    var st := Enter(z, s, -1);
    assert forall v | 0 <= v < n :: st.marked[v] <==> v == s;
    CountTrueNone(z.marked);
  }

  lemma FirstStack(adj: Adj, s: nat)
    requires AdjOK(adj) && s < |adj|
    ensures var st := Enter(Reset(|adj|), s, -1);
      var P := Pushes(st.marked, s, adj[s]);
      StackOK(adj, st, P) && FrontierOK(adj, st, P)
  {
    var n := |adj|;
    var st := Enter(Reset(n), s, -1);
    var P := Pushes(st.marked, s, adj[s]);
    assert forall v | 0 <= v < n :: st.marked[v] <==> v == s;
    forall v | 0 <= v < n && st.marked[v]
      ensures forall k | 0 <= k < |adj[v]| :: st.marked[adj[v][k]] || Pending(P, adj[v][k])
    {
      forall k | 0 <= k < |adj[v]| ensures st.marked[adj[v][k]] || Pending(P, adj[v][k]) {
        if !st.marked[adj[v][k]] {
          PushesCover(st.marked, s, adj[s], k);
        }
      }
    }
  }

  /** The invariant holds of the final state of every valid run. */
  lemma RunInv(adj: Adj, start: int) returns (r: DfsRun)
    requires AdjOK(adj) && Run(adj, start).Ok?
    ensures Inv(adj, start - 1, r) && r.stack == [] && Run(adj, start).value == r.st
  {
    var s := start - 1;
    var r0 := DfsRun(Reset(|adj|), [(s, -1)]);
    FirstInv(adj, s);
    LoopInv(adj, s, Step(adj, r0));
    r := Loop(adj, Step(adj, r0));
  }

  // ---------------------------------------------------------------------
  // Guarantees of a run.
  // ---------------------------------------------------------------------

  /** The start is visited first, as the root of the tree at level 0. */
  lemma DfsRoot(adj: Adj, start: int)
    requires AdjOK(adj) && Run(adj, start).Ok?
    ensures var st := Run(adj, start).value;
      && WasVisited(st, start) && ParentOf(st, start) == -1 && LevelOf(st, start) == 0
      && |st.order| >= 1 && st.order[0] == start
  {
    var r := RunInv(adj, start);
  }

  /**
   * The search tree: a visited vertex other than the start has a visited
   * parent of which it is a neighbour, one level up, visited before it, and
   * is joined to the start by a path of level + 1 vertices; an unvisited
   * vertex reports parent -1 and level -1.
   */
  lemma DfsTree(adj: Adj, start: int, v: int)
    requires AdjOK(adj) && Run(adj, start).Ok? && 1 <= v <= |adj|
    ensures var st := Run(adj, start).value;
      && (WasVisited(st, v) && v != start ==>
            var p := ParentOf(st, v);
            && 1 <= p <= |adj| && WasVisited(st, p) && v - 1 in adj[p - 1]
            && LevelOf(st, v) == LevelOf(st, p) + 1
            && exists i, j | 0 <= i < j < |st.order| :: st.order[i] == p && st.order[j] == v)
      && (WasVisited(st, v) ==>
            exists path :: PathFrom(adj, start - 1, v - 1, path) && |path| == LevelOf(st, v) + 1)
      && (!WasVisited(st, v) ==> ParentOf(st, v) == -1 && LevelOf(st, v) == -1)
  {
    var st := RunTree(adj, start);
    TreeFacts(adj, start - 1, st, v);
  }

  /** The guarantees of `DfsTree` for any search tree rooted at `s` whose order puts parents first. */
  lemma TreeFacts(adj: Adj, s: int, st: SearchState, v: int)
    requires AdjOK(adj) && ShapeOK(adj, s, st) && TreeOK(adj, s, st)
    requires OrderOK(|adj|, s, st) && ParentsFirst(|adj|, st) && 1 <= v <= |adj|
    ensures && (WasVisited(st, v) && v != s + 1 ==>
                  var p := ParentOf(st, v);
                  && 1 <= p <= |adj| && WasVisited(st, p) && v - 1 in adj[p - 1]
                  && LevelOf(st, v) == LevelOf(st, p) + 1
                  && exists i, j | 0 <= i < j < |st.order| :: st.order[i] == p && st.order[j] == v)
            && (WasVisited(st, v) ==>
                  exists path :: PathFrom(adj, s, v - 1, path) && |path| == LevelOf(st, v) + 1)
            && (!WasVisited(st, v) ==> ParentOf(st, v) == -1 && LevelOf(st, v) == -1)
  {
    TreeQueries(adj, s, st, v);
    if st.marked[v - 1] {
      TreePath(adj, s, st, v - 1);
      if v != s + 1 {
        ParentBefore(adj, s, st, v - 1);
      }
    }
  }

  /** In a tree whose order puts parents first, a visited non-root vertex follows its parent. */
  lemma ParentBefore(adj: Adj, s: int, st: SearchState, v: nat)
    requires Sized(st, |adj|) && OrderOK(|adj|, s, st) && ParentsFirst(|adj|, st)
    requires v < |adj| && st.marked[v] && v != s
    ensures exists i, j | 0 <= i < j < |st.order| :: st.order[i] == st.parent[v] + 1 && st.order[j] == v + 1
  {
    var j :| 0 <= j < |st.order| && st.order[j] == v + 1;
    assert ParentSeen(|adj|, st, j);
    var i :| 0 <= i < j && st.order[..j][i] == st.parent[v] + 1;
    assert st.order[i] == st.parent[v] + 1;
  }

  /** A finished run's state is a search tree rooted at the start. */
  lemma RunTree(adj: Adj, start: int) returns (st: SearchState)
    requires AdjOK(adj) && Run(adj, start).Ok?
    ensures st == Run(adj, start).value
    ensures ShapeOK(adj, start - 1, st) && TreeOK(adj, start - 1, st)
    ensures OrderOK(|adj|, start - 1, st) && ParentsFirst(|adj|, st)
  {
    var r := RunInv(adj, start);
    st := r.st;
  }

  /** The visit order lists every visited vertex exactly once (1-based), and nothing else. */
  lemma DfsOrder(adj: Adj, start: int)
    requires AdjOK(adj) && Run(adj, start).Ok?
    ensures var st := Run(adj, start).value;
      && Distinct(st.order)
      && |st.order| == CountTrue(st.marked)
      && forall x :: x in st.order <==> WasVisited(st, x)
  {
    var r := RunInv(adj, start);
    var st := r.st;
    forall x ensures x in st.order <==> WasVisited(st, x) {
      if x in st.order {
        var k :| 0 <= k < |st.order| && st.order[k] == x;
      }
      if WasVisited(st, x) {
        assert st.marked[x - 1];
      }
    }
  }

  /** The visited vertices are exactly those reachable from the start. */
  lemma DfsComplete(adj: Adj, start: int, v: int)
    requires AdjOK(adj) && Run(adj, start).Ok?
    ensures WasVisited(Run(adj, start).value, v) <==> 1 <= v <= |adj| && Reachable(adj, start - 1, v - 1)
  {
    var r := RunInv(adj, start);
    if 1 <= v <= |adj| {
      forall u, k | 0 <= u < |adj| && r.st.marked[u] && 0 <= k < |adj[u]|
        ensures r.st.marked[adj[u][k]]
      {
        assert |adj[u]| >= 0;
      }
      ClosedReachable(adj, start - 1, r.st, v - 1);
    }
  }

  /**
   * The depth-first rule: if the k-th visited vertex u has a neighbour not
   * visited before it, the next visited vertex is the first such neighbour
   * in u's neighbour order, and its parent is u.
   */
  lemma DfsNext(adj: Adj, start: int, k: int)
    requires AdjOK(adj) && Run(adj, start).Ok?
    requires 0 <= k < |Run(adj, start).value.order|
    ensures var st := Run(adj, start).value;
      && 1 <= st.order[k] <= |adj|
      && var u := st.order[k] - 1;
         var i := FirstUnseen(adj[u], st.order[..k + 1]);
         i < |adj[u]| ==>
           && k + 1 < |st.order|
           && st.order[k + 1] == adj[u][i] + 1
           && ParentOf(st, st.order[k + 1]) == st.order[k]
  {
    var st := RunDeep(adj, start);
    if k < |st.order| - 1 {
      assert DeepAt(adj, st, k);
    } else {
      assert st.order[..k + 1] == st.order;
    }
  }

  /** A finished run obeys the depth-first rule at every vertex, the last included. */
  lemma RunDeep(adj: Adj, start: int) returns (st: SearchState)
    requires AdjOK(adj) && Run(adj, start).Ok?
    ensures st == Run(adj, start).value && Sized(st, |adj|)
    ensures OrderIn(adj, st) && DeepOK(adj, st)
    ensures FirstUnseen(adj[st.order[|st.order| - 1] - 1], st.order) == |adj[st.order[|st.order| - 1] - 1]|
  {
    var r := RunInv(adj, start);
    st := r.st;
  }
}
