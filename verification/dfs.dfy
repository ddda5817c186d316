/**
 * `DFS::executarDFS`: stack-based depth-first search. The stack holds
 * (vertex, parent) pairs; a popped vertex that is already marked is
 * skipped, otherwise it is marked with that parent and its unmarked
 * neighbours are pushed from the last to the first, so that the first
 * unmarked neighbour ends up on top. The matrix and list entry points only
 * wrap the graph in its view, so they are `Run` on that view's table.
 */
module Dfs {
  import opened Common
  import opened Adjacency
  import opened GraphViews
  import opened Search

  /** The search state plus the local stack; its top is the last element. */
  datatype DfsRun = DfsRun(st: SearchState, stack: seq<(int, int)>)

  /**
   * Arrays of length n, 1-based vertex ids in the order, every stacked
   * vertex a vertex and every stacked parent a vertex or -1.
   */
  predicate Valid(r: DfsRun, n: nat) {
    && Sized(r.st, n)
    && (forall k | 0 <= k < |r.st.order| :: 1 <= r.st.order[k] <= n)
    && (forall k | 0 <= k < |r.stack| :: 0 <= r.stack[k].0 < n && -1 <= r.stack[k].1 < n)
  }

  /** Marks unmarked `u` reached from `p`: the start (p == -1) gets level 0, others one below `p`. */
  function Enter(st: SearchState, u: nat, p: int): (r: SearchState)
    requires Sized(st, |st.marked|) && u < |st.marked| && -1 <= p < |st.marked| && !st.marked[u]
    ensures Sized(r, |st.marked|)
    ensures CountTrue(r.marked) == CountTrue(st.marked) + 1
    ensures r.marked == st.marked[u := true] && r.parent == st.parent[u := p]
    ensures r.order == st.order + [u + 1]
    ensures r.level[u] == (if p == -1 then 0 else st.level[p] + 1)
    ensures forall v | 0 <= v < |st.marked| && v != u :: r.level[v] == st.level[v]
  {
    if p == -1 then
      CountTrueSet(st.marked, u);
      SearchState(st.marked[u := true], st.parent[u := -1], st.level[u := 0], st.order + [u + 1])
    else
      Mark(st, p, u)
  }

  /**
   * The pushes of the neighbour loop, in push order: the neighbours are
   * taken from the last to the first and each unmarked one is pushed with
   * `u` as its parent. Marks do not change during the loop.
   */
  function Pushes(marked: seq<bool>, u: int, ns: seq<int>): (r: seq<(int, int)>)
    requires forall k | 0 <= k < |ns| :: 0 <= ns[k] < |marked|
    ensures forall k | 0 <= k < |r| :: r[k].1 == u && r[k].0 in ns && !marked[r[k].0]
    ensures |r| <= |ns|
    decreases |ns|
  {
    if |ns| == 0 then []
    else Pushes(marked, u, ns[1..]) + (if marked[ns[0]] then [] else [(ns[0], u)])
  }

  /** One iteration of the outer loop: pop, then skip or visit. */
  function Step(adj: Adj, r: DfsRun): (r': DfsRun)
    requires AdjOK(adj) && Valid(r, |adj|) && |r.stack| > 0
    ensures Valid(r', |adj|)
  {
    var (u, p) := r.stack[|r.stack| - 1];
    var rest := r.stack[..|r.stack| - 1];
    if r.st.marked[u] then DfsRun(r.st, rest)
    else
      var st' := Enter(r.st, u, p);
      DfsRun(st', rest + Pushes(st'.marked, u, adj[u]))
  }

  /** The outer loop, until the stack is empty. */
  function Loop(adj: Adj, r: DfsRun): (f: DfsRun)
    requires AdjOK(adj) && Valid(r, |adj|)
    ensures Valid(f, |adj|) && f.stack == []
    decreases |adj| - CountTrue(r.st.marked), |r.stack|
  {
    if |r.stack| == 0 then r
    else
      var r' := Step(adj, r);
      var u := r.stack[|r.stack| - 1].0;
      assert r.st.marked[u] ==> r'.st == r.st && |r'.stack| < |r.stack|;
      assert !r.st.marked[u] ==> CountTrue(r'.st.marked) == CountTrue(r.st.marked) + 1;
      Loop(adj, r')
  }

  /** A whole run from the 1-based `start`: argument check, reset, then the loop from (start, -1). */
  function Run(adj: Adj, start: int): (r: Result<SearchState, SearchError>)
    requires AdjOK(adj)
    ensures r.Err? <==> start < 1 || start > |adj|
    ensures r.Err? ==> r.error == InvalidStart
    ensures r.Ok? ==> Sized(r.value, |adj|)
    ensures r.Ok? ==> forall k | 0 <= k < |r.value.order| :: 1 <= r.value.order[k] <= |adj|
  {
    if start < 1 || start > |adj| then Err(InvalidStart)
    else Ok(Loop(adj, DfsRun(Reset(|adj|), [(start - 1, -1)])).st)
  }

  /** `executarDFS_Matriz`. */
  function RunMatrix(m: seq<seq<int>>, start: int): Result<SearchState, SearchError>
    requires WellFormed(MatrixView(m))
  {
    Run(Table(MatrixView(m)), start)
  }

  /** `executarDFS_Lista`. */
  function RunList(l: seq<seq<int>>, start: int): Result<SearchState, SearchError>
    requires WellFormed(ListView(l))
  {
    Run(Table(ListView(l)), start)
  }
}
