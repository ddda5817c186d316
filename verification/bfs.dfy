/**
 * `BFS::executarBFS_Matriz` / `executarBFS_Lista`: queue-based breadth-first
 * search with an optional destination at which the search stops. Both
 * variants are the same algorithm over a neighbour table: the matrix
 * variant scans the columns of row v in ascending order, the list variant
 * the stored (sorted) list of v, which are `Neighbors` of the matrix and
 * list views. So both are `Run` on the table of the corresponding view.
 */
module Bfs {
  import opened Common
  import opened Adjacency
  import opened GraphViews
  import opened Search

  /** The search state plus the local queue and the early-stop flag. */
  datatype BfsRun = BfsRun(st: SearchState, queue: seq<int>, stopped: bool)

  /** Arrays of length n, and every queued vertex a vertex. */
  predicate Valid(b: BfsRun, n: nat) {
    Sized(b.st, n) && forall k | 0 <= k < |b.queue| :: 0 <= b.queue[k] < n
  }

  /** Discovery of `w` from `v`: marked and enqueued. */
  function Visit(b: BfsRun, v: nat, w: nat): (r: BfsRun)
    requires Valid(b, |b.st.marked|) && v < |b.st.marked| && w < |b.st.marked| && !b.st.marked[w]
    ensures Valid(r, |b.st.marked|)
    ensures CountTrue(r.st.marked) == CountTrue(b.st.marked) + 1
    ensures |r.queue| == |b.queue| + 1
  {
    BfsRun(Mark(b.st, v, w), b.queue + [w], b.stopped)
  }

  /** A visit, raising the stop flag when `w` is the destination. */
  function Discover(b: BfsRun, v: nat, w: nat, d: int): (r: BfsRun)
    requires Valid(b, |b.st.marked|) && v < |b.st.marked| && w < |b.st.marked| && !b.st.marked[w]
    ensures Valid(r, |b.st.marked|) && r.st == Visit(b, v, w).st && r.queue == Visit(b, v, w).queue
    ensures r.stopped <==> b.stopped || w == d
    ensures CountTrue(r.st.marked) == CountTrue(b.st.marked) + 1
    ensures |r.queue| == |b.queue| + 1
  {
    var b1 := Visit(b, v, w);
    if w == d then b1.(stopped := true) else b1
  }

  /**
   * The inner loop over the neighbours `ns` of `v`: each unmarked one is
   * visited; discovering `d` stops the whole search.
   */
  function Scan(b: BfsRun, v: nat, ns: seq<int>, d: int): (r: BfsRun)
    requires Valid(b, |b.st.marked|) && v < |b.st.marked|
    requires forall k | 0 <= k < |ns| :: 0 <= ns[k] < |b.st.marked|
    ensures Valid(r, |b.st.marked|) && |r.st.marked| == |b.st.marked|
    ensures CountTrue(r.st.marked) - |r.queue| == CountTrue(b.st.marked) - |b.queue|
    ensures CountTrue(r.st.marked) >= CountTrue(b.st.marked)
    decreases |ns|
  {
    if |ns| == 0 then b
    else
      var w := ns[0];
      if b.st.marked[w] then Scan(b, v, ns[1..], d)
      else
        var b1 := Discover(b, v, w, d);
        if b1.stopped then b1 else Scan(b1, v, ns[1..], d)
  }

  /** The outer loop: take the front of the queue and scan its neighbours. */
  function Loop(adj: Adj, b: BfsRun, d: int): (r: BfsRun)
    requires AdjOK(adj) && Valid(b, |adj|)
    ensures Valid(r, |adj|)
    decreases |adj| - CountTrue(b.st.marked), |b.queue|
  {
    if b.stopped || |b.queue| == 0 then b
    else
      var v := b.queue[0];
      var b1 := Scan(b.(queue := b.queue[1..]), v, adj[v], d);
      Loop(adj, b1, d)
  }

  /** `executarBFS_Matriz`. */
  function RunMatrix(m: seq<seq<int>>, start: int, target: int): Result<SearchState, SearchError>
    requires WellFormed(MatrixView(m))
  {
    Run(Table(MatrixView(m)), start, target)
  }

  /** `executarBFS_Lista`. */
  function RunList(l: seq<seq<int>>, start: int, target: int): Result<SearchState, SearchError>
    requires WellFormed(ListView(l))
  {
    Run(Table(ListView(l)), start, target)
  }

  /** State right after marking the root `s`. */
  function Root(n: nat, s: nat): (b: BfsRun)
    requires s < n
    ensures Valid(b, n)
  {
    var z := Reset(n);
    BfsRun(SearchState(z.marked[s := true], z.parent[s := -1], z.level[s := 0], [s + 1]), [s], false)
  }

  /**
   * A whole run: argument checks, reset, root, then the loop, unless the
   * root is itself the destination. `start` and `target` are 1-based,
   * `target == -1` meaning "no destination".
   */
  function Run(adj: Adj, start: int, target: int): (r: Result<SearchState, SearchError>)
    requires AdjOK(adj)
    ensures r.Err? <==> start < 1 || start > |adj| || (target != -1 && (target < 1 || target > |adj|))
    ensures r.Err? ==> (r.error == InvalidStart <==> start < 1 || start > |adj|)
    ensures r.Ok? ==> Sized(r.value, |adj|)
  {
    var n := |adj|;
    if start < 1 || start > n then Err(InvalidStart)
    else if target != -1 && (target < 1 || target > n) then Err(InvalidTarget)
    else
      var s := start - 1;
      var d := if target == -1 then -1 else target - 1;
      var b0 := Root(n, s);
      if d != -1 && s == d then Ok(b0.st) else Ok(Loop(adj, b0, d).st)
  }
}
