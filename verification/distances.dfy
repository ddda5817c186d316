/**
 * `Distancias`: BFS distance vectors with the sentinel `INFINITO` for
 * unreached vertices, the exact diameter over all pairs with the pair that
 * realises it, and point-to-point queries. The object's vertex count is
 * the graph's.
 */
module Distances {
  import opened Common
  import opened Adjacency
  import opened GraphViews
  import opened Search
  import Bfs

  /** `Distancias::INFINITO`. */
  const INFINITO: int := 999999

  // ---------------------------------------------------------------------
  // `bfs_distancias`: a BFS of its own over the neighbour table.
  // ---------------------------------------------------------------------

  /** Distances, marks and the queue of the distance BFS. */
  datatype DistRun = DistRun(dist: seq<int>, visited: seq<bool>, queue: seq<int>)

  predicate DValid(r: DistRun, n: nat) {
    && |r.dist| == n && |r.visited| == n
    && forall k | 0 <= k < |r.queue| :: 0 <= r.queue[k] < n
  }

  /** The neighbour loop of `v`: each unvisited neighbour gets the distance of `v` plus one and is queued. */
  function Relax(r: DistRun, v: nat, ns: seq<int>): (r': DistRun)
    requires DValid(r, |r.dist|) && v < |r.dist|
    requires forall k | 0 <= k < |ns| :: 0 <= ns[k] < |r.dist|
    ensures DValid(r', |r.dist|) && |r'.dist| == |r.dist|
    ensures CountTrue(r'.visited) - |r'.queue| == CountTrue(r.visited) - |r.queue|
    ensures CountTrue(r'.visited) >= CountTrue(r.visited)
    decreases |ns|
  {
    if |ns| == 0 then r
    else
      var w := ns[0];
      if r.visited[w] then Relax(r, v, ns[1..])
      else
        CountTrueSet(r.visited, w);
        Relax(DistRun(r.dist[w := r.dist[v] + 1], r.visited[w := true], r.queue + [w]), v, ns[1..])
  }

  /** The queue loop: take the front and relax its neighbours. */
  function DLoop(adj: Adj, r: DistRun): (r': DistRun)
    requires AdjOK(adj) && DValid(r, |adj|)
    ensures DValid(r', |adj|)
    decreases |adj| - CountTrue(r.visited), |r.queue|
  {
    if |r.queue| == 0 then r
    else
      var v := r.queue[0];
      DLoop(adj, Relax(r.(queue := r.queue[1..]), v, adj[v]))
  }

  /**
   * `bfs_distancias` from the 1-based `origin`; the source indexes with it
   * unchecked, so it must be a vertex.
   */
  function BfsDistances(adj: Adj, origin: int): (d: seq<int>)
    requires AdjOK(adj) && 1 <= origin <= |adj|
    ensures |d| == |adj|
  {
    var n := |adj|;
    var s := origin - 1;
    var r0 := DistRun(seq(n, _ => INFINITO)[s := 0], seq(n, _ => false)[s := true], [s]);
    DLoop(adj, r0).dist
  }

  /**
   * `bfs_distancias_matriz` / `_lista` on the table of the view: a BFS-class
   * run from the 0-based `origin`, then the level of each visited vertex
   * and `INFINITO` elsewhere. A bad origin makes the BFS throw.
   */
  function DistancesViaBfs(adj: Adj, origin: int): (r: Result<seq<int>, SearchError>)
    requires AdjOK(adj)
    ensures r.Ok? <==> 0 <= origin < |adj|
    ensures r.Ok? ==> |r.value| == |adj|
  {
    match Bfs.Run(adj, origin + 1, -1)
    case Err(e) => Err(e)
    case Ok(st) => Ok(seq(|adj|, i requires 0 <= i < |adj| => if WasVisited(st, i + 1) then st.level[i] else INFINITO))
  }

  function DistancesMatrix(m: seq<seq<int>>, origin: int): Result<seq<int>, SearchError>
    requires WellFormed(MatrixView(m))
  {
    DistancesViaBfs(Table(MatrixView(m)), origin)
  }

  function DistancesList(l: seq<seq<int>>, origin: int): Result<seq<int>, SearchError>
    requires WellFormed(ListView(l))
  {
    DistancesViaBfs(Table(ListView(l)), origin)
  }

  // ---------------------------------------------------------------------
  // `calcularDistancias`: the exact diameter.
  // ---------------------------------------------------------------------

  /** The `max_element` comparator: `INFINITO` is below everything, finite values compare as usual. */
  function Less(a: int, b: int): bool {
    if a == INFINITO then true else if b == INFINITO then false else a < b
  }

  /** The first `i` entries are all `INFINITO`. */
  predicate AllInfinite(s: seq<int>, i: nat)
    requires i <= |s|
  {
    forall j | 0 <= j < i :: s[j] == INFINITO
  }

  /**
   * Among the first `i` entries, `m` holds a finite value that no finite
   * entry exceeds, and every finite entry before `m` is strictly smaller:
   * `m` is the first position of the largest finite value.
   */
  predicate FirstMaxBelow(s: seq<int>, m: nat, i: nat)
    requires i <= |s|
  {
    && m < i && s[m] != INFINITO
    && (forall j | 0 <= j < i && s[j] != INFINITO :: s[j] <= s[m])
    && (forall j | 0 <= j < m && s[j] != INFINITO :: s[j] < s[m])
  }

  /** What `largest` is after the first `i` entries. */
  predicate MaxSoFar(s: seq<int>, largest: nat, i: nat)
    requires i <= |s|
  {
    if AllInfinite(s, i) then largest == i - 1 else FirstMaxBelow(s, largest, i)
  }

  /** `std::max_element` from position `i` on, with the current largest at `largest`. */
  function MaxFrom(s: seq<int>, largest: nat, i: nat): (r: nat)
    requires largest < i <= |s| && MaxSoFar(s, largest, i)
    ensures r < |s| && MaxSoFar(s, r, |s|)
    decreases |s| - i
  {
    if i == |s| then largest
    else
      var next := if Less(s[largest], s[i]) then i else largest;
      assert MaxSoFar(s, next, i + 1) by {
        if !AllInfinite(s, i) {
          var j :| 0 <= j < i && s[j] != INFINITO;
          assert !AllInfinite(s, i + 1);
        } else if s[i] == INFINITO {
          assert AllInfinite(s, i + 1);
        } else {
          assert !AllInfinite(s, i + 1);
        }
      }
      MaxFrom(s, next, i + 1)
  }

  /**
   * `std::max_element` with the comparator above: the end position `|s|`
   * for an empty sequence, the last position when every entry is
   * `INFINITO`, and otherwise the first position of the largest finite entry.
   */
  function MaxElement(s: seq<int>): (r: nat)
    ensures |s| == 0 ==> r == 0
    ensures |s| > 0 ==> r < |s|
    ensures |s| > 0 && AllInfinite(s, |s|) ==> r == |s| - 1
    ensures !AllInfinite(s, |s|) ==> FirstMaxBelow(s, r, |s|)
  {
    if |s| == 0 then 0 else MaxFrom(s, 0, 1)
  }

  /** The diameter and the 1-based (origin, target) pair realising it. */
  datatype Diameter = Diameter(diameter: int, ends: (int, int))

  /** The constructor's values, before any computation. */
  const Unset: Diameter := Diameter(0, (-1, -1))

  /** One origin: adopt the row's largest finite distance if it beats the current diameter. */
  function Update(acc: Diameter, origin: int, row: seq<int>): Diameter {
    var m := MaxElement(row);
    if m != |row| && row[m] != INFINITO && row[m] > acc.diameter then Diameter(row[m], (origin, m + 1))
    else acc
  }

  /** The loop over origins `origin`..n. */
  function Sweep(adj: Adj, origin: nat, acc: Diameter): Diameter
    requires AdjOK(adj) && 1 <= origin <= |adj| + 1
    decreases |adj| + 1 - origin
  {
    if origin == |adj| + 1 then acc
    else Sweep(adj, origin + 1, Update(acc, origin, BfsDistances(adj, origin)))
  }

  /**
   * `calcularDistancias`: whatever the object held before is overwritten;
   * the diameter restarts at 0 with the pair (1, 1), then every origin is
   * swept in ascending order.
   */
  function Compute(adj: Adj): Diameter
    requires AdjOK(adj)
  {
    Sweep(adj, 1, Diameter(0, (1, 1)))
  }

  /**
   * `calcularDistanciaEspecifica` (and `getDistancia`, which forwards to it):
   * the distance to a valid target, `INFINITO` for any other target.
   */
  function DistanceBetween(adj: Adj, origin: int, target: int): int
    requires AdjOK(adj) && 1 <= origin <= |adj|
  {
    var d := BfsDistances(adj, origin);
    if 0 <= target - 1 < |adj| then d[target - 1] else INFINITO
  }
}
