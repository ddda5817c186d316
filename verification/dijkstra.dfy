/**
 * `Dijkstra::dijkstraVetor` and `Dijkstra::obterCaminho` on a
 * `ListaAdjacenciaPeso` (stored lists, 1-based ids), and the distance type
 * both Dijkstra versions share. Distances are `double` with infinity in the
 * original and `Dist` (a real or `Inf`) here.
 *
 * The vector version runs at most n rounds; each picks the unvisited vertex
 * of least distance (the smallest index among ties), stops if there is none
 * or it is at infinity, marks it and relaxes its entries towards unvisited
 * vertices.
 */
module Dijkstra {
  import opened Common
  import opened Paths
  import opened WeightedListAdjacency
  import opened WeightedView

  /** A `double` distance: finite, or `INF`. */
  datatype Dist = Fin(r: real) | Inf

  /** `<` on distances; nothing is below a finite value but smaller finite values. */
  predicate Below(a: Dist, b: Dist) {
    a.Fin? && (b.Inf? || a.r < b.r)
  }

  /** `distance + weight`; infinity stays infinity. */
  function Add(d: Dist, w: real): Dist {
    if d.Fin? then Fin(d.r + w) else Inf
  }

  /** `ResultadoDijkstra`: distances, 1-based predecessors (-1 for none), and the origin. */
  datatype DijkstraResult = DijkstraResult(dist: seq<Dist>, pred: seq<int>, origin: int)

  /** The start of both versions: the 0-based origin `s` at 0, everything else at infinity. */
  function InitialDist(n: nat, s: nat): (d: seq<Dist>)
    requires s < n
    ensures |d| == n && d[s] == Fin(0.0) && forall v | 0 <= v < n && v != s :: d[v] == Inf
  {
    seq(n, v => if v == s then Fin(0.0) else Inf)
  }

  function NoPreds(n: nat): (p: seq<int>)
    ensures |p| == n && forall v | 0 <= v < n :: p[v] == -1
  {
    seq(n, _ => -1)
  }

  // ---------------------------------------------------------------------
  // `dijkstraVetor`
  // ---------------------------------------------------------------------

  datatype VState = VState(dist: seq<Dist>, pred: seq<int>, visited: seq<bool>)

  predicate VSized(st: VState, n: nat) {
    |st.dist| == n && |st.pred| == n && |st.visited| == n
  }

  /**
   * The candidate after scanning vertices below `v`: -1 if all of them are
   * visited, else the first unvisited one of least distance.
   */
  predicate SelectedSoFar(st: VState, u: int, v: nat)
    requires VSized(st, |st.dist|) && v <= |st.dist|
  {
    if forall x | 0 <= x < v :: st.visited[x] then u == -1
    else
      && 0 <= u < v && !st.visited[u]
      && (forall x | 0 <= x < v && !st.visited[x] :: !Below(st.dist[x], st.dist[u]))
      && (forall x | 0 <= x < u && !st.visited[x] :: Below(st.dist[u], st.dist[x]))
  }

  /** The selection loop from `v` on, with candidate `u`. */
  function SelectFrom(st: VState, v: nat, u: int): (r: int)
    requires VSized(st, |st.dist|) && v <= |st.dist| && SelectedSoFar(st, u, v)
    ensures SelectedSoFar(st, r, |st.dist|)
    decreases |st.dist| - v
  {
    if v == |st.dist| then u
    else
      var u' := if !st.visited[v] && (u == -1 || Below(st.dist[v], st.dist[u])) then v else u;
      assert SelectedSoFar(st, u', v + 1) by {
        if forall x | 0 <= x < v :: st.visited[x] {
          if !st.visited[v] {
            assert !(forall x | 0 <= x < v + 1 :: st.visited[x]);
          }
        } else {
          assert !(forall x | 0 <= x < v + 1 :: st.visited[x]);
        }
      }
      SelectFrom(st, v + 1, u')
  }

  /**
   * The selection of one round: -1 when every vertex is visited, otherwise
   * an unvisited vertex no unvisited vertex is below, and strictly below
   * every unvisited vertex of smaller index.
   */
  function Select(st: VState): (u: int)
    requires VSized(st, |st.dist|)
    ensures -1 <= u < |st.dist|
    ensures u == -1 <==> forall x | 0 <= x < |st.dist| :: st.visited[x]
    ensures u != -1 ==>
      && !st.visited[u]
      && (forall x | 0 <= x < |st.dist| && !st.visited[x] :: !Below(st.dist[x], st.dist[u]))
      && (forall x | 0 <= x < u && !st.visited[x] :: Below(st.dist[u], st.dist[x]))
  {
    SelectFrom(st, 0, -1)
  }

  /** The relaxation loop of round `u`: only unvisited vertices improve. */
  function RelaxV(st: VState, u: nat, es: seq<Entry>): (r: VState)
    requires VSized(st, |st.dist|) && u < |st.dist|
    requires forall k | 0 <= k < |es| :: 1 <= es[k].0 <= |st.dist|
    ensures VSized(r, |st.dist|) && r.visited == st.visited
    decreases |es|
  {
    if |es| == 0 then st
    else RelaxV(RelaxVOne(st, u, es[0]), u, es[1..])
  }

  /** One entry `(id, w)` of `u`: an unvisited target improves if the distance through `u` is below its own. */
  function RelaxVOne(st: VState, u: nat, e: Entry): (r: VState)
    requires VSized(st, |st.dist|) && u < |st.dist| && 1 <= e.0 <= |st.dist|
    ensures VSized(r, |st.dist|) && r.visited == st.visited
  {
    var v := e.0 - 1;
    var cand := Add(st.dist[u], e.1);
    if !st.visited[v] && Below(cand, st.dist[v]) then st.(dist := st.dist[v := cand], pred := st.pred[v := u + 1])
    else st
  }

  /** The rounds `i`..n-1. */
  function VLoop(l: seq<seq<Entry>>, st: VState, i: nat): (r: VState)
    requires WellFormedW(l) && VSized(st, |l|) && i <= |l|
    ensures VSized(r, |l|)
    decreases |l| - i
  {
    if i == |l| then st
    else
      var u := Select(st);
      if u == -1 || st.dist[u].Inf? then st
      else VLoop(l, RelaxV(st.(visited := st.visited[u := true]), u, l[u]), i + 1)
  }

  function VStart(n: nat, s: nat): (st: VState)
    requires s < n
    ensures VSized(st, n)
  {
    VState(InitialDist(n, s), NoPreds(n), seq(n, _ => false))
  }

  /** `dijkstraVetor` from the 1-based `origin`, which the original indexes with unchecked. */
  function DijkstraVector(l: seq<seq<Entry>>, origin: int): (r: DijkstraResult)
    requires WellFormedW(l) && 1 <= origin <= |l|
    ensures |r.dist| == |l| && |r.pred| == |l| && r.origin == origin
  {
    var st := VLoop(l, VStart(|l|, origin - 1), 0);
    DijkstraResult(st.dist, st.pred, origin)
  }

  // ---------------------------------------------------------------------
  // `obterCaminho`
  // ---------------------------------------------------------------------

  /** Equal-length arrays and every predecessor -1 or a vertex id. */
  predicate ResultShape(res: DijkstraResult) {
    && |res.dist| == |res.pred|
    && forall v | 0 <= v < |res.pred| :: res.pred[v] == -1 || 1 <= res.pred[v] <= |res.pred|
  }

  /**
   * The collection loop from `cur`: push it, stop at the origin, else
   * continue with its predecessor, at most `fuel` pushes.
   */
  function Chain(res: DijkstraResult, cur: int, fuel: nat): (c: seq<int>)
    requires ResultShape(res) && (cur == -1 || 1 <= cur <= |res.pred|)
    ensures |c| <= fuel && forall k | 0 <= k < |c| :: 1 <= c[k] <= |res.pred|
    decreases fuel
  {
    if cur == -1 || fuel == 0 then []
    else if cur == res.origin then [cur]
    else [cur] + Chain(res, res.pred[cur - 1], fuel - 1)
  }

  /**
   * `obterCaminho`: empty for a destination at infinity, otherwise the
   * collected predecessor chain reversed, from the origin to `dest`. The
   * original loops while the chain continues; the model stops after n
   * vertices, which a chain of distinct vertices never exceeds.
   */
  function PathTo(res: DijkstraResult, dest: int): (p: seq<int>)
    requires ResultShape(res) && 1 <= dest <= |res.dist|
    ensures res.dist[dest - 1].Inf? ==> p == []
    ensures forall k | 0 <= k < |p| :: 1 <= p[k] <= |res.pred|
  {
    if res.dist[dest - 1].Inf? then [] else Reverse(Chain(res, dest, |res.dist|))
  }
}
