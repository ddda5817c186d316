/**
 * `ComponentesConexas`: connected components by repeated DFS. Every vertex
 * not yet covered seeds a DFS whose visit order becomes a component; the
 * components are then ordered by size (largest first) and, among equal
 * sizes, by smallest member, and renumbered 1..k in that order. The matrix
 * and list variants differ only in the DFS entry point they call, so both
 * are `Find` on the table of the corresponding view.
 */
module Components {
  import opened Common
  import opened Adjacency
  import opened Sorting
  import opened GraphViews
  import Dfs

  /** `Componente`: id, size and the ascending member list (1-based ids). */
  datatype Component = Component(id: int, size: int, vertices: seq<int>)

  /** The `Componente` constructor: the size of the input and its members sorted. */
  function MakeComponent(id: int, vs: seq<int>): (c: Component)
    ensures c.id == id && c.size == |vs|
    ensures SortedBy(IntLe, c.vertices) && multiset(c.vertices) == multiset(vs)
    ensures |vs| > 0 ==> |c.vertices| > 0 && c.vertices[0] in vs && forall x | x in vs :: c.vertices[0] <= x
  {
    var r := SortAsc(vs);
    if |vs| > 0 then
      assert r[0] in multiset(vs);
      forall x | x in vs ensures r[0] <= x {
        assert x in multiset(r);
        var j :| 0 <= j < |r| && r[j] == x;
        if j > 0 { assert IntLe(r[0], r[j]); }
      }
      Component(id, |vs|, r)
    else
      Component(id, |vs|, r)
  }

  /** Sets the mark of every vertex in a list of 1-based ids. */
  function MarkAll(visited: seq<bool>, ids: seq<int>): (r: seq<bool>)
    requires forall k | 0 <= k < |ids| :: 1 <= ids[k] <= |visited|
    ensures |r| == |visited|
    ensures forall u | 0 <= u < |visited| :: r[u] <==> visited[u] || u + 1 in ids
    decreases |ids|
  {
    if |ids| == 0 then visited
    else
      assert ids == [ids[0]] + ids[1..];
      MarkAll(visited[ids[0] - 1 := true], ids[1..])
  }

  /**
   * The seeding loop from vertex `v` on: an uncovered vertex starts a DFS,
   * whose visit order is marked covered and becomes the next component.
   */
  function Seed(adj: Adj, v: nat, visited: seq<bool>, comps: seq<Component>, nextId: int): (cs: seq<Component>)
    requires AdjOK(adj) && |visited| == |adj| && v <= |adj|
    ensures |comps| <= |cs| && cs[..|comps|] == comps
    decreases |adj| - v
  {
    if v == |adj| then comps
    else if visited[v] then Seed(adj, v + 1, visited, comps, nextId)
    else
      var order := Dfs.Run(adj, v + 1).value.order;
      var cs := Seed(adj, v + 1, MarkAll(visited, order), comps + [MakeComponent(nextId, order)], nextId + 1);
      assert cs[..|comps|] == (cs[..|comps| + 1])[..|comps|];
      cs
  }

  /** The smallest member of a component (its first, the list being sorted). */
  function Least(c: Component): int {
    if |c.vertices| > 0 then c.vertices[0] else 0
  }

  /** The sort comparator: larger size first, then smaller least member. */
  function Before(a: Component, b: Component): bool {
    a.size > b.size || (a.size == b.size && Least(a) <= Least(b))
  }

  lemma BeforeIsOrder()
    ensures TotalPreorder(Before)
  {
  }

  /** The `std::sort` of the component list. */
  function SortComponents(cs: seq<Component>): (r: seq<Component>)
    ensures SortedBy(Before, r) && multiset(r) == multiset(cs) && |r| == |cs|
  {
    BeforeIsOrder();
    Sort(Before, cs)
  }

  /** Ids rewritten to the positions 1..k. */
  function Renumber(cs: seq<Component>): (r: seq<Component>)
    ensures |r| == |cs|
    ensures forall i | 0 <= i < |r| :: r[i].id == i + 1 && r[i].size == cs[i].size && r[i].vertices == cs[i].vertices
  {
    seq(|cs|, i requires 0 <= i < |cs| => cs[i].(id := i + 1))
  }

  /** `encontrarComponentes_*`: reset, seed, sort, renumber. */
  function Find(adj: Adj): seq<Component>
    requires AdjOK(adj)
  {
    Renumber(SortComponents(Seed(adj, 0, seq(|adj|, _ => false), [], 1)))
  }

  /** `encontrarComponentes_Matriz`. */
  function FindMatrix(m: seq<seq<int>>): seq<Component>
    requires WellFormed(MatrixView(m))
  {
    Find(Table(MatrixView(m)))
  }

  /** `encontrarComponentes_Lista`. */
  function FindList(l: seq<seq<int>>): seq<Component>
    requires WellFormed(ListView(l))
  {
    Find(Table(ListView(l)))
  }

  /** `getComponenteDoVertice`: -1 outside 1..n; else the id of the first component listing `v`, or -1. */
  function ComponentOf(cs: seq<Component>, n: int, v: int): (r: int)
    ensures (v < 1 || v > n) ==> r == -1
    ensures 1 <= v <= n && (forall i | 0 <= i < |cs| :: v !in cs[i].vertices) ==> r == -1
    ensures forall i | 0 <= i < |cs| && 1 <= v <= n && v in cs[i].vertices
                       && (forall j | 0 <= j < i :: v !in cs[j].vertices) :: r == cs[i].id
  {
    if v < 1 || v > n then -1 else FirstId(cs, v)
  }

  function FirstId(cs: seq<Component>, v: int): (r: int)
    ensures (forall i | 0 <= i < |cs| :: v !in cs[i].vertices) ==> r == -1
    ensures forall i | 0 <= i < |cs| && v in cs[i].vertices
                       && (forall j | 0 <= j < i :: v !in cs[j].vertices) :: r == cs[i].id
  {
    if |cs| == 0 then -1
    else if v in cs[0].vertices then cs[0].id
    else
      var r := FirstId(cs[1..], v);
      assert forall i | 1 <= i < |cs| :: cs[1..][i - 1] == cs[i];
      r
  }

  /** `estaoConectados`: both in the same component, and that component exists. */
  function Connected(cs: seq<Component>, n: int, v1: int, v2: int): bool {
    ComponentOf(cs, n, v1) == ComponentOf(cs, n, v2) && ComponentOf(cs, n, v1) != -1
  }
}
