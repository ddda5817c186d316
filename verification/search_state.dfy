/**
 * The state BFS and DFS share: `marcado`, `pai`, `nivel` (all 0-based
 * arrays of length n; parents are 0-based with -1 for none, levels -1 for
 * unvisited) and `ordem_visitacao` (1-based ids in visit order), with the
 * public accessors that translate to 1-based ids.
 */
module Search {
  import opened Common

  datatype SearchState = SearchState(
    marked: seq<bool>,
    parent: seq<int>,
    level: seq<int>,
    order: seq<int>)

  /** Rejected arguments (`invalid_argument` in the original). */
  datatype SearchError = InvalidStart | InvalidTarget

  /** Arrays of the right length for n vertices. */
  predicate Sized(st: SearchState, n: nat) {
    |st.marked| == n && |st.parent| == n && |st.level| == n
  }

  /** `reset` (and the constructor): nothing marked, every parent and level -1, no visit order. */
  function Reset(n: nat): (st: SearchState)
    ensures Sized(st, n) && st.order == []
    ensures forall v | 0 <= v < n :: !st.marked[v] && st.parent[v] == -1 && st.level[v] == -1
  {
    SearchState(seq(n, _ => false), seq(n, _ => -1), seq(n, _ => -1), [])
  }

  /** Marks unmarked `w` as discovered from `v`: parent `v`, one level deeper, appended to the order. */
  function Mark(st: SearchState, v: nat, w: nat): (r: SearchState)
    requires Sized(st, |st.marked|) && v < |st.marked| && w < |st.marked| && !st.marked[w]
    ensures Sized(r, |st.marked|)
    ensures CountTrue(r.marked) == CountTrue(st.marked) + 1
  {
    CountTrueSet(st.marked, w);
    SearchState(
      st.marked[w := true],
      st.parent[w := v],
      st.level[w := st.level[v] + 1],
      st.order + [w + 1])
  }

  /** `foiVisitado`: false outside 1..n. */
  function WasVisited(st: SearchState, v: int): bool {
    if v < 1 || v > |st.marked| then false else st.marked[v - 1]
  }

  /** `getPai`: the parent as a 1-based id, or -1 for the root, unvisited and out-of-range vertices. */
  function ParentOf(st: SearchState, v: int): int
    requires |st.parent| == |st.marked|
  {
    if v < 1 || v > |st.marked| then -1
    else if st.parent[v - 1] == -1 then -1
    else st.parent[v - 1] + 1
  }

  /** `getNivel`: the level, or -1 outside 1..n. */
  function LevelOf(st: SearchState, v: int): int
    requires |st.level| == |st.marked|
  {
    if v < 1 || v > |st.marked| then -1 else st.level[v - 1]
  }

  /** Accessors after `reset`: nothing visited, every parent and level -1. */
  lemma ResetAccessors(n: nat, v: int)
    ensures !WasVisited(Reset(n), v)
    ensures ParentOf(Reset(n), v) == -1
    ensures LevelOf(Reset(n), v) == -1
  {
  }

  /** Out-of-range queries answer false / -1 / -1 whatever the state. */
  lemma OutOfRangeAccessors(st: SearchState, v: int)
    requires Sized(st, |st.marked|) && (v < 1 || v > |st.marked|)
    ensures !WasVisited(st, v) && ParentOf(st, v) == -1 && LevelOf(st, v) == -1
  {
  }
}
