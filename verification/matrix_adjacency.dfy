/**
 * `MatrizAdjacencia`: the dense n x n 0/1 matrix built from an edge list.
 * Rows and columns are 0-based; edge `(u, v)` sets both `[u-1][v-1]` and
 * `[v-1][u-1]`.
 */
module MatrixAdjacency {
  import opened Edges

  /** The all-zero n x n matrix the constructor starts from. */
  function Zeros(n: nat): (m: seq<seq<int>>)
    ensures |m| == n
    ensures forall i | 0 <= i < n :: |m[i]| == n
    ensures forall i, j | 0 <= i < n && 0 <= j < n :: m[i][j] == 0
  {
    seq(n, _ => seq(n, _ => 0))
  }

  /** Sets `m[i][j]` to 1, leaving every other entry alone. */
  function Set1(m: seq<seq<int>>, i: nat, j: nat): (r: seq<seq<int>>)
    requires i < |m| && j < |m[i]|
    ensures |r| == |m|
    ensures forall a | 0 <= a < |m| :: |r[a]| == |m[a]|
    ensures forall a, b | 0 <= a < |m| && 0 <= b < |m[a]| ::
      r[a][b] == if a == i && b == j then 1 else m[a][b]
  {
    m[i := m[i][j := 1]]
  }

  /** Square shape: n rows of n entries. */
  predicate Square(m: seq<seq<int>>, n: nat) {
    |m| == n && forall i | 0 <= i < n :: |m[i]| == n
  }

  /**
   * The constructor: starts from zeros and, for each edge in input order,
   * sets both orientations. The result has a 1 exactly at the pairs the list
   * joins, in either orientation, and 0 everywhere else.
   */
  function Build(n: nat, es: seq<Edge>): (m: seq<seq<int>>)
    requires EdgesInRange(n, es)
    ensures Square(m, n)
    ensures forall i, j | 0 <= i < n && 0 <= j < n ::
      m[i][j] == if Joins(es, i + 1, j + 1) then 1 else 0
  {
    if |es| == 0 then Zeros(n)
    else
      var prev := es[..|es| - 1];
      var e := es[|es| - 1];
      assert es == prev + [e];
      var m0 := Build(n, prev);
      var m := Set1(Set1(m0, e.0 - 1, e.1 - 1), e.1 - 1, e.0 - 1);
      BuildStep(n, prev, e, m0, m);
      m
  }

  /** Setting both orientations of `e` turns the matrix of `prev` into the matrix of `prev + [e]`. */
  lemma BuildStep(n: nat, prev: seq<Edge>, e: Edge, m0: seq<seq<int>>, m: seq<seq<int>>)
    requires 1 <= e.0 <= n && 1 <= e.1 <= n && Square(m0, n)
    requires forall i, j | 0 <= i < n && 0 <= j < n :: m0[i][j] == if Joins(prev, i + 1, j + 1) then 1 else 0
    requires m == Set1(Set1(m0, e.0 - 1, e.1 - 1), e.1 - 1, e.0 - 1)
    ensures Square(m, n)
    ensures forall i, j | 0 <= i < n && 0 <= j < n :: m[i][j] == if Joins(prev + [e], i + 1, j + 1) then 1 else 0
  {
    forall i, j | 0 <= i < n && 0 <= j < n
      ensures m[i][j] == if Joins(prev + [e], i + 1, j + 1) then 1 else 0
    {
      JoinsSnoc(prev, e, i + 1, j + 1);
    }
  }

  /** The built matrix is symmetric. */
  lemma BuildSymmetric(n: nat, es: seq<Edge>, i: nat, j: nat)
    requires EdgesInRange(n, es) && i < n && j < n
    ensures Build(n, es)[i][j] == Build(n, es)[j][i]
  {
    assert Joins(es, i + 1, j + 1) <==> Joins(es, j + 1, i + 1);
  }

  /** Each input edge sets both orientations. */
  lemma BuildHasEdges(n: nat, es: seq<Edge>, k: nat)
    requires EdgesInRange(n, es) && k < |es|
    ensures Build(n, es)[es[k].0 - 1][es[k].1 - 1] == 1
    ensures Build(n, es)[es[k].1 - 1][es[k].0 - 1] == 1
  {
    assert Joins(es, es[k].0, es[k].1);
    assert Joins(es, es[k].1, es[k].0);
  }

  /** Appending an edge that is already present leaves the matrix unchanged. */
  lemma {:induction false} RepeatedEdgeNoChange(n: nat, es: seq<Edge>, k: nat)
    requires EdgesInRange(n, es) && k < |es|
    ensures EdgesInRange(n, es + [es[k]])
    ensures Build(n, es + [es[k]]) == Build(n, es)
  {
    var a := Build(n, es + [es[k]]);
    var b := Build(n, es);
    forall i, j | 0 <= i < n && 0 <= j < n ensures a[i][j] == b[i][j] {
      JoinsSnoc(es, es[k], i + 1, j + 1);
      if es[k] == (i + 1, j + 1) || es[k] == (j + 1, i + 1) {
        assert Joins(es, i + 1, j + 1);
      }
    }
    forall i | 0 <= i < n ensures a[i] == b[i] {}
  }

  /**
   * A self-loop `(u, u)` changes exactly the diagonal entry `[u-1][u-1]`,
   * which becomes 1.
   */
  lemma {:induction false} SelfLoopSetsDiagonal(n: nat, es: seq<Edge>, u: int, i: nat, j: nat)
    requires EdgesInRange(n, es) && 1 <= u <= n && i < n && j < n
    ensures EdgesInRange(n, es + [(u, u)])
    ensures Build(n, es + [(u, u)])[i][j] ==
      if i == u - 1 && j == u - 1 then 1 else Build(n, es)[i][j]
  {
    JoinsSnoc(es, (u, u), i + 1, j + 1);
  }
}
