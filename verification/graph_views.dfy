/**
 * `IGrafo` and its two adapters. The interface is a closed set of
 * representations here, so it is a tagged union with one constructor per
 * adapter: `MatrixView` (`MatrizAdjacenciaAdapter`) and `ListView`
 * (`ListaAdjacenciaAdapter`). Vertex arguments and results are 0-based.
 */
module GraphViews {
  import opened Edges
  import opened Sorting
  import opened Adjacency
  import MatrixAdjacency
  import ListAdjacency

  datatype Graph =
    | MatrixView(m: seq<seq<int>>)
    | ListView(l: seq<seq<int>>)

  /** `getNumVertices`: the number of rows, or the number of lists. */
  function NumVertices(g: Graph): nat {
    match g
    case MatrixView(m) => |m|
    case ListView(l) => |l|
  }

  /**
   * What the adapters need so that every access stays in bounds: a square
   * matrix, or lists whose 1-based entries name vertices.
   */
  predicate WellFormed(g: Graph) {
    match g
    case MatrixView(m) => MatrixAdjacency.Square(m, |m|)
    case ListView(l) => forall v, k | 0 <= v < |l| && 0 <= k < |l[v]| :: 1 <= l[v][k] <= |l|
  }

  predicate StrictlyIncreasing(s: seq<int>) {
    forall i, j | 0 <= i < j < |s| :: s[i] < s[j]
  }

  /** Indices `i..` of a matrix row holding 1, ascending. */
  function OnesFrom(row: seq<int>, i: nat): (r: seq<int>)
    decreases |row| - i
    ensures forall w :: w in r <==> i <= w < |row| && row[w] == 1
    ensures forall k | 0 <= k < |r| :: i <= r[k] < |row|
    ensures StrictlyIncreasing(r)
  {
    if i >= |row| then []
    else if row[i] == 1 then [i] + OnesFrom(row, i + 1)
    else OnesFrom(row, i + 1)
  }

  /**
   * `getVizinhos`: for a matrix, the column indices holding 1 in ascending
   * order; for lists, the stored entries shifted to 0-based, in stored
   * order and with repetitions.
   */
  function Neighbors(g: Graph, v: nat): (r: seq<int>)
    requires v < NumVertices(g)
    ensures WellFormed(g) ==> forall k | 0 <= k < |r| :: 0 <= r[k] < NumVertices(g)
  {
    match g
    case MatrixView(m) => OnesFrom(m[v], 0)
    case ListView(l) => seq(|l[v]|, k requires 0 <= k < |l[v]| => l[v][k] - 1)
  }

  /** The neighbour table of a view: `getVizinhos` for every vertex. */
  function Table(g: Graph): (adj: Adj)
    requires WellFormed(g)
    ensures |adj| == NumVertices(g) && AdjOK(adj)
    ensures forall v | 0 <= v < NumVertices(g) :: adj[v] == Neighbors(g, v)
  {
    seq(NumVertices(g), v requires 0 <= v < NumVertices(g) => Neighbors(g, v))
  }

  /** An undirected view has a symmetric table. */
  lemma TableSymmetric(g: Graph)
    requires WellFormed(g) && Undirected(g)
    ensures Symmetric(Table(g))
  {
  }

  /** Linear search, as `existeAresta` does over a list. */
  function Contains(s: seq<int>, x: int): (b: bool)
    ensures b <==> x in s
  {
    if |s| == 0 then false else s[0] == x || Contains(s[1..], x)
  }

  /**
   * `existeAresta`: the matrix entry is 1, or the list holds `destino+1`.
   * Either way it answers whether `destino` is among the neighbours.
   */
  function HasEdge(g: Graph, origem: nat, destino: nat): (b: bool)
    requires WellFormed(g) && origem < NumVertices(g) && destino < NumVertices(g)
    ensures b <==> destino in Neighbors(g, origem)
  {
    match g
    case MatrixView(m) => m[origem][destino] == 1
    case ListView(l) =>
      var r := Contains(l[origem], destino + 1);
      assert r ==> destino in Neighbors(g, origem) by {
        if r {
          var k :| 0 <= k < |l[origem]| && l[origem][k] == destino + 1;
          assert Neighbors(g, origem)[k] == destino;
        }
      }
      r
  }

  /** Every neighbour relation holds in both directions. */
  predicate Undirected(g: Graph)
    requires WellFormed(g)
  {
    forall u, w | 0 <= u < NumVertices(g) && 0 <= w < NumVertices(g) ::
      w in Neighbors(g, u) <==> u in Neighbors(g, w)
  }

  /** The matrix built from an edge list is a well-formed undirected graph on n vertices. */
  lemma MatrixBuildView(n: nat, es: seq<Edge>)
    requires EdgesInRange(n, es)
    ensures var g := MatrixView(MatrixAdjacency.Build(n, es));
      NumVertices(g) == n && WellFormed(g) && Undirected(g)
      && forall u, w | 0 <= u < n && 0 <= w < n :: w in Neighbors(g, u) <==> Joins(es, u + 1, w + 1)
  {
    var g := MatrixView(MatrixAdjacency.Build(n, es));
    forall u, w | 0 <= u < n && 0 <= w < n
      ensures w in Neighbors(g, u) <==> Joins(es, u + 1, w + 1)
      ensures w in Neighbors(g, u) <==> u in Neighbors(g, w)
    {
      MatrixAdjacency.BuildSymmetric(n, es, u, w);
    }
  }

  /** `y` is contributed to `x`'s list exactly when some edge joins them. */
  lemma {:induction false} ContribJoins(es: seq<Edge>, x: int, y: int)
    ensures y in ListAdjacency.Contrib(es, x) <==> Joins(es, x, y)
  {
    if |es| > 0 {
      var prev := es[..|es| - 1];
      var e := es[|es| - 1];
      assert es == prev + [e];
      ContribJoins(prev, x, y);
      JoinsSnoc(prev, e, x, y);
    }
  }

  /** The lists built from an edge list form a well-formed undirected graph on n vertices. */
  lemma ListBuildView(n: nat, es: seq<Edge>)
    requires EdgesInRange(n, es)
    ensures NumVertices(ListView(ListAdjacency.Build(n, es))) == n
    ensures WellFormed(ListView(ListAdjacency.Build(n, es)))
    ensures Undirected(ListView(ListAdjacency.Build(n, es)))
    ensures forall u, w | 0 <= u < n && 0 <= w < n ::
      w in Neighbors(ListView(ListAdjacency.Build(n, es)), u) <==> Joins(es, u + 1, w + 1)
  {
    ListBuildWellFormed(n, es);
    ListViewOf(n, es, ListAdjacency.Build(n, es));
  }

  /** Well-formed lists holding the contributed multisets form the undirected graph of the edges. */
  lemma ListViewOf(n: nat, es: seq<Edge>, l: seq<seq<int>>)
    requires EdgesInRange(n, es) && |l| == n && WellFormed(ListView(l))
    requires forall i | 0 <= i < n :: multiset(l[i]) == ListAdjacency.Contrib(es, i + 1)
    ensures NumVertices(ListView(l)) == n && Undirected(ListView(l))
    ensures forall u, w | 0 <= u < n && 0 <= w < n ::
      w in Neighbors(ListView(l), u) <==> Joins(es, u + 1, w + 1)
  {
    MembersOfMultisets(n, es, l);
    JoinsAllOf(n, es, l);
    JoinsUndirected(ListView(l), es);
  }

  /** Lists holding the contributed multisets hold exactly the contributed ids. */
  lemma MembersOfMultisets(n: nat, es: seq<Edge>, l: seq<seq<int>>)
    requires |l| == n
    requires forall i | 0 <= i < n :: multiset(l[i]) == ListAdjacency.Contrib(es, i + 1)
    ensures forall u, x | 0 <= u < n :: x in l[u] <==> x in ListAdjacency.Contrib(es, u + 1)
  {
    forall u, x | 0 <= u < n ensures x in l[u] <==> x in ListAdjacency.Contrib(es, u + 1) {
      assert x in l[u] <==> x in multiset(l[u]);
    }
  }

  lemma JoinsAllOf(n: nat, es: seq<Edge>, l: seq<seq<int>>)
    requires EdgesInRange(n, es) && |l| == n
    requires forall u, x | 0 <= u < n :: x in l[u] <==> x in ListAdjacency.Contrib(es, u + 1)
    ensures forall u, w | 0 <= u < n && 0 <= w < n ::
      w in Neighbors(ListView(l), u) <==> Joins(es, u + 1, w + 1)
  {
    forall u, w | 0 <= u < n && 0 <= w < n
      ensures w in Neighbors(ListView(l), u) <==> Joins(es, u + 1, w + 1)
    {
      ListNeighborsMembership(l, u, w);
      ContribJoins(es, u + 1, w + 1);
    }
  }

  /** A view whose neighbour relation is "some edge joins them" is undirected. */
  lemma JoinsUndirected(g: Graph, es: seq<Edge>)
    requires WellFormed(g)
    requires forall u, w | 0 <= u < NumVertices(g) && 0 <= w < NumVertices(g) ::
      w in Neighbors(g, u) <==> Joins(es, u + 1, w + 1)
    ensures Undirected(g)
  {
    forall u, w | 0 <= u < NumVertices(g) && 0 <= w < NumVertices(g)
      ensures w in Neighbors(g, u) <==> u in Neighbors(g, w)
    {
      assert Joins(es, u + 1, w + 1) <==> Joins(es, w + 1, u + 1);
    }
  }

  lemma ListBuildWellFormed(n: nat, es: seq<Edge>)
    requires EdgesInRange(n, es)
    ensures WellFormed(ListView(ListAdjacency.Build(n, es)))
  {
    var l := ListAdjacency.Build(n, es);
    forall v, k | 0 <= v < n && 0 <= k < |l[v]| ensures 1 <= l[v][k] <= n {
      ListAdjacency.BuildInRange(n, es, v, k);
    }
  }

  lemma ListNeighborsMembership(l: seq<seq<int>>, u: nat, w: int)
    requires u < |l|
    ensures w in Neighbors(ListView(l), u) <==> w + 1 in l[u]
  {
    var ns := Neighbors(ListView(l), u);
    if w + 1 in l[u] {
      var k :| 0 <= k < |l[u]| && l[u][k] == w + 1;
      assert ns[k] == w;
    }
  }

  /** Keeps the first occurrence of every value not in `seen`, in order. */
  function DedupFrom(s: seq<int>, seen: set<int>): (r: seq<int>)
    ensures forall x :: x in r <==> x in s && x !in seen
  {
    if |s| == 0 then []
    else if s[0] in seen then DedupFrom(s[1..], seen)
    else [s[0]] + DedupFrom(s[1..], seen + {s[0]})
  }

  /** Removing repetitions from a sorted sequence leaves a strictly increasing one. */
  lemma {:induction false} DedupSortedStrict(s: seq<int>, seen: set<int>)
    requires SortedBy(IntLe, s)
    ensures StrictlyIncreasing(DedupFrom(s, seen))
  {
    if |s| > 0 {
      DedupSortedStrict(s[1..], seen + {s[0]});
      DedupSortedStrict(s[1..], seen);
      if s[0] !in seen {
        var rest := DedupFrom(s[1..], seen + {s[0]});
        forall k | 0 <= k < |rest| ensures s[0] < rest[k] {
          assert rest[k] in rest;
          var j :| 0 <= j < |s[1..]| && s[1..][j] == rest[k];
          assert IntLe(s[0], s[j + 1]);
        }
      }
    }
  }

  /** Two strictly increasing sequences with the same elements are equal. */
  lemma {:induction false} StrictUnique(a: seq<int>, b: seq<int>)
    requires StrictlyIncreasing(a) && StrictlyIncreasing(b)
    requires forall x :: x in a <==> x in b
    ensures a == b
  {
    if |a| > 0 {
      assert a[0] in a;
    }
    if |b| > 0 {
      assert b[0] in b;
    }
    if |a| > 0 && |b| > 0 {
      assert a[0] == b[0];
      forall x ensures x in a[1..] <==> x in b[1..] {
        if x in a[1..] {
          var i :| 0 <= i < |a[1..]| && a[1..][i] == x;
          assert x in b && x != b[0];
        }
        if x in b[1..] {
          var i :| 0 <= i < |b[1..]| && b[1..][i] == x;
          assert x in a && x != a[0];
        }
      }
      StrictUnique(a[1..], b[1..]);
    }
  }

  /**
   * Matrix and list views of the same edge list: the list neighbours with
   * repetitions removed are exactly the matrix neighbours, in the same order.
   */
  lemma MatrixListNeighbors(n: nat, es: seq<Edge>, v: nat)
    requires EdgesInRange(n, es) && v < n
    ensures DedupFrom(Neighbors(ListView(ListAdjacency.Build(n, es)), v), {})
         == Neighbors(MatrixView(MatrixAdjacency.Build(n, es)), v)
  {
    var l := ListAdjacency.Build(n, es);
    var ln := Neighbors(ListView(l), v);
    var mn := Neighbors(MatrixView(MatrixAdjacency.Build(n, es)), v);
    MatrixBuildView(n, es);
    ListBuildView(n, es);
    assert SortedBy(IntLe, ln) by {
      assert SortedBy(IntLe, l[v]);
      forall i, j | 0 <= i < j < |ln| ensures IntLe(ln[i], ln[j]) {
        assert IntLe(l[v][i], l[v][j]);
      }
    }
    DedupSortedStrict(ln, {});
    forall x ensures x in DedupFrom(ln, {}) <==> x in mn {
      if x in ln {
        var k :| 0 <= k < |ln| && ln[k] == x;
      }
      if x in mn {
        assert 0 <= x < n;
      }
    }
    StrictUnique(DedupFrom(ln, {}), mn);
  }
}
