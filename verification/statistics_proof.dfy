/**
 * What `adicionarInformacoesComponentes` reports when it is given the
 * component list of an undirected graph: the sizes cover every vertex once,
 * the extremes are the first and last components, and "connected" means
 * every two vertices are joined by a path.
 */
module StatisticsProof {
  import opened Adjacency
  import opened Components
  import opened Statistics
  import CP = ComponentsProof

  /** The sizes add up to the number of members. */
  lemma {:induction false} SizesSum(cs: seq<Component>)
    requires forall i | 0 <= i < |cs| :: cs[i].size == |cs[i].vertices|
    ensures Sum(Sizes(cs)) == |CP.Members(cs)|
  {
    if |cs| > 0 {
      assert Sizes(cs)[1..] == Sizes(cs[1..]);
      SizesSum(cs[1..]);
    }
  }

  /**
   * The summary of the components `cs` of an undirected graph with at least
   * one vertex: the sizes add up to n, the largest is the first component's
   * and the smallest the last's, and the graph counts as connected exactly
   * when every two vertices are joined by a path.
   */
  lemma ComponentSummary(s: StatsState, adj: Adj, cs: seq<Component>)
    requires AdjOK(adj) && Symmetric(adj) && |adj| >= 1 && cs == Find(adj)
    ensures var r := AddComponentInfo(s, cs).stats;
      && |cs| >= 1
      && Sum(r.componentSizes) == |adj|
      && r.largestComponent == cs[0].size && r.smallestComponent == cs[|cs| - 1].size
      && (r.connected <==> forall x, y | 1 <= x <= |adj| && 1 <= y <= |adj| :: CP.Linked(adj, x, y))
  {
    SummarySizes(s, adj, cs);
    SummaryConnected(s, adj, cs);
  }

  /** The size part of the summary. */
  lemma SummarySizes(s: StatsState, adj: Adj, cs: seq<Component>)
    requires AdjOK(adj) && Symmetric(adj) && |adj| >= 1 && cs == Find(adj)
    ensures |cs| >= 1
    ensures Sum(AddComponentInfo(s, cs).stats.componentSizes) == |adj|
    ensures AddComponentInfo(s, cs).stats.largestComponent == cs[0].size
    ensures AddComponentInfo(s, cs).stats.smallestComponent == cs[|cs| - 1].size
  {
    CP.ComponentsPartition(adj);
    CP.ComponentsOrdered(adj);
    assert |cs| >= 1;
    SizesSum(cs);
    ExtremeSizes(s, cs);
  }

  /** The connectivity part of the summary. */
  lemma SummaryConnected(s: StatsState, adj: Adj, cs: seq<Component>)
    requires AdjOK(adj) && Symmetric(adj) && |adj| >= 1 && cs == Find(adj)
    ensures AddComponentInfo(s, cs).stats.connected <==>
      forall x, y | 1 <= x <= |adj| && 1 <= y <= |adj| :: CP.Linked(adj, x, y)
  {
    CP.ComponentsPartition(adj);
    assert |cs| >= 1;
    if |cs| == 1 {
      SingleLinked(adj, cs);
    } else {
      SplitUnlinked(adj, cs);
    }
  }

  /** For components ordered by non-increasing size, the largest is the first and the smallest the last. */
  lemma ExtremeSizes(s: StatsState, cs: seq<Component>)
    requires |cs| >= 1 && forall i, j | 0 <= i < j < |cs| :: cs[i].size >= cs[j].size
    ensures AddComponentInfo(s, cs).stats.largestComponent == cs[0].size
    ensures AddComponentInfo(s, cs).stats.smallestComponent == cs[|cs| - 1].size
  {
    var r := AddComponentInfo(s, cs).stats;
    var k :| 0 <= k < |cs| && r.largestComponent == Sizes(cs)[k];
    var j :| 0 <= j < |cs| && r.smallestComponent == Sizes(cs)[j];
    assert k == 0 || cs[0].size >= cs[k].size;
    assert j == |cs| - 1 || cs[j].size >= cs[|cs| - 1].size;
  }

  /** A single component joins every two vertices. */
  lemma SingleLinked(adj: Adj, cs: seq<Component>)
    requires AdjOK(adj) && Symmetric(adj) && cs == Find(adj) && |cs| == 1
    ensures forall x, y | 1 <= x <= |adj| && 1 <= y <= |adj| :: CP.Linked(adj, x, y)
  {
    CP.ComponentsPartition(adj);
    forall x, y | 1 <= x <= |adj| && 1 <= y <= |adj| ensures CP.Linked(adj, x, y) {
      OnlyComponent(adj, cs, x);
      OnlyComponent(adj, cs, y);
      CP.ComponentsAreClasses(adj, 0, x, y);
    }
  }

  /** With two components or more, the least members of the first two are not joined. */
  lemma SplitUnlinked(adj: Adj, cs: seq<Component>)
    requires AdjOK(adj) && Symmetric(adj) && cs == Find(adj) && |cs| >= 2
    ensures exists x, y | 1 <= x <= |adj| && 1 <= y <= |adj| :: !CP.Linked(adj, x, y)
  {
    CP.ComponentsPartition(adj);
    var x, y := cs[0].vertices[0], cs[1].vertices[0];
    CP.ComponentsAreClasses(adj, 0, x, y);
    InRange(adj, cs, 0, x);
    InRange(adj, cs, 1, y);
    if y in cs[0].vertices {
      CP.MembersTwice(cs, 0, 1, y);
      CP.RangeCount(|adj|, y);
    }
  }

  /** A member of a component is a vertex id. */
  lemma InRange(adj: Adj, cs: seq<Component>, i: nat, x: int)
    requires AdjOK(adj) && i < |cs| && x in cs[i].vertices
    requires multiset(CP.Members(cs)) == multiset(CP.Range(|adj|))
    ensures 1 <= x <= |adj|
  {
    CP.MemberIn(cs, i, x);
    assert x in multiset(CP.Members(cs));
    CP.RangeCount(|adj|, x);
  }

  /** With a single component, every vertex is in it. */
  lemma OnlyComponent(adj: Adj, cs: seq<Component>, x: int)
    requires AdjOK(adj) && |cs| == 1 && 1 <= x <= |adj|
    requires multiset(CP.Members(cs)) == multiset(CP.Range(|adj|))
    ensures x in cs[0].vertices
  {
    CP.RangeCount(|adj|, x);
    assert x in multiset(CP.Members(cs));
    var i := CP.MemberOf(cs, x);
  }
}
