/**
 * What the component search guarantees on an undirected graph: the
 * components partition the vertices 1..n, each is exactly the set of
 * vertices joined by a path to any of its members, they come ordered by
 * size (descending) and then by least member (ascending) with no ties, and
 * their ids are their positions 1..k. The queries follow: a valid vertex
 * gets the id of the component holding it, and two vertices are connected
 * exactly when a path joins them.
 */
module ComponentsProof {
  import opened Common
  import opened Adjacency
  import opened Paths
  import opened Sorting
  import opened Search
  import Dfs
  import DfsProof
  import opened Components

  // ---------------------------------------------------------------------
  // Vocabulary.
  // ---------------------------------------------------------------------

  /** All members, component after component. */
  function Members(cs: seq<Component>): seq<int> {
    if |cs| == 0 then [] else cs[0].vertices + Members(cs[1..])
  }

  /** The vertex ids 1..n. */
  function Range(n: nat): seq<int> {
    seq(n, i => i + 1)
  }

  /** 1-based vertices joined by a path. */
  ghost predicate Linked(adj: Adj, x: int, y: int)
    requires AdjOK(adj)
  {
    1 <= x <= |adj| && 1 <= y <= |adj| && Reachable(adj, x - 1, y - 1)
  }

  /** A well-formed component that is exactly the class of each of its members. */
  ghost predicate IsClass(adj: Adj, c: Component)
    requires AdjOK(adj)
  {
    && c.size == |c.vertices| && |c.vertices| > 0 && SortedBy(IntLe, c.vertices)
    && forall x, y | x in c.vertices :: y in c.vertices <==> Linked(adj, x, y)
  }

  lemma LinkedSym(adj: Adj, x: int, y: int)
    requires AdjOK(adj) && Symmetric(adj) && Linked(adj, x, y)
    ensures Linked(adj, y, x)
  {
    ReachSym(adj, x - 1, y - 1);
  }

  lemma LinkedTrans(adj: Adj, x: int, y: int, z: int)
    requires AdjOK(adj) && Linked(adj, x, y) && Linked(adj, y, z)
    ensures Linked(adj, x, z)
  {
    ReachTrans(adj, x - 1, y - 1, z - 1);
  }

  // ---------------------------------------------------------------------
  // Facts about `Members`.
  // ---------------------------------------------------------------------

  lemma {:induction false} MembersAppend(a: seq<Component>, b: seq<Component>)
    ensures Members(a + b) == Members(a) + Members(b)
  {
    if |a| > 0 {
      assert (a + b)[1..] == a[1..] + b;
      MembersAppend(a[1..], b);
    } else {
      assert a + b == b;
    }
  }

  lemma {:induction false} MemberIn(cs: seq<Component>, i: nat, x: int)
    requires i < |cs| && x in cs[i].vertices
    ensures x in Members(cs)
  {
    if i > 0 {
      MemberIn(cs[1..], i - 1, x);
    }
  }

  lemma {:induction false} MemberOf(cs: seq<Component>, x: int) returns (i: nat)
    requires x in Members(cs)
    ensures i < |cs| && x in cs[i].vertices
  {
    if x in cs[0].vertices {
      i := 0;
    } else {
      var j := MemberOf(cs[1..], x);
      i := j + 1;
    }
  }

  /** A vertex listed by two components is counted twice. */
  lemma {:induction false} MembersTwice(cs: seq<Component>, i: nat, j: nat, x: int)
    requires i < j < |cs| && x in cs[i].vertices && x in cs[j].vertices
    ensures multiset(Members(cs))[x] >= 2
  {
    if i == 0 {
      MemberIn(cs[1..], j - 1, x);
      assert multiset(Members(cs)) == multiset(cs[0].vertices) + multiset(Members(cs[1..]));
    } else {
      MembersTwice(cs[1..], i - 1, j - 1, x);
      assert multiset(Members(cs)) == multiset(cs[0].vertices) + multiset(Members(cs[1..]));
    }
  }

  /** Taking one component out of the list takes its members out. */
  lemma MembersRemove(b: seq<Component>, j: nat)
    requires j < |b|
    ensures multiset(Members(b)) == multiset(b[j].vertices) + multiset(Members(b[..j] + b[j + 1..]))
  {
    MembersSplit(b, j);
    MembersAppend(b[..j], b[j + 1..]);
    MultisetMiddle(Members(b[..j]), b[j].vertices, Members(b[j + 1..]));
  }

  /** The members of a list around position `j`. */
  lemma {:induction false} MembersSplit(b: seq<Component>, j: nat)
    requires j < |b|
    ensures Members(b) == Members(b[..j]) + (b[j].vertices + Members(b[j + 1..]))
  {
    if j == 0 {
      assert b[..0] == [] && b[1..] == b[j + 1..];
    } else {
      var t := b[1..];
      MembersSplit(t, j - 1);
      assert t[j - 1] == b[j] && t[j..] == b[j + 1..];
      assert b[..j][1..] == t[..j - 1] && b[..j][0] == b[0];
      assert Members(b[..j]) == b[0].vertices + Members(t[..j - 1]);
    }
  }

  lemma MultisetMiddle(x: seq<int>, y: seq<int>, z: seq<int>)
    ensures multiset(x + (y + z)) == multiset(y) + multiset(x + z)
  {
    assert multiset(x + (y + z)) == multiset(x) + multiset(y) + multiset(z);
  }

  /** Rearranging the components rearranges the members. */
  lemma {:induction false} MembersPerm(a: seq<Component>, b: seq<Component>)
    requires multiset(a) == multiset(b)
    ensures multiset(Members(a)) == multiset(Members(b))
    decreases |a|
  {
    if |a| == 0 {
      assert |b| == |multiset(b)| == 0;
    } else {
      assert a[0] in multiset(b);
      var j :| 0 <= j < |b| && b[j] == a[0];
      var b' := b[..j] + b[j + 1..];
      assert b == b[..j] + [b[j]] + b[j + 1..];
      assert multiset(b) == multiset(b[..j]) + multiset{b[j]} + multiset(b[j + 1..]);
      assert multiset(b') == multiset(b[..j]) + multiset(b[j + 1..]);
      assert a == [a[0]] + a[1..];
      assert multiset(a[1..]) == multiset(a) - multiset{a[0]};
      assert multiset(b') == multiset(b) - multiset{b[j]};
      MembersPerm(a[1..], b');
      MembersRemove(b, j);
    }
  }

  /** Components with the same member lists, position by position, have the same members. */
  lemma {:induction false} MembersSameLists(a: seq<Component>, b: seq<Component>)
    requires |a| == |b| && forall i | 0 <= i < |a| :: a[i].vertices == b[i].vertices
    ensures Members(a) == Members(b)
  {
    if |a| > 0 {
      MembersSameLists(a[1..], b[1..]);
    }
  }

  /** Non-empty components have at least as many members as there are components. */
  lemma {:induction false} MembersAtLeast(cs: seq<Component>)
    requires forall i | 0 <= i < |cs| :: |cs[i].vertices| > 0
    ensures |Members(cs)| >= |cs|
  {
    if |cs| > 0 {
      MembersAtLeast(cs[1..]);
    }
  }

  lemma RangeCount(n: nat, x: int)
    ensures multiset(Range(n))[x] == if 1 <= x <= n then 1 else 0
  {
    var r := Range(n);
    DistinctCount(r, x);
    if 1 <= x <= n {
      assert r[x - 1] == x;
    }
  }

  // ---------------------------------------------------------------------
  // The seeding loop.
  // ---------------------------------------------------------------------

  /** A DFS visit order from `v` is duplicate-free and lists exactly the vertices linked to `v + 1`. */
  lemma DfsOrderIsClass(adj: Adj, v: nat)
    requires AdjOK(adj) && v < |adj|
    ensures Dfs.Run(adj, v + 1).Ok?
    ensures var o := Dfs.Run(adj, v + 1).value.order;
      Distinct(o) && forall y :: y in o <==> Linked(adj, v + 1, y)
  {
    DfsProof.DfsOrder(adj, v + 1);
    var o := Dfs.Run(adj, v + 1).value.order;
    forall y ensures y in o <==> Linked(adj, v + 1, y) {
      DfsProof.DfsComplete(adj, v + 1, y);
    }
  }

  /** Vertices below `v` are covered. */
  predicate Covered(v: nat, visited: seq<bool>)
    requires v <= |visited|
  {
    forall u | 0 <= u < v :: visited[u]
  }

  /** The components list each covered vertex once and nothing else. */
  ghost predicate Counted(adj: Adj, visited: seq<bool>, comps: seq<Component>)
    requires |visited| == |adj|
  {
    forall x :: multiset(Members(comps))[x] == if 1 <= x <= |adj| && visited[x - 1] then 1 else 0
  }

  ghost predicate AllClasses(adj: Adj, comps: seq<Component>)
    requires AdjOK(adj)
  {
    forall c | c in comps :: IsClass(adj, c)
  }

  ghost predicate SeedInv(adj: Adj, v: nat, visited: seq<bool>, comps: seq<Component>)
    requires AdjOK(adj)
  {
    && |visited| == |adj| && v <= |adj|
    && Covered(v, visited) && Counted(adj, visited, comps) && AllClasses(adj, comps)
  }

  /** The component seeded at `v` is the class of `v + 1`. */
  lemma NewIsClass(adj: Adj, v: nat, id: int)
    requires AdjOK(adj) && Symmetric(adj) && v < |adj|
    ensures Dfs.Run(adj, v + 1).Ok?
    ensures IsClass(adj, MakeComponent(id, Dfs.Run(adj, v + 1).value.order))
  {
    DfsOrderIsClass(adj, v);
    var o := Dfs.Run(adj, v + 1).value.order;
    var c := MakeComponent(id, o);
    ReachRefl(adj, v);
    assert v + 1 in o;
    forall x, y | x in c.vertices ensures y in c.vertices <==> Linked(adj, x, y) {
      assert x in multiset(o);
      assert x in o;
      assert y in c.vertices <==> y in multiset(c.vertices);
      assert y in c.vertices <==> y in o;
      assert y in o <==> Linked(adj, v + 1, y);
      LinkedSym(adj, v + 1, x);
      if Linked(adj, x, y) {
        LinkedTrans(adj, v + 1, x, y);
      }
      if Linked(adj, v + 1, y) {
        LinkedTrans(adj, x, v + 1, y);
      }
    }
  }

  /** The vertices the new DFS reaches were not covered: a covered one would put `v` in its component. */
  lemma NewUncovered(adj: Adj, v: nat, visited: seq<bool>, comps: seq<Component>, x: int)
    requires AdjOK(adj) && Symmetric(adj) && v < |adj| == |visited| && !visited[v]
    requires Counted(adj, visited, comps) && AllClasses(adj, comps)
    requires Linked(adj, v + 1, x)
    ensures !visited[x - 1]
  {
    if visited[x - 1] {
      assert multiset(Members(comps))[x] == 1;
      var i := MemberOf(comps, x);
      assert comps[i] in comps;
      LinkedSym(adj, v + 1, x);
      assert v + 1 in comps[i].vertices;
      assert multiset(Members(comps))[v + 1] == 0;
      MemberIn(comps, i, v + 1);
      assert false;
    }
  }

  /** Appending a component adds its members. */
  lemma MembersAppendOne(comps: seq<Component>, c: Component)
    ensures multiset(Members(comps + [c])) == multiset(Members(comps)) + multiset(c.vertices)
  {
    MembersAppend(comps, [c]);
    assert Members([c]) == c.vertices + Members([]);
  }

  /** The counts after seeding at `v`. */
  lemma SeedCount(adj: Adj, v: nat, visited: seq<bool>, comps: seq<Component>, id: int)
    requires AdjOK(adj) && Symmetric(adj) && v < |adj| == |visited| && !visited[v]
    requires Counted(adj, visited, comps) && AllClasses(adj, comps)
    ensures Dfs.Run(adj, v + 1).Ok?
    ensures var o := Dfs.Run(adj, v + 1).value.order;
      Counted(adj, MarkAll(visited, o), comps + [MakeComponent(id, o)])
  {
    DfsOrderIsClass(adj, v);
    var o := Dfs.Run(adj, v + 1).value.order;
    var c := MakeComponent(id, o);
    var visited' := MarkAll(visited, o);
    var comps' := comps + [c];
    MembersAppendOne(comps, c);
    forall x ensures multiset(Members(comps'))[x] == if 1 <= x <= |adj| && visited'[x - 1] then 1 else 0 {
      DistinctCount(o, x);
      if x in o {
        NewUncovered(adj, v, visited, comps, x);
      }
    }
  }

  lemma SeedStep(adj: Adj, v: nat, visited: seq<bool>, comps: seq<Component>, id: int)
    requires AdjOK(adj) && Symmetric(adj) && v < |adj| && SeedInv(adj, v, visited, comps) && !visited[v]
    ensures Dfs.Run(adj, v + 1).Ok?
    ensures var o := Dfs.Run(adj, v + 1).value.order;
      SeedInv(adj, v + 1, MarkAll(visited, o), comps + [MakeComponent(id, o)])
  {
    SeedCount(adj, v, visited, comps, id);
    NewIsClass(adj, v, id);
    DfsOrderIsClass(adj, v);
    ReachRefl(adj, v);
    var o := Dfs.Run(adj, v + 1).value.order;
    assert v + 1 in o;
  }

  /** The seeding loop ends with a cover of all vertices by classes, each vertex once. */
  lemma {:induction false} SeedResult(adj: Adj, v: nat, visited: seq<bool>, comps: seq<Component>, id: int, cs: seq<Component>)
    requires AdjOK(adj) && Symmetric(adj) && SeedInv(adj, v, visited, comps)
    requires cs == Seed(adj, v, visited, comps, id)
    ensures forall x :: multiset(Members(cs))[x] == if 1 <= x <= |adj| then 1 else 0
    ensures AllClasses(adj, cs)
    decreases |adj| - v
  {
    if v == |adj| {
      SeedDone(adj, visited, comps, cs);
    } else if visited[v] {
      assert cs == Seed(adj, v + 1, visited, comps, id);
      SeedResult(adj, v + 1, visited, comps, id, cs);
    } else {
      SeedStep(adj, v, visited, comps, id);
      var o := Dfs.Run(adj, v + 1).value.order;
      assert cs == Seed(adj, v + 1, MarkAll(visited, o), comps + [MakeComponent(id, o)], id + 1);
      SeedResult(adj, v + 1, MarkAll(visited, o), comps + [MakeComponent(id, o)], id + 1, cs);
    }
  }

  /** Once every vertex is covered, the list counts each vertex once. */
  lemma SeedDone(adj: Adj, visited: seq<bool>, comps: seq<Component>, cs: seq<Component>)
    requires AdjOK(adj) && SeedInv(adj, |adj|, visited, comps) && cs == comps
    ensures forall x :: multiset(Members(cs))[x] == if 1 <= x <= |adj| then 1 else 0
    ensures AllClasses(adj, cs)
  {
    forall x ensures multiset(Members(cs))[x] == if 1 <= x <= |adj| then 1 else 0 {
      if 1 <= x <= |adj| {
        assert visited[x - 1];
      }
    }
  }

  // ---------------------------------------------------------------------
  // The final list.
  // ---------------------------------------------------------------------

  /** What the final list satisfies. */
  ghost predicate Good(adj: Adj, cs: seq<Component>)
    requires AdjOK(adj)
  {
    && multiset(Members(cs)) == multiset(Range(|adj|))
    && (forall i | 0 <= i < |cs| :: IsClass(adj, cs[i]) && cs[i].id == i + 1)
    && SortedBy(Before, cs)
  }

  lemma RawResult(adj: Adj)
    requires AdjOK(adj) && Symmetric(adj)
    ensures var raw := Seed(adj, 0, seq(|adj|, _ => false), [], 1);
      && multiset(Members(raw)) == multiset(Range(|adj|))
      && AllClasses(adj, raw)
  {
    var z := seq(|adj|, _ => false);
    assert SeedInv(adj, 0, z, []);
    var raw := Seed(adj, 0, z, [], 1);
    SeedResult(adj, 0, z, [], 1, raw);
    forall x ensures multiset(Members(raw))[x] == multiset(Range(|adj|))[x] {
      RangeCount(|adj|, x);
    }
  }

  lemma SortedGood(adj: Adj, raw: seq<Component>)
    requires AdjOK(adj) && multiset(Members(raw)) == multiset(Range(|adj|)) && AllClasses(adj, raw)
    ensures Good(adj, Renumber(SortComponents(raw)))
  {
    var sorted := SortComponents(raw);
    var cs := Renumber(sorted);
    MembersPerm(sorted, raw);
    MembersSameLists(cs, sorted);
    forall i | 0 <= i < |cs| ensures IsClass(adj, cs[i]) {
      assert sorted[i] in multiset(raw);
      assert IsClass(adj, sorted[i]);
    }
    forall i, j | 0 <= i < j < |cs| ensures Before(cs[i], cs[j]) {
      assert Before(sorted[i], sorted[j]);
    }
  }

  lemma FindGood(adj: Adj)
    requires AdjOK(adj) && Symmetric(adj)
    ensures Good(adj, Find(adj))
  {
    RawResult(adj);
    SortedGood(adj, Seed(adj, 0, seq(|adj|, _ => false), [], 1));
  }

  /** The first component listing a valid vertex. */
  lemma Holder(adj: Adj, cs: seq<Component>, x: int) returns (i: nat)
    requires AdjOK(adj) && Good(adj, cs) && 1 <= x <= |adj|
    ensures i < |cs| && x in cs[i].vertices && forall j | 0 <= j < i :: x !in cs[j].vertices
  {
    RangeCount(|adj|, x);
    var k := MemberOf(cs, x);
    i := 0;
    while x !in cs[i].vertices
      invariant i <= k && forall j | 0 <= j < i :: x !in cs[j].vertices
      decreases k - i
    {
      i := i + 1;
    }
  }

  lemma GoodOrdered(adj: Adj, cs: seq<Component>, i: int, j: int)
    requires AdjOK(adj) && Good(adj, cs) && 0 <= i < j < |cs|
    ensures |cs[i].vertices| > 0 && |cs[j].vertices| > 0
    ensures cs[i].size > cs[j].size || (cs[i].size == cs[j].size && cs[i].vertices[0] < cs[j].vertices[0])
  {
    assert IsClass(adj, cs[i]) && IsClass(adj, cs[j]);
    assert Before(cs[i], cs[j]);
    if cs[i].vertices[0] == cs[j].vertices[0] {
      var x := cs[i].vertices[0];
      MembersTwice(cs, i, j, x);
      RangeCount(|adj|, x);
    }
  }

  lemma GoodCount(adj: Adj, cs: seq<Component>)
    requires AdjOK(adj) && Good(adj, cs)
    ensures |Members(cs)| == |adj| && |cs| <= |adj| && (|adj| >= 1 ==> |cs| >= 1)
  {
    assert |Members(cs)| == |multiset(Members(cs))| == |multiset(Range(|adj|))| == |adj|;
    assert forall i | 0 <= i < |cs| :: IsClass(adj, cs[i]);
    MembersAtLeast(cs);
    if |adj| >= 1 {
      assert Range(|adj|)[0] in multiset(Members(cs));
    }
  }

  lemma GoodConnected(adj: Adj, cs: seq<Component>, v1: int, v2: int)
    requires AdjOK(adj) && Symmetric(adj) && Good(adj, cs)
    ensures Connected(cs, |adj|, v1, v2) <==> Linked(adj, v1, v2)
  {
    var n := |adj|;
    if 1 <= v1 <= n && 1 <= v2 <= n {
      var i1 := Holder(adj, cs, v1);
      var i2 := Holder(adj, cs, v2);
      assert IsClass(adj, cs[i1]) && IsClass(adj, cs[i2]);
      assert ComponentOf(cs, n, v1) == i1 + 1 && ComponentOf(cs, n, v2) == i2 + 1;
      if Linked(adj, v1, v2) {
        LinkedSym(adj, v1, v2);
        assert v2 in cs[i1].vertices && v1 in cs[i2].vertices;
      }
      if i1 == i2 {
        assert v2 in cs[i1].vertices;
      }
    } else if 1 <= v1 <= n {
      var i1 := Holder(adj, cs, v1);
      assert cs[i1].id == i1 + 1;
    }
  }

  // ---------------------------------------------------------------------
  // Guarantees.
  // ---------------------------------------------------------------------

  /**
   * The components partition 1..n: together they list every vertex exactly
   * once and nothing else, so the sizes add up to n; each is non-empty,
   * records its size and lists its members in ascending order.
   */
  lemma ComponentsPartition(adj: Adj)
    requires AdjOK(adj) && Symmetric(adj)
    ensures var cs := Find(adj);
      && multiset(Members(cs)) == multiset(Range(|adj|))
      && |Members(cs)| == |adj|
      && forall i | 0 <= i < |cs| ::
           cs[i].size == |cs[i].vertices| > 0 && SortedBy(IntLe, cs[i].vertices)
  {
    FindGood(adj);
    GoodCount(adj, Find(adj));
  }

  /** Each component is exactly the set of vertices joined by a path to any one of its members. */
  lemma ComponentsAreClasses(adj: Adj, i: int, x: int, y: int)
    requires AdjOK(adj) && Symmetric(adj) && 0 <= i < |Find(adj)|
    requires x in Find(adj)[i].vertices
    ensures y in Find(adj)[i].vertices <==> Linked(adj, x, y)
  {
    FindGood(adj);
    assert IsClass(adj, Find(adj)[i]);
  }

  /**
   * Components come by size, largest first, and among equal sizes by least
   * member, smallest first; no two are tied. Ids are the positions 1..k, and
   * there are between 1 and n components when n >= 1 (none when n == 0).
   */
  lemma ComponentsOrdered(adj: Adj)
    requires AdjOK(adj) && Symmetric(adj)
    ensures var cs := Find(adj);
      && (forall i | 0 <= i < |cs| :: cs[i].id == i + 1)
      && (forall i, j | 0 <= i < j < |cs| ::
            |cs[i].vertices| > 0 && |cs[j].vertices| > 0
            && (cs[i].size > cs[j].size || (cs[i].size == cs[j].size && cs[i].vertices[0] < cs[j].vertices[0])))
      && |cs| <= |adj| && (|adj| >= 1 ==> |cs| >= 1)
  {
    FindGood(adj);
    var cs := Find(adj);
    forall i, j | 0 <= i < j < |cs|
      ensures |cs[i].vertices| > 0 && |cs[j].vertices| > 0
      ensures cs[i].size > cs[j].size || (cs[i].size == cs[j].size && cs[i].vertices[0] < cs[j].vertices[0])
    {
      GoodOrdered(adj, cs, i, j);
    }
    GoodCount(adj, cs);
  }

  /** `getComponenteDoVertice`: a valid vertex gets the id of the component listing it; others get -1. */
  lemma ComponentOfFound(adj: Adj, v: int)
    requires AdjOK(adj) && Symmetric(adj)
    ensures var cs := Find(adj); var r := ComponentOf(cs, |adj|, v);
      && (1 <= v <= |adj| ==> 1 <= r <= |cs| && v in cs[r - 1].vertices)
      && (v < 1 || v > |adj| ==> r == -1)
  {
    FindGood(adj);
    var cs := Find(adj);
    if 1 <= v <= |adj| {
      var i := Holder(adj, cs, v);
      assert cs[i].id == i + 1;
    }
  }

  /** `estaoConectados` holds exactly for valid vertices joined by a path. */
  lemma ConnectedIffLinked(adj: Adj, v1: int, v2: int)
    requires AdjOK(adj) && Symmetric(adj)
    ensures Connected(Find(adj), |adj|, v1, v2) <==> Linked(adj, v1, v2)
  {
    FindGood(adj);
    GoodConnected(adj, Find(adj), v1, v2);
  }

  /** Connectedness is reflexive on valid vertices and false when either vertex is invalid. */
  lemma ConnectedRefl(adj: Adj, v1: int, v2: int)
    requires AdjOK(adj) && Symmetric(adj)
    ensures 1 <= v1 <= |adj| ==> Connected(Find(adj), |adj|, v1, v1)
    ensures (v1 < 1 || v1 > |adj| || v2 < 1 || v2 > |adj|) ==> !Connected(Find(adj), |adj|, v1, v2)
  {
    ConnectedIffLinked(adj, v1, v2);
    ConnectedIffLinked(adj, v1, v1);
    LinkedRefl(adj, v1, v2);
  }

  /** `Linked` is reflexive on valid vertices and false when either vertex is invalid. */
  lemma LinkedRefl(adj: Adj, v1: int, v2: int)
    requires AdjOK(adj)
    ensures 1 <= v1 <= |adj| ==> Linked(adj, v1, v1)
    ensures (v1 < 1 || v1 > |adj| || v2 < 1 || v2 > |adj|) ==> !Linked(adj, v1, v2)
  {
    if 1 <= v1 <= |adj| { ReachRefl(adj, v1 - 1); }
  }
}
