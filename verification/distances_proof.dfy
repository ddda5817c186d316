/**
 * What the distance computations guarantee: the distance BFS agrees with
 * the levels of a BFS run, so each entry is the shortest distance or
 * `INFINITO`; and the diameter sweep finds the largest finite distance
 * over all ordered pairs, reported at the first pair (in origin, then
 * target order) that attains it.
 */
module DistancesProof {
  import opened Common
  import opened Adjacency
  import opened Paths
  import opened Search
  import opened Bfs
  import opened Distances
  import BfsProof

  // ---------------------------------------------------------------------
  // The distance BFS runs in lockstep with a BFS without destination.
  // ---------------------------------------------------------------------

  /**
   * Same marks and queue, every queued vertex visited, no stop, and the
   * distance of a vertex its level when visited, `INFINITO` otherwise.
   */
  ghost predicate Lockstep(r: DistRun, b: BfsRun, n: nat)
    requires DValid(r, n) && Valid(b, n)
  {
    && r.visited == b.st.marked && r.queue == b.queue && !b.stopped
    && (forall k | 0 <= k < |b.queue| :: b.st.marked[b.queue[k]])
    && (forall i | 0 <= i < n :: r.dist[i] == if b.st.marked[i] then b.st.level[i] else INFINITO)
  }

  lemma {:induction false} RelaxLockstep(r: DistRun, b: BfsRun, v: nat, ns: seq<int>)
    requires DValid(r, |r.dist|) && Valid(b, |r.dist|) && Lockstep(r, b, |r.dist|)
    requires v < |r.dist| && b.st.marked[v]
    requires forall k | 0 <= k < |ns| :: 0 <= ns[k] < |r.dist|
    ensures var r', b' := Relax(r, v, ns), Scan(b, v, ns, -1);
      DValid(r', |r.dist|) && Valid(b', |r.dist|) && Lockstep(r', b', |r.dist|)
    decreases |ns|
  {
    var n := |r.dist|;
    if |ns| > 0 {
      var w := ns[0];
      if !b.st.marked[w] {
        var r1 := DistRun(r.dist[w := r.dist[v] + 1], r.visited[w := true], r.queue + [w]);
        var b1 := Discover(b, v, w, -1);
        VisitLockstep(r, b, v, w);
        RelaxLockstep(r1, b1, v, ns[1..]);
      } else {
        RelaxLockstep(r, b, v, ns[1..]);
      }
    }
  }

  /** Discovering `w` from `v` in both searches keeps them in lockstep. */
  lemma VisitLockstep(r: DistRun, b: BfsRun, v: nat, w: nat)
    requires DValid(r, |r.dist|) && Valid(b, |r.dist|) && Lockstep(r, b, |r.dist|)
    requires v < |r.dist| && w < |r.dist| && b.st.marked[v] && !b.st.marked[w]
    ensures var r1 := DistRun(r.dist[w := r.dist[v] + 1], r.visited[w := true], r.queue + [w]);
      var b1 := Discover(b, v, w, -1);
      DValid(r1, |r.dist|) && Valid(b1, |r.dist|) && Lockstep(r1, b1, |r.dist|)
  {
    var n := |r.dist|;
    var r1 := DistRun(r.dist[w := r.dist[v] + 1], r.visited[w := true], r.queue + [w]);
    var b1 := Discover(b, v, w, -1);
    assert b1 == Visit(b, v, w);
    forall k | 0 <= k < |b1.queue| ensures b1.st.marked[b1.queue[k]] {
      if k < |b.queue| { assert b1.queue[k] == b.queue[k]; }
    }
  }

  lemma {:induction false} LoopLockstep(adj: Adj, r: DistRun, b: BfsRun)
    requires AdjOK(adj) && DValid(r, |adj|) && Valid(b, |adj|) && Lockstep(r, b, |adj|)
    ensures var r', b' := DLoop(adj, r), Loop(adj, b, -1);
      Valid(b', |adj|) && Lockstep(r', b', |adj|)
    decreases |adj| - CountTrue(r.visited), |r.queue|
  {
    if |r.queue| > 0 {
      var v := r.queue[0];
      var r0, b0 := r.(queue := r.queue[1..]), b.(queue := b.queue[1..]);
      assert Lockstep(r0, b0, |adj|);
      RelaxLockstep(r0, b0, v, adj[v]);
      LoopLockstep(adj, Relax(r0, v, adj[v]), Scan(b0, v, adj[v], -1));
    }
  }

  /**
   * `bfs_distancias` and the BFS-based `bfs_distancias_matriz` /
   * `bfs_distancias_lista` compute the same vector on the same table.
   */
  lemma DistancesAgree(adj: Adj, origin: int)
    requires AdjOK(adj) && 1 <= origin <= |adj|
    ensures DistancesViaBfs(adj, origin - 1) == Ok(BfsDistances(adj, origin))
  {
    var n := |adj|;
    var st := AgreeEntries(adj, origin);
    var d := BfsDistances(adj, origin);
    var e := seq(n, i requires 0 <= i < n => if WasVisited(st, i + 1) then st.level[i] else INFINITO);
    assert DistancesViaBfs(adj, origin - 1) == Ok(e);
    assert forall i | 0 <= i < n :: d[i] == e[i];
    assert d == e;
  }

  /** The lockstep run, entry by entry. */
  lemma AgreeEntries(adj: Adj, origin: int) returns (st: SearchState)
    requires AdjOK(adj) && 1 <= origin <= |adj|
    ensures Bfs.Run(adj, origin, -1) == Ok(st) && |st.marked| == |adj| && |st.level| == |adj|
    ensures forall i | 0 <= i < |adj| ::
      BfsDistances(adj, origin)[i] == if WasVisited(st, i + 1) then st.level[i] else INFINITO
  {
    var n, s := |adj|, origin - 1;
    var r0 := DistRun(seq(n, _ => INFINITO)[s := 0], seq(n, _ => false)[s := true], [s]);
    var b0 := Root(n, s);
    assert Lockstep(r0, b0, n);
    LoopLockstep(adj, r0, b0);
    st := Loop(adj, b0, -1).st;
    assert Bfs.Run(adj, origin, -1) == Ok(st);
    assert DLoop(adj, r0).dist == BfsDistances(adj, origin);
  }

  /**
   * Each entry of a distance vector: the shortest distance (below n) for a
   * reachable vertex and `INFINITO` for an unreachable one; the two are told
   * apart as long as no distance can reach `INFINITO`.
   */
  lemma DistanceMeaning(adj: Adj, origin: int, t: int)
    requires AdjOK(adj) && 1 <= origin <= |adj| && 0 <= t < |adj|
    ensures var d := BfsDistances(adj, origin)[t];
      && (Reachable(adj, origin - 1, t) ==> 0 <= d < |adj| && ShortestIs(adj, origin - 1, t, d))
      && (!Reachable(adj, origin - 1, t) ==> d == INFINITO)
      && (|adj| <= INFINITO ==> (d == INFINITO <==> !Reachable(adj, origin - 1, t)))
  {
    DistancesAgree(adj, origin);
    var st := Bfs.Run(adj, origin, -1).value;
    assert BfsDistances(adj, origin)[t] == if WasVisited(st, t + 1) then st.level[t] else INFINITO;
    BfsProof.BfsComplete(adj, origin, t + 1);
    if WasVisited(st, t + 1) {
      BfsProof.BfsShortest(adj, origin, -1, t + 1);
      ShortestBound(adj, origin - 1, t, st.level[t]);
    }
  }

  /** `calcularDistanciaEspecifica` / `getDistancia`: the distance for a valid target (0 to the origin itself), `INFINITO` otherwise. */
  lemma DistanceBetweenMeaning(adj: Adj, origin: int, target: int)
    requires AdjOK(adj) && 1 <= origin <= |adj|
    ensures var d := DistanceBetween(adj, origin, target);
      && (target < 1 || target > |adj| ==> d == INFINITO)
      && (1 <= target <= |adj| && Reachable(adj, origin - 1, target - 1) ==>
            0 <= d < |adj| && ShortestIs(adj, origin - 1, target - 1, d))
      && (1 <= target <= |adj| && !Reachable(adj, origin - 1, target - 1) ==> d == INFINITO)
      && (target == origin ==> d == 0)
  {
    if 1 <= target <= |adj| {
      DistanceMeaning(adj, origin, target - 1);
    }
    if target == origin {
      ReachRefl(adj, origin - 1);
    }
  }

  // ---------------------------------------------------------------------
  // The diameter sweep.
  // ---------------------------------------------------------------------

  /** The entry for the 1-based pair (o, t). */
  function D(adj: Adj, o: int, t: int): int
    requires AdjOK(adj) && 1 <= o <= |adj| && 1 <= t <= |adj|
  {
    BfsDistances(adj, o)[t - 1]
  }

  /** No finite entry with origin below `o` exceeds `bound`. */
  ghost predicate Bounded(adj: Adj, o: int, bound: int)
    requires AdjOK(adj)
  {
    forall o', t | 1 <= o' < o && o' <= |adj| && 1 <= t <= |adj| && D(adj, o', t) != INFINITO :: D(adj, o', t) <= bound
  }

  /**
   * A positive diameter sits at a pair with origin below `o` and is the
   * entry there; every earlier pair (smaller origin, or same origin and
   * smaller target) is `INFINITO` or strictly smaller.
   */
  ghost predicate FirstAttained(adj: Adj, o: int, acc: Diameter)
    requires AdjOK(adj)
  {
    var (eo, et) := acc.ends;
    && 1 <= eo < o && eo <= |adj| && 1 <= et <= |adj|
    && D(adj, eo, et) == acc.diameter
    && (forall t | 1 <= t < et && D(adj, eo, t) != INFINITO :: D(adj, eo, t) < acc.diameter)
    && Bounded(adj, eo, acc.diameter - 1)
  }

  ghost predicate SweepInv(adj: Adj, o: int, acc: Diameter)
    requires AdjOK(adj)
  {
    && 0 <= acc.diameter && acc.diameter != INFINITO
    && Bounded(adj, o, acc.diameter)
    && (acc.diameter == 0 ==> acc.ends == (1, 1))
    && (acc.diameter > 0 ==> FirstAttained(adj, o, acc))
  }

  lemma UpdateInv(adj: Adj, o: int, acc: Diameter)
    requires AdjOK(adj) && 1 <= o <= |adj| && SweepInv(adj, o, acc)
    ensures SweepInv(adj, o + 1, Update(acc, o, BfsDistances(adj, o)))
  {
    var row := BfsDistances(adj, o);
    var m := MaxElement(row);
    assert forall t | 1 <= t <= |adj| :: D(adj, o, t) == row[t - 1];
    if !AllInfinite(row, |row|) {
      assert FirstMaxBelow(row, m, |row|);
      assert forall t | 1 <= t <= |adj| && D(adj, o, t) != INFINITO :: D(adj, o, t) <= row[m] by {
        forall t | 1 <= t <= |adj| && D(adj, o, t) != INFINITO ensures D(adj, o, t) <= row[m] {
          assert row[t - 1] != INFINITO;
        }
      }
      if row[m] > acc.diameter {
        assert forall t | 1 <= t < m + 1 && D(adj, o, t) != INFINITO :: D(adj, o, t) < row[m] by {
          forall t | 1 <= t < m + 1 && D(adj, o, t) != INFINITO ensures D(adj, o, t) < row[m] {
            assert row[t - 1] != INFINITO;
          }
        }
        AdoptInv(adj, o, acc, m);
      } else {
        KeepInv(adj, o, acc);
      }
    } else {
      assert forall t | 1 <= t <= |adj| :: D(adj, o, t) == INFINITO by {
        forall t | 1 <= t <= |adj| ensures D(adj, o, t) == INFINITO {
          assert row[t - 1] == INFINITO;
        }
      }
      KeepInv(adj, o, acc);
    }
  }

  /** An origin whose finite entries do not exceed the diameter leaves it unchanged. */
  lemma KeepInv(adj: Adj, o: int, acc: Diameter)
    requires AdjOK(adj) && 1 <= o <= |adj| && SweepInv(adj, o, acc)
    requires forall t | 1 <= t <= |adj| && D(adj, o, t) != INFINITO :: D(adj, o, t) <= acc.diameter
    ensures SweepInv(adj, o + 1, acc)
  {
    if acc.diameter > 0 {
      assert FirstAttained(adj, o + 1, acc);
    }
  }

  /** An origin with a larger finite entry, first at target `m + 1`, takes over the diameter. */
  lemma AdoptInv(adj: Adj, o: int, acc: Diameter, m: int)
    requires AdjOK(adj) && 1 <= o <= |adj| && 0 <= m < |adj| && SweepInv(adj, o, acc)
    requires D(adj, o, m + 1) != INFINITO && D(adj, o, m + 1) > acc.diameter
    requires forall t | 1 <= t <= |adj| && D(adj, o, t) != INFINITO :: D(adj, o, t) <= D(adj, o, m + 1)
    requires forall t | 1 <= t < m + 1 && D(adj, o, t) != INFINITO :: D(adj, o, t) < D(adj, o, m + 1)
    ensures SweepInv(adj, o + 1, Diameter(D(adj, o, m + 1), (o, m + 1)))
  {
    var acc' := Diameter(D(adj, o, m + 1), (o, m + 1));
    assert Bounded(adj, o, acc'.diameter - 1);
    assert FirstAttained(adj, o + 1, acc');
  }

  /**
   * The sweep keeps any invariant of the accumulator that one origin's
   * update keeps; stated for an arbitrary `inv` so that the induction does
   * not look inside the diameter invariant.
   */
  lemma {:induction false} SweepKeeps(adj: Adj, inv: (int, Diameter) -> bool, o: int, acc: Diameter)
    requires AdjOK(adj) && 1 <= o <= |adj| + 1 && inv(o, acc)
    requires forall o', a | 1 <= o' <= |adj| && inv(o', a) :: inv(o' + 1, Update(a, o', BfsDistances(adj, o')))
    ensures inv(|adj| + 1, Sweep(adj, o, acc))
    decreases |adj| + 1 - o
  {
    if o <= |adj| {
      SweepKeeps(adj, inv, o + 1, Update(acc, o, BfsDistances(adj, o)));
    }
  }

  /**
   * `calcularDistancias`, on the entries of the distance vectors: the
   * diameter is the largest finite entry over all ordered pairs (0 when
   * there is none above 0), with the pair (1, 1) in that case; a positive
   * diameter is reported at the first pair, by origin and then target, at
   * which it occurs.
   */
  lemma DiameterIsLargestEntry(adj: Adj)
    requires AdjOK(adj)
    ensures var c := Compute(adj);
      && c.diameter >= 0
      && (forall o, t | 1 <= o <= |adj| && 1 <= t <= |adj| && D(adj, o, t) != INFINITO :: D(adj, o, t) <= c.diameter)
      && (c.diameter == 0 ==> c.ends == (1, 1))
      && (c.diameter > 0 ==>
            var (eo, et) := c.ends;
            && 1 <= eo <= |adj| && 1 <= et <= |adj| && D(adj, eo, et) == c.diameter && c.diameter != INFINITO
            && (forall o, t | 1 <= o <= |adj| && 1 <= t <= |adj| && (o < eo || (o == eo && t < et))
                  && D(adj, o, t) != INFINITO :: D(adj, o, t) < c.diameter))
  {
    ComputeInv(adj);
  }

  /**
   * `calcularDistancias` always replaces the constructor's state: the
   * computed pair is (1, 1) or a pair of vertices, never (-1, -1).
   */
  lemma ComputeOverwritesUnset(adj: Adj)
    requires AdjOK(adj)
    ensures Compute(adj) != Unset
    ensures Compute(adj).ends.0 >= 1 && Compute(adj).ends.1 >= 1
    ensures |adj| >= 1 ==> Compute(adj).ends.0 <= |adj| && Compute(adj).ends.1 <= |adj|
  {
    DiameterIsLargestEntry(adj);
  }

  lemma ComputeInv(adj: Adj)
    requires AdjOK(adj)
    ensures SweepInv(adj, |adj| + 1, Compute(adj))
  {
    var inv := (o, a) => SweepInv(adj, o, a);
    forall o', a | 1 <= o' <= |adj| && inv(o', a) ensures inv(o' + 1, Update(a, o', BfsDistances(adj, o'))) {
      UpdateInv(adj, o', a);
    }
    assert inv(1, Diameter(0, (1, 1)));
    SweepKeeps(adj, inv, 1, Diameter(0, (1, 1)));
  }

  /**
   * The same in terms of the graph: every shortest distance is at most the
   * diameter, a positive diameter is the shortest distance between its
   * pair, and it is below n. This needs every distance to stay below
   * `INFINITO`, which holds when n does not exceed it.
   */
  lemma DiameterIsLargestDistance(adj: Adj)
    requires AdjOK(adj) && |adj| <= INFINITO
    ensures var c := Compute(adj);
      && 0 <= c.diameter && (|adj| > 0 ==> c.diameter < |adj|)
      && (forall o, t, k: nat | 0 <= o < |adj| && 0 <= t < |adj| && ShortestIs(adj, o, t, k) :: k <= c.diameter)
      && (c.diameter > 0 ==>
            var (eo, et) := c.ends;
            && 1 <= eo <= |adj| && 1 <= et <= |adj| && ShortestIs(adj, eo - 1, et - 1, c.diameter))
  {
    var c := Compute(adj);
    ComputeInv(adj);
    forall o, t, k: nat | 0 <= o < |adj| && 0 <= t < |adj| && ShortestIs(adj, o, t, k) ensures k <= c.diameter {
      EntryIsShortest(adj, o, t, k);
    }
    if c.diameter > 0 {
      DiameterEnds(adj, c);
    }
  }

  /** A positive diameter is the shortest distance between its ends, and below n. */
  lemma DiameterEnds(adj: Adj, c: Diameter)
    requires AdjOK(adj) && |adj| <= INFINITO && 0 < c.diameter != INFINITO && FirstAttained(adj, |adj| + 1, c)
    ensures 1 <= c.ends.0 <= |adj| && 1 <= c.ends.1 <= |adj|
    ensures c.diameter < |adj| && ShortestIs(adj, c.ends.0 - 1, c.ends.1 - 1, c.diameter)
  {
    DistanceMeaning(adj, c.ends.0, c.ends.1 - 1);
  }

  /** A shortest distance is the entry of the distance vector. */
  lemma EntryIsShortest(adj: Adj, o: int, t: int, k: nat)
    requires AdjOK(adj) && |adj| <= INFINITO && 0 <= o < |adj| && 0 <= t < |adj| && ShortestIs(adj, o, t, k)
    ensures D(adj, o + 1, t + 1) == k && k != INFINITO
  {
    DistanceMeaning(adj, o + 1, t);
    var p :| PathFrom(adj, o, t, p) && |p| == k + 1;
    assert Reachable(adj, o, t);
    ShortestUnique(adj, o, t, k, D(adj, o + 1, t + 1));
  }

  /** A shortest distance is unique. */
  lemma ShortestUnique(adj: Adj, a: int, b: int, d1: nat, d2: nat)
    requires AdjOK(adj) && ShortestIs(adj, a, b, d1) && ShortestIs(adj, a, b, d2)
    ensures d1 == d2
  {
    var p1 :| PathFrom(adj, a, b, p1) && |p1| == d1 + 1;
    var p2 :| PathFrom(adj, a, b, p2) && |p2| == d2 + 1;
  }
}
