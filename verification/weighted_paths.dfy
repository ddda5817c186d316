/**
 * Walks in a weighted list and their costs. A walk is a sequence of 0-based
 * vertices together with one weight per step, each step using a stored
 * entry `(next id, weight)` of the vertex it leaves; parallel edges with
 * different weights are different steps. Costs are sums of real weights.
 */
module WeightedPaths {
  import opened WeightedListAdjacency
  import opened WeightedView

  predicate IsWalk(l: seq<seq<Entry>>, p: seq<int>, ws: seq<real>) {
    && |p| >= 1 && |ws| == |p| - 1
    && (forall i | 0 <= i < |p| :: 0 <= p[i] < |l|)
    && (forall i | 0 <= i < |ws| :: (p[i + 1] + 1, ws[i]) in l[p[i]])
  }

  /** `p` with weights `ws` is a walk from `a` to `b`. */
  predicate WalkFrom(l: seq<seq<Entry>>, a: int, b: int, p: seq<int>, ws: seq<real>) {
    IsWalk(l, p, ws) && p[0] == a && p[|p| - 1] == b
  }

  /** The sum of the step weights. */
  function Cost(ws: seq<real>): real {
    if |ws| == 0 then 0.0 else Cost(ws[..|ws| - 1]) + ws[|ws| - 1]
  }

  ghost predicate WReachable(l: seq<seq<Entry>>, a: int, b: int) {
    exists p, ws :: WalkFrom(l, a, b, p, ws)
  }

  /** Some walk from `a` to `b` costs exactly `c`. */
  ghost predicate Achievable(l: seq<seq<Entry>>, a: int, b: int, c: real) {
    exists p, ws :: WalkFrom(l, a, b, p, ws) && Cost(ws) == c
  }

  /** `c` is the least cost of a walk from `a` to `b`. */
  ghost predicate ShortestCost(l: seq<seq<Entry>>, a: int, b: int, c: real) {
    && Achievable(l, a, b, c)
    && forall p, ws | WalkFrom(l, a, b, p, ws) :: c <= Cost(ws)
  }

  /** No stored weight is negative. */
  predicate NonNegative(l: seq<seq<Entry>>) {
    forall u, k | 0 <= u < |l| && 0 <= k < |l[u]| :: l[u][k].1 >= 0.0
  }

  lemma WalkRefl(l: seq<seq<Entry>>, a: int)
    requires 0 <= a < |l|
    ensures WalkFrom(l, a, a, [a], []) && Cost([]) == 0.0
    ensures Achievable(l, a, a, 0.0)
  {
    assert WalkFrom(l, a, a, [a], []);
  }

  /** Extending a walk by one stored entry of its last vertex. */
  lemma WalkSnoc(l: seq<seq<Entry>>, a: int, b: int, c: int, w: real, p: seq<int>, ws: seq<real>)
    requires WalkFrom(l, a, b, p, ws) && 0 <= c < |l| && (c + 1, w) in l[b]
    ensures WalkFrom(l, a, c, p + [c], ws + [w]) && Cost(ws + [w]) == Cost(ws) + w
  {
    var q, qs := p + [c], ws + [w];
    assert qs[..|qs| - 1] == ws;
    forall i | 0 <= i < |qs| ensures (q[i + 1] + 1, qs[i]) in l[q[i]] {
      if i < |ws| {
        assert q[i] == p[i] && q[i + 1] == p[i + 1] && qs[i] == ws[i];
      }
    }
  }

  /** A walk of two or more vertices is a shorter walk followed by one stored entry. */
  lemma WalkDropLast(l: seq<seq<Entry>>, a: int, b: int, p: seq<int>, ws: seq<real>)
    requires WalkFrom(l, a, b, p, ws) && |p| >= 2
    ensures WalkFrom(l, a, p[|p| - 2], p[..|p| - 1], ws[..|ws| - 1])
    ensures (b + 1, ws[|ws| - 1]) in l[p[|p| - 2]]
    ensures Cost(ws) == Cost(ws[..|ws| - 1]) + ws[|ws| - 1]
  {
    var q, qs := p[..|p| - 1], ws[..|ws| - 1];
    forall i | 0 <= i < |qs| ensures (q[i + 1] + 1, qs[i]) in l[q[i]] {
      assert q[i] == p[i] && q[i + 1] == p[i + 1] && qs[i] == ws[i];
    }
  }

  /** Extending an achievable cost by one stored entry. */
  lemma AchieveStep(l: seq<seq<Entry>>, a: int, b: int, c: real, k: nat)
    requires WellFormedW(l) && 0 <= b < |l| && k < |l[b]| && Achievable(l, a, b, c)
    ensures Achievable(l, a, l[b][k].0 - 1, c + l[b][k].1)
  {
    var p, ws :| WalkFrom(l, a, b, p, ws) && Cost(ws) == c;
    var (id, w) := l[b][k];
    assert (id - 1 + 1, w) in l[b];
    WalkSnoc(l, a, b, id - 1, w, p, ws);
  }

  /** A shortest cost is unique. */
  lemma ShortestUnique(l: seq<seq<Entry>>, a: int, b: int, c1: real, c2: real)
    requires ShortestCost(l, a, b, c1) && ShortestCost(l, a, b, c2)
    ensures c1 == c2
  {
    var p1, ws1 :| WalkFrom(l, a, b, p1, ws1) && Cost(ws1) == c1;
    var p2, ws2 :| WalkFrom(l, a, b, p2, ws2) && Cost(ws2) == c2;
  }
}
