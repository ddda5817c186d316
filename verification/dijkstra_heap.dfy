/**
 * `Dijkstra::dijkstraHeap`: a min-queue of (distance, vertex) items starts
 * with the origin at 0; each round pops the least item, skips it if its
 * distance exceeds the vertex's current one, and otherwise relaxes every
 * entry of the vertex, queueing each improvement. The loop ends when the
 * queue is empty, which non-negative weights guarantee.
 */
module HeapDijkstra {
  import opened Common
  import opened Sorting
  import opened WeightedListAdjacency
  import opened WeightedView
  import opened WeightedPaths
  import opened Dijkstra

  /** A queue item `(distance, vertex)`. */
  type Item = (real, int)

  /** The `std::pair` order the `greater<>` min-queue pops by. */
  predicate ItemLe(a: Item, b: Item) {
    a.0 < b.0 || (a.0 == b.0 && a.1 <= b.1)
  }

  lemma ItemLeIsOrder()
    ensures TotalPreorder(ItemLe) && Antisymmetric(ItemLe)
  {
  }

  /**
   * Distances, predecessors and the queue, kept as a sequence sorted by
   * `ItemLe` so that its head is the top of the min-queue.
   */
  datatype HState = HState(dist: seq<Dist>, pred: seq<int>, pq: seq<Item>)

  predicate HShape(st: HState, n: nat) {
    && |st.dist| == n && |st.pred| == n
    && SortedBy(ItemLe, st.pq)
    && (forall k | 0 <= k < |st.pq| :: 0 <= st.pq[k].1 < n)
  }

  /** `pq.push`: the queue with one more item, still ordered. */
  function Push(pq: seq<Item>, x: Item): (r: seq<Item>)
    requires SortedBy(ItemLe, pq)
    ensures SortedBy(ItemLe, r) && multiset(r) == multiset(pq) + multiset{x}
    ensures forall k | 0 <= k < |r| :: r[k] == x || r[k] in pq
  {
    ItemLeIsOrder();
    var r := Insert(ItemLe, x, pq);
    assert forall k | 0 <= k < |r| :: r[k] in multiset(r);
    r
  }

  /** Recording distance `c` and predecessor `p` for `v`, and queueing `(c, v)`. */
  function Improve(st: HState, v: nat, c: real, p: int): (r: HState)
    requires HShape(st, |st.dist|) && v < |st.dist|
    ensures HShape(r, |st.dist|)
  {
    HState(st.dist[v := Fin(c)], st.pred[v := p], Push(st.pq, (c, v)))
  }

  /** One entry `(id, w)` of `u`: if the distance through `u` is below the current one, improve. */
  function RelaxOne(st: HState, u: nat, e: Entry): (r: HState)
    requires HShape(st, |st.dist|) && u < |st.dist| && 1 <= e.0 <= |st.dist|
    ensures HShape(r, |st.dist|)
  {
    var cand := Add(st.dist[u], e.1);
    if Below(cand, st.dist[e.0 - 1]) then Improve(st, e.0 - 1, cand.r, u + 1) else st
  }

  /** The relaxation loop over the entries of a processed `u`. */
  function RelaxH(st: HState, u: nat, es: seq<Entry>): (r: HState)
    requires HShape(st, |st.dist|) && u < |st.dist|
    requires forall k | 0 <= k < |es| :: 1 <= es[k].0 <= |st.dist|
    ensures HShape(r, |st.dist|)
    decreases |es|
  {
    if |es| == 0 then st
    else RelaxH(RelaxOne(st, u, es[0]), u, es[1..])
  }

  // ---------------------------------------------------------------------
  // Why the loop ends.
  // ---------------------------------------------------------------------

  /** How many queued items carry `x`'s current distance. */
  function Copies(st: HState, x: nat): nat
    requires x < |st.dist| && st.dist[x].Fin?
  {
    multiset(st.pq)[(st.dist[x].r, x)]
  }

  /** `x` has a finite distance and no queued item carries it: its item has been processed. */
  predicate Settled(st: HState, x: nat)
    requires x < |st.dist|
  {
    st.dist[x].Fin? && Copies(st, x) == 0
  }

  function SettledMarks(st: HState): (m: seq<bool>)
    ensures |m| == |st.dist| && forall x | 0 <= x < |st.dist| :: m[x] == Settled(st, x)
  {
    seq(|st.dist|, x requires 0 <= x < |st.dist| => Settled(st, x))
  }

  /** An item names a vertex whose finite distance is at most the item's. */
  predicate ItemOK(st: HState, it: Item) {
    0 <= it.1 < |st.dist| && st.dist[it.1].Fin? && st.dist[it.1].r <= it.0
  }

  ghost predicate ItemsValid(st: HState) {
    forall it | it in st.pq :: ItemOK(st, it)
  }

  /** No distance is carried by two items. */
  ghost predicate OneCopy(st: HState) {
    forall x | 0 <= x < |st.dist| && st.dist[x].Fin? :: Copies(st, x) <= 1
  }

  /** No item is below a settled distance. */
  ghost predicate SettledFirst(st: HState) {
    forall x, it | 0 <= x < |st.dist| && Settled(st, x) && it in st.pq :: st.dist[x].r <= it.0
  }

  /**
   * What keeps the loop finite with non-negative weights: a settled vertex
   * is never improved again, so each round either drops a stale item or
   * settles one more vertex.
   */
  ghost predicate HInv(st: HState, n: nat) {
    HShape(st, n) && ItemsValid(st) && OneCopy(st) && SettledFirst(st)
  }

  /**
   * During the relaxation of `u` at `d`: `u` settled, settled distances at
   * most `d`, items at least `d` (which puts settled distances first).
   */
  ghost predicate RelaxInv(st: HState, n: nat, u: nat, d: real) {
    && HShape(st, n) && ItemsValid(st) && OneCopy(st) && u < n
    && st.dist[u] == Fin(d) && Settled(st, u)
    && (forall x | 0 <= x < n && Settled(st, x) :: st.dist[x].r <= d)
    && (forall it | it in st.pq :: d <= it.0)
  }

  /** No item carries a distance below its vertex's current one. */
  lemma NoItemBelow(st: HState, v: nat, c: real)
    requires ItemsValid(st) && v < |st.dist| && Below(Fin(c), st.dist[v])
    ensures multiset(st.pq)[(c, v)] == 0
  {
    assert (c, v) !in st.pq;
  }

  /** An improvement of `v` changes the copy count of `v` only. */
  lemma ImproveCopies(st: HState, v: nat, c: real, p: int)
    requires HShape(st, |st.dist|) && ItemsValid(st) && v < |st.dist| && Below(Fin(c), st.dist[v])
    ensures Copies(Improve(st, v, c, p), v) == 1
    ensures forall x | 0 <= x < |st.dist| && x != v && st.dist[x].Fin? :: Copies(Improve(st, v, c, p), x) == Copies(st, x)
  {
    NoItemBelow(st, v, c);
  }

  /** An improvement to at least `d` targets an unsettled vertex other than `u`. */
  lemma ImproveUnsettled(st: HState, n: nat, u: nat, d: real, v: nat, c: real)
    requires RelaxInv(st, n, u, d) && v < n && d <= c && Below(Fin(c), st.dist[v])
    ensures !Settled(st, v) && v != u
  {
  }

  lemma ImproveKeeps(st: HState, n: nat, u: nat, d: real, v: nat, c: real, p: int, r: HState)
    requires RelaxInv(st, n, u, d) && v < n && d <= c && Below(Fin(c), st.dist[v])
    requires r == Improve(st, v, c, p)
    ensures RelaxInv(r, n, u, d) && SettledMarks(r) == SettledMarks(st)
  {
    ImproveUnsettled(st, n, u, d, v, c);
    ImproveCopies(st, v, c, p);
    ImproveSettled(st, v, c, p);
    ImproveItems(st, v, c, p, d);
  }

  /** An improvement of an unsettled vertex settles or unsettles nothing. */
  lemma ImproveSettled(st: HState, v: nat, c: real, p: int)
    requires HShape(st, |st.dist|) && ItemsValid(st) && v < |st.dist| && Below(Fin(c), st.dist[v]) && !Settled(st, v)
    ensures forall x | 0 <= x < |st.dist| :: Settled(Improve(st, v, c, p), x) == Settled(st, x)
    ensures SettledMarks(Improve(st, v, c, p)) == SettledMarks(st)
  {
    ImproveCopies(st, v, c, p);
    var st1 := Improve(st, v, c, p);
    assert forall x | 0 <= x < |st.dist| :: Settled(st1, x) == Settled(st, x);
  }

  /** After an improvement to at least `d`, items stay valid and at least `d`. */
  lemma ImproveItems(st: HState, v: nat, c: real, p: int, d: real)
    requires HShape(st, |st.dist|) && ItemsValid(st) && v < |st.dist| && Below(Fin(c), st.dist[v])
    requires d <= c && forall it | it in st.pq :: d <= it.0
    ensures ItemsValid(Improve(st, v, c, p))
    ensures forall it | it in Improve(st, v, c, p).pq :: d <= it.0
  {
    var st1 := Improve(st, v, c, p);
    forall it | it in st1.pq ensures ItemOK(st1, it) && d <= it.0 {
      assert it in multiset(st1.pq);
      if it != (c, v) {
        assert it in multiset(st.pq);
        assert ItemOK(st, it);
      }
    }
  }

  /** One relaxation step keeps the invariant and changes no settled mark. */
  lemma RelaxStep(st: HState, n: nat, u: nat, d: real, e: Entry)
    requires RelaxInv(st, n, u, d) && n == |st.dist| && 1 <= e.0 <= n && e.1 >= 0.0
    ensures RelaxInv(RelaxOne(st, u, e), n, u, d) && SettledMarks(RelaxOne(st, u, e)) == SettledMarks(st)
  {
    if Below(Fin(d + e.1), st.dist[e.0 - 1]) {
      RelaxImproves(st, n, u, d, e);
    } else {
      RelaxSkips(st, n, u, d, e);
    }
  }

  /** A step that improves its target keeps the invariant. */
  lemma RelaxImproves(st: HState, n: nat, u: nat, d: real, e: Entry)
    requires RelaxInv(st, n, u, d) && n == |st.dist| && 1 <= e.0 <= n && e.1 >= 0.0
    requires Below(Fin(d + e.1), st.dist[e.0 - 1])
    ensures RelaxInv(RelaxOne(st, u, e), n, u, d) && SettledMarks(RelaxOne(st, u, e)) == SettledMarks(st)
  {
    RelaxOneCases(st, u, e, d);
    ImproveKeeps(st, n, u, d, e.0 - 1, d + e.1, u + 1, RelaxOne(st, u, e));
  }

  /** A step that does not improve its target changes nothing. */
  lemma RelaxSkips(st: HState, n: nat, u: nat, d: real, e: Entry)
    requires RelaxInv(st, n, u, d) && n == |st.dist| && 1 <= e.0 <= n && e.1 >= 0.0
    requires !Below(Fin(d + e.1), st.dist[e.0 - 1])
    ensures RelaxInv(RelaxOne(st, u, e), n, u, d) && SettledMarks(RelaxOne(st, u, e)) == SettledMarks(st)
  {
    RelaxOneCases(st, u, e, d);
  }

  /** From `u` at distance `d`, an entry either improves its target through `u` or changes nothing. */
  lemma RelaxOneCases(st: HState, u: nat, e: Entry, d: real)
    requires HShape(st, |st.dist|) && u < |st.dist| && 1 <= e.0 <= |st.dist| && st.dist[u] == Fin(d)
    ensures Below(Fin(d + e.1), st.dist[e.0 - 1]) ==> RelaxOne(st, u, e) == Improve(st, e.0 - 1, d + e.1, u + 1)
    ensures !Below(Fin(d + e.1), st.dist[e.0 - 1]) ==> RelaxOne(st, u, e) == st
  {
  }

  lemma {:induction false} RelaxHInv(st: HState, n: nat, u: nat, d: real, es: seq<Entry>)
    requires RelaxInv(st, n, u, d) && n == |st.dist|
    requires forall k | 0 <= k < |es| :: 1 <= es[k].0 <= n && es[k].1 >= 0.0
    ensures RelaxInv(RelaxH(st, u, es), n, u, d) && SettledMarks(RelaxH(st, u, es)) == SettledMarks(st)
    ensures HInv(RelaxH(st, u, es), n)
    decreases |es|
  {
    if |es| == 0 {
      RelaxInvHInv(st, n, u, d);
    } else {
      RelaxStep(st, n, u, d, es[0]);
      RelaxHInv(RelaxOne(st, u, es[0]), n, u, d, es[1..]);
    }
  }

  /** Settled distances at most `d` and items at least `d` put settled distances first. */
  lemma RelaxInvHInv(st: HState, n: nat, u: nat, d: real)
    requires RelaxInv(st, n, u, d)
    ensures HInv(st, n)
  {
    forall x, it | 0 <= x < |st.dist| && Settled(st, x) && it in st.pq ensures st.dist[x].r <= it.0 {
      assert st.dist[x].r <= d;
    }
  }

  /** Dropping the head: copy counts fall only for the head's own distance. */
  lemma PopCopies(st: HState, x: nat)
    requires |st.pq| > 0 && x < |st.dist| && st.dist[x].Fin?
    ensures Copies(st.(pq := st.pq[1..]), x) == Copies(st, x) - (if st.pq[0] == (st.dist[x].r, x) then 1 else 0)
    ensures forall it | it in st.pq[1..] :: it in st.pq
  {
    assert st.pq == [st.pq[0]] + st.pq[1..];
  }

  /** Popping a stale head changes no settled mark. */
  lemma StaleStep(st: HState, n: nat)
    requires HInv(st, n) && |st.pq| > 0 && Below(st.dist[st.pq[0].1], Fin(st.pq[0].0))
    ensures HInv(st.(pq := st.pq[1..]), n) && SettledMarks(st.(pq := st.pq[1..])) == SettledMarks(st)
  {
    var st0 := st.(pq := st.pq[1..]);
    forall x | 0 <= x < n && st.dist[x].Fin? ensures Copies(st0, x) == Copies(st, x) {
      PopCopies(st, x);
    }
    assert SettledMarks(st0) == SettledMarks(st);
    PopCopies(st, st.pq[0].1);
  }

  /** Popping a live head settles its vertex and sets up the relaxation invariant. */
  lemma LivePop(st: HState, n: nat)
    requires HInv(st, n) && |st.pq| > 0 && !Below(st.dist[st.pq[0].1], Fin(st.pq[0].0))
    ensures var (d, u) := st.pq[0];
      && RelaxInv(st.(pq := st.pq[1..]), n, u, d)
      && !SettledMarks(st)[u] && SettledMarks(st.(pq := st.pq[1..])) == SettledMarks(st)[u := true]
  {
    var d, u := st.pq[0].0, st.pq[0].1;
    var st0 := st.(pq := st.pq[1..]);
    LivePopMarks(st, n);
    PopKeeps(st, n);
    forall it | it in st0.pq ensures d <= it.0 {
      var k :| 0 <= k < |st0.pq| && st0.pq[k] == it;
      assert ItemLe(st.pq[0], st.pq[k + 1]);
    }
    forall x | 0 <= x < n && Settled(st0, x) ensures st0.dist[x].r <= d {
      if x != u {
        assert Settled(st, x);
      }
    }
  }

  /** Dropping the head keeps the queue ordered, its items valid, and at most one copy per distance. */
  lemma PopKeeps(st: HState, n: nat)
    requires HInv(st, n) && |st.pq| > 0
    ensures var st0 := st.(pq := st.pq[1..]);
      HShape(st0, n) && ItemsValid(st0) && OneCopy(st0)
  {
    var st0 := st.(pq := st.pq[1..]);
    forall x | 0 <= x < n && st.dist[x].Fin? ensures Copies(st0, x) <= Copies(st, x) {
      PopCopies(st, x);
    }
    assert st.pq == [st.pq[0]] + st.pq[1..];
    forall it | it in st0.pq ensures ItemOK(st0, it) {
      assert it in st.pq;
    }
    forall i, j | 0 <= i < j < |st0.pq| ensures ItemLe(st0.pq[i], st0.pq[j]) {
      assert st0.pq[i] == st.pq[i + 1] && st0.pq[j] == st.pq[j + 1];
    }
  }

  /** Popping a live head settles exactly its vertex, which was unsettled. */
  lemma LivePopMarks(st: HState, n: nat)
    requires HShape(st, n) && ItemsValid(st) && OneCopy(st)
    requires |st.pq| > 0 && !Below(st.dist[st.pq[0].1], Fin(st.pq[0].0))
    ensures var u := st.pq[0].1; var st0 := st.(pq := st.pq[1..]);
      && u < n && st.dist[u] == Fin(st.pq[0].0)
      && !Settled(st, u) && Settled(st0, u)
      && (forall x | 0 <= x < n && x != u :: Settled(st0, x) == Settled(st, x))
      && !SettledMarks(st)[u] && SettledMarks(st0) == SettledMarks(st)[u := true]
  {
    var u := st.pq[0].1;
    var st0 := st.(pq := st.pq[1..]);
    assert ItemOK(st, st.pq[0]);
    assert st.pq[0] in multiset(st.pq);
    PopCopies(st, u);
    forall x | 0 <= x < n && x != u && st.dist[x].Fin? ensures Copies(st0, x) == Copies(st, x) {
      PopCopies(st, x);
    }
    assert SettledMarks(st0) == SettledMarks(st)[u := true];
  }

  /**
   * The main loop, until the queue is empty. It is only guaranteed to end
   * for non-negative weights: with a negative edge its two endpoints keep
   * improving each other.
   */
  function HLoop(l: seq<seq<Entry>>, st: HState): (r: HState)
    requires WellFormedW(l) && NonNegative(l) && HInv(st, |l|)
    ensures HInv(r, |l|) && r.pq == []
    decreases |l| - CountTrue(SettledMarks(st)), |st.pq|
  {
    if |st.pq| == 0 then st
    else
      var (d, u) := st.pq[0];
      if Below(st.dist[u], Fin(d)) then
        StaleStep(st, |l|);
        HLoop(l, st.(pq := st.pq[1..]))
      else
        LivePop(st, |l|);
        assert forall k | 0 <= k < |l[u]| :: 1 <= l[u][k].0 <= |l| && l[u][k].1 >= 0.0;
        RelaxHInv(st.(pq := st.pq[1..]), |l|, u, d, l[u]);
        CountTrueSet(SettledMarks(st), u);
        HLoop(l, RelaxH(st.(pq := st.pq[1..]), u, l[u]))
  }

  function HStart(n: nat, s: nat): (st: HState)
    requires s < n
    ensures HInv(st, n)
  {
    var st := HState(InitialDist(n, s), NoPreds(n), [(0.0, s)]);
    assert !Settled(st, s);
    st
  }

  /** `dijkstraHeap` from the 1-based `origin`, which the original indexes with unchecked. */
  function DijkstraHeap(l: seq<seq<Entry>>, origin: int): (r: DijkstraResult)
    requires WellFormedW(l) && NonNegative(l) && 1 <= origin <= |l|
    ensures |r.dist| == |l| && |r.pred| == |l| && r.origin == origin
  {
    var st := HLoop(l, HStart(|l|, origin - 1));
    DijkstraResult(st.dist, st.pred, origin)
  }
}
