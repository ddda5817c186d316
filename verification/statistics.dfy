/**
 * `Estatisticas`: degree statistics of a `ListaAdjacencia` and the summary
 * of a component list. Degrees are list lengths; the mean and the median
 * are reals where the original computes `double`s. The vertex count `n` is
 * the one given to the constructor.
 */
module Statistics {
  import opened Sorting
  import opened Edges
  import opened ListAdjacency
  import opened Components

  /** `EstatisticasGrafo`. */
  datatype GraphStats = GraphStats(
    numVertices: int, numEdges: int,
    minDegree: int, maxDegree: int, meanDegree: real, medianDegree: real,
    numComponents: int, componentSizes: seq<int>, connected: bool, degrees: seq<int>,
    largestComponent: int, smallestComponent: int,
    diameter: int, diameterPair: (int, int))

  /** An `Estatisticas` object: its vertex count and the statistics gathered so far. */
  datatype StatsState = StatsState(n: int, stats: GraphStats)

  /** The constructor: the vertex count recorded, every counter 0, not connected, no diameter pair. */
  function NewStats(n: int): (s: StatsState)
    ensures s.n == n && s.stats.numVertices == n
    ensures s.stats.numEdges == 0 && s.stats.minDegree == 0 && s.stats.maxDegree == 0
    ensures s.stats.meanDegree == 0.0 && s.stats.medianDegree == 0.0
    ensures s.stats.numComponents == 0 && !s.stats.connected
    ensures s.stats.largestComponent == 0 && s.stats.smallestComponent == 0
    ensures s.stats.diameter == 0 && s.stats.diameterPair == (-1, -1)
    ensures s.stats.componentSizes == [] && s.stats.degrees == []
  {
    StatsState(n, GraphStats(n, 0, 0, 0, 0.0, 0.0, 0, [], false, [], 0, 0, 0, (-1, -1)))
  }

  // ---------------------------------------------------------------------
  // Folds over integer sequences
  // ---------------------------------------------------------------------

  function Sum(s: seq<int>): int {
    if |s| == 0 then 0 else s[0] + Sum(s[1..])
  }

  /** The value `*minmax_element(...).first` dereferences. */
  function MinOf(s: seq<int>): (m: int)
    requires |s| > 0
    ensures m in s && forall k | 0 <= k < |s| :: m <= s[k]
  {
    if |s| == 1 then s[0]
    else
      var m := MinOf(s[1..]);
      assert forall k | 1 <= k < |s| :: s[k] == s[1..][k - 1];
      if s[0] <= m then s[0] else m
  }

  /** The value `*minmax_element(...).second` dereferences. */
  function MaxOf(s: seq<int>): (m: int)
    requires |s| > 0
    ensures m in s && forall k | 0 <= k < |s| :: s[k] <= m
  {
    if |s| == 1 then s[0]
    else
      var m := MaxOf(s[1..]);
      assert forall k | 1 <= k < |s| :: s[k] == s[1..][k - 1];
      if s[0] >= m then s[0] else m
  }

  /** A sum lies between the length times the least and the length times the greatest element. */
  lemma {:induction false} SumBounds(s: seq<int>, lo: int, hi: int)
    requires forall k | 0 <= k < |s| :: lo <= s[k] <= hi
    ensures |s| * lo <= Sum(s) <= |s| * hi
  {
    if |s| > 0 {
      assert forall k | 0 <= k < |s[1..]| :: s[1..][k] == s[k + 1];
      SumBounds(s[1..], lo, hi);
    }
  }

  // ---------------------------------------------------------------------
  // The median
  // ---------------------------------------------------------------------

  /**
   * `calcularMediana`: 0 for no values; otherwise, on the sorted copy, the
   * middle value for an odd count and the mean of the two middle values for
   * an even one.
   */
  function Median(vals: seq<int>): (m: real)
    ensures |vals| == 0 ==> m == 0.0
  {
    if |vals| == 0 then 0.0
    else
      var r := SortAsc(vals);
      var t := |r|;
      if t % 2 == 0 then (r[t / 2 - 1] + r[t / 2]) as real / 2.0 else r[t / 2] as real
  }

  /** The median is the middle of the sorted values, and lies between the least and greatest value. */
  lemma MedianMeaning(vals: seq<int>)
    requires |vals| > 0
    ensures var r, t := SortAsc(vals), |vals|;
      && (t % 2 == 1 ==> Median(vals) == r[t / 2] as real)
      && (t % 2 == 0 ==> Median(vals) == (r[t / 2 - 1] + r[t / 2]) as real / 2.0)
    ensures MinOf(vals) as real <= Median(vals) <= MaxOf(vals) as real
  {
    var r := SortAsc(vals);
    var t := |r|;
    assert r[t / 2] in multiset(vals);
    if t % 2 == 0 {
      assert r[t / 2 - 1] in multiset(vals);
    }
  }

  /** The median depends only on the values, not on their order: the original sorts a copy. */
  lemma MedianOrderIndependent(a: seq<int>, b: seq<int>)
    requires multiset(a) == multiset(b)
    ensures Median(a) == Median(b)
  {
    SortAscUnique(a, b);
  }

  // ---------------------------------------------------------------------
  // Degrees
  // ---------------------------------------------------------------------

  /** `calcularGraus_Lista`: the length of each of the first `n` lists. */
  function Degrees(n: nat, l: seq<seq<int>>): (g: seq<int>)
    requires n <= |l|
    ensures |g| == n && forall i | 0 <= i < n :: g[i] == |l[i]|
  {
    seq(n, i requires 0 <= i < n => |l[i]|)
  }

  lemma {:induction false} DegreeSumIsTotal(l: seq<seq<int>>)
    ensures Sum(Degrees(|l|, l)) == TotalLength(l)
  {
    if |l| > 0 {
      assert Degrees(|l|, l)[1..] == Degrees(|l[1..]|, l[1..]);
      DegreeSumIsTotal(l[1..]);
    }
  }

  /** On a constructed `ListaAdjacencia` the degrees add up to twice the number of input edges. */
  lemma DegreeSum(n: nat, es: seq<Edge>)
    requires EdgesInRange(n, es)
    ensures Sum(Degrees(n, Build(n, es))) == 2 * |es|
  {
    DegreeSumIsTotal(Build(n, es));
    BuildTotalLength(n, es);
  }

  /**
   * `calcularEstatisticasGrau`: the degrees recorded with their least and
   * greatest value, their sum divided by the constructor's `n`, and their
   * median. The original dereferences `minmax_element` of the list and
   * divides by `n`, so both must be non-empty.
   */
  function DegreeStats(s: StatsState, graus: seq<int>): (r: StatsState)
    requires |graus| > 0 && s.n > 0
    ensures r.n == s.n && r.stats.degrees == graus
    ensures r.stats.minDegree in graus && forall k | 0 <= k < |graus| :: r.stats.minDegree <= graus[k]
    ensures r.stats.maxDegree in graus && forall k | 0 <= k < |graus| :: graus[k] <= r.stats.maxDegree
    ensures r.stats.meanDegree == Sum(graus) as real / s.n as real
    ensures r.stats.medianDegree == Median(graus)
    ensures r.stats == s.stats.(degrees := graus, minDegree := r.stats.minDegree, maxDegree := r.stats.maxDegree,
                                meanDegree := r.stats.meanDegree, medianDegree := r.stats.medianDegree)
  {
    s.(stats := s.stats.(degrees := graus, minDegree := MinOf(graus), maxDegree := MaxOf(graus),
                         meanDegree := Sum(graus) as real / s.n as real, medianDegree := Median(graus)))
  }

  /** When `n` is the number of degrees, the mean and the median lie between the least and the greatest degree. */
  lemma DegreeStatsBounds(s: StatsState, graus: seq<int>)
    requires |graus| > 0 && s.n == |graus|
    ensures var r := DegreeStats(s, graus).stats;
      && r.minDegree as real <= r.meanDegree <= r.maxDegree as real
      && r.minDegree as real <= r.medianDegree <= r.maxDegree as real
  {
    var r := DegreeStats(s, graus).stats;
    SumBounds(graus, r.minDegree, r.maxDegree);
    MedianMeaning(graus);
    MeanBetween(Sum(graus), |graus|, r.minDegree, r.maxDegree);
  }

  lemma MeanBetween(sum: int, n: int, lo: int, hi: int)
    requires n > 0 && n * lo <= sum <= n * hi
    ensures lo as real <= sum as real / n as real <= hi as real
  {
    var q := sum as real / n as real;
    assert q * n as real == sum as real;
    assert (n * lo) as real == n as real * lo as real;
    assert (n * hi) as real == n as real * hi as real;
  }

  // ---------------------------------------------------------------------
  // Components
  // ---------------------------------------------------------------------

  function Sizes(cs: seq<Component>): (z: seq<int>)
    ensures |z| == |cs| && forall i | 0 <= i < |cs| :: z[i] == cs[i].size
  {
    seq(|cs|, i requires 0 <= i < |cs| => cs[i].size)
  }

  /**
   * `adicionarInformacoesComponentes`: the component count, connected
   * exactly when there is one component, the sizes in component order, and
   * their least and greatest value when there are any; with no components
   * the previous least and greatest are kept.
   */
  function AddComponentInfo(s: StatsState, cs: seq<Component>): (r: StatsState)
    ensures r.n == s.n && r.stats.numComponents == |cs| && (r.stats.connected <==> |cs| == 1)
    ensures r.stats.componentSizes == Sizes(cs)
    ensures |cs| > 0 ==>
      && r.stats.smallestComponent in Sizes(cs) && r.stats.largestComponent in Sizes(cs)
      && forall i | 0 <= i < |cs| :: r.stats.smallestComponent <= cs[i].size <= r.stats.largestComponent
    ensures |cs| == 0 ==> r.stats.smallestComponent == s.stats.smallestComponent && r.stats.largestComponent == s.stats.largestComponent
    ensures r.stats == s.stats.(numComponents := |cs|, connected := |cs| == 1, componentSizes := Sizes(cs),
                                smallestComponent := r.stats.smallestComponent, largestComponent := r.stats.largestComponent)
  {
    var sizes := Sizes(cs);
    var st := s.stats.(numComponents := |cs|, connected := |cs| == 1, componentSizes := sizes);
    if |sizes| > 0 then
      s.(stats := st.(smallestComponent := MinOf(sizes), largestComponent := MaxOf(sizes)))
    else s.(stats := st)
  }
}
