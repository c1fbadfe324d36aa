/** The empirical mapping from rank scores to token lengths. */
module RankQuantiles {
  import opened Optional
  import opened Orders
  import opened Sorting

  const MIN_PERCENTILE: int := 10
  const MAX_PERCENTILE: int := 99
  const MAPPING_VERSION := "uncalibrated-rank-lookup-v1"
  const APPROXIMATION_NOTICE :=
    "Quantiles are approximations obtained by mapping a rank score through " +
    "the empirical training-length distribution, not calibrated intervals. " +
    "Scheduling is driven by the rank score in signals."

  /** A manifest whose numbers have been read; `exclusions` counts its structural exclusions. */
  datatype Manifest = Manifest(
    mappingVersion: string,
    approximationNotice: string,
    modelVersion: string,
    sampleCount: int,
    exclusions: nat,
    percentiles: map<int, real>,
    globals: map<int, real>)

  /** `_validate_manifest`. */
  predicate Accepted(m: Manifest) {
    && m.mappingVersion == MAPPING_VERSION
    && m.approximationNotice == APPROXIMATION_NOTICE
    && m.modelVersion != ""
    && m.exclusions <= 5 && m.sampleCount == 6000 - m.exclusions
    && (forall p :: MIN_PERCENTILE <= p <= MAX_PERCENTILE ==> p in m.percentiles)
    && (forall p :: p in m.percentiles ==> MIN_PERCENTILE <= p <= MAX_PERCENTILE && m.percentiles[p] >= 0.0)
    && (forall p, q :: p in m.percentiles && q in m.percentiles && p <= q ==> m.percentiles[p] <= m.percentiles[q])
    && m.globals.Keys == {50, 70, 90}
    && 0.0 < m.globals[50] <= m.globals[70] <= m.globals[90]
  }

  function Ceil(x: real): int {
    if x.Floor as real == x then x.Floor else x.Floor + 1
  }

  function Position(score: real): (p: real)
    ensures MIN_PERCENTILE as real <= p <= MAX_PERCENTILE as real
  {
    RMin(MAX_PERCENTILE as real, RMax(MIN_PERCENTILE as real, score * 100.0))
  }

  /** The point a share `t` of the way along a segment. */
  function Along(start: real, width: real, t: real): real { start + t * width }

  /** The interpolated length at a percentile position. */
  function Interpolate(m: Manifest, position: real): real
    requires Accepted(m) && MIN_PERCENTILE as real <= position <= MAX_PERCENTILE as real
  {
    var lower := m.percentiles[position.Floor];
    var upper := m.percentiles[Ceil(position)];
    Along(lower, upper - lower, position - position.Floor as real)
  }

  datatype Quantiles = Quantiles(p50: real, p70: real, p90: real)

  /** `map_score`. */
  function MapScore(m: Manifest, score: real): Quantiles
    requires Accepted(m)
  {
    var point := Interpolate(m, Position(score));
    Quantiles(point, point * m.globals[70] / m.globals[50], point * m.globals[90] / m.globals[50])
  }

  // ----- what the mapping is -----

  lemma FloorAndCeil(p: int, t: real)
    requires 0.0 <= t < 1.0
    ensures (p as real + t).Floor == p
    ensures Ceil(p as real + t) == if t == 0.0 then p else p + 1
  {
  }

  /**
   The lookup, from the score. Between two percentiles the median length is the mean of
   their lengths, weighted by how near the score is to each; below the first and above
   the last it is theirs. The other two quantiles keep the global proportions.
   */
  lemma MapScoreInterpolates(m: Manifest, p: int, t: real)
    requires Accepted(m) && MIN_PERCENTILE <= p < MAX_PERCENTILE && 0.0 <= t <= 1.0
    ensures p in m.percentiles && p + 1 in m.percentiles
    ensures MapScore(m, (p as real + t) / 100.0).p50 == (1.0 - t) * m.percentiles[p] + t * m.percentiles[p + 1]
  {
    PositionOf(p, t);
    assert p in m.percentiles && p + 1 in m.percentiles;
    hide Ceil, Position, Accepted;
    InterpolateAt(m, p, t);
  }

  lemma PositionOf(p: int, t: real)
    requires MIN_PERCENTILE <= p < MAX_PERCENTILE && 0.0 <= t <= 1.0
    ensures Position((p as real + t) / 100.0) == p as real + t
  {
  }

  lemma InterpolateAt(m: Manifest, p: int, t: real)
    requires Accepted(m) && MIN_PERCENTILE <= p < MAX_PERCENTILE && 0.0 <= t <= 1.0
    requires p in m.percentiles && p + 1 in m.percentiles
    ensures Interpolate(m, p as real + t) == (1.0 - t) * m.percentiles[p] + t * m.percentiles[p + 1]
  {
    hide Ceil, Accepted;
    if t < 1.0 {
      FloorAndCeil(p, t);
      if t > 0.0 { WeightedMean(m.percentiles[p], m.percentiles[p + 1], t); }
    } else {
      FloorAndCeil(p + 1, 0.0);
    }
  }

  lemma WeightedMean(a: real, b: real, t: real)
    ensures Along(a, b - a, t) == (1.0 - t) * a + t * b
  {
  }

  lemma MapScoreAtTheEnds(m: Manifest, score: real)
    requires Accepted(m)
    ensures MIN_PERCENTILE in m.percentiles && MAX_PERCENTILE in m.percentiles
    ensures score <= 0.1 ==> MapScore(m, score).p50 == m.percentiles[MIN_PERCENTILE]
    ensures score >= 0.99 ==> MapScore(m, score).p50 == m.percentiles[MAX_PERCENTILE]
  {
    hide Accepted;
    FloorAndCeil(MIN_PERCENTILE, 0.0);
    FloorAndCeil(MAX_PERCENTILE, 0.0);
    Ordered(m, MIN_PERCENTILE, MAX_PERCENTILE);
  }

  lemma PercentileIsLookedUp(m: Manifest, p: int)
    requires Accepted(m) && MIN_PERCENTILE <= p <= MAX_PERCENTILE
    ensures p in m.percentiles && MapScore(m, p as real / 100.0).p50 == m.percentiles[p]
  {
    hide Accepted, MapScore;
    Ordered(m, p, p);
    if p < MAX_PERCENTILE {
      MapScoreInterpolates(m, p, 0.0);
    } else {
      MapScoreAtTheEnds(m, p as real / 100.0);
    }
  }

  lemma QuantilesInProportion(m: Manifest, score: real)
    requires Accepted(m)
    ensures 50 in m.globals && 70 in m.globals && 90 in m.globals
    ensures var q := MapScore(m, score);
      q.p70 * m.globals[50] == q.p50 * m.globals[70] && q.p90 * m.globals[50] == q.p50 * m.globals[90]
  {
    hide Interpolate, Position;
    GlobalsOrdered(m);
  }

  // ----- monotonicity -----

  lemma ProductOrder(x: real, y: real, w: real)
    requires x <= y && w >= 0.0
    ensures x * w <= y * w
  {
    assert (y - x) * w >= 0.0;
  }

  lemma ScaleByUnit(t: real, w: real)
    requires 0.0 <= t <= 1.0 && w >= 0.0
    ensures 0.0 <= t * w <= w
  {
    ProductOrder(0.0, t, w);
    ProductOrder(t, 1.0, w);
  }

  lemma Ordered(m: Manifest, p: int, q: int)
    requires Accepted(m) && MIN_PERCENTILE <= p <= q <= MAX_PERCENTILE
    ensures p in m.percentiles && q in m.percentiles
    ensures 0.0 <= m.percentiles[p] <= m.percentiles[q]
  {
  }

  lemma WithinSegment(start: real, width: real, t: real)
    requires width >= 0.0 && 0.0 <= t <= 1.0
    ensures start <= Along(start, width, t) <= start + width
  {
    ScaleByUnit(t, width);
  }

  /** Interpolation stays between its two support points. */
  lemma InterpolateBetween(m: Manifest, position: real)
    requires Accepted(m) && MIN_PERCENTILE as real <= position <= MAX_PERCENTILE as real
    ensures MIN_PERCENTILE <= position.Floor <= Ceil(position) <= MAX_PERCENTILE
    ensures m.percentiles[position.Floor] <= Interpolate(m, position) <= m.percentiles[Ceil(position)]
  {
    Ordered(m, position.Floor, Ceil(position));
    var lower, upper := m.percentiles[position.Floor], m.percentiles[Ceil(position)];
    hide Along;
    WithinSegment(lower, upper - lower, position - position.Floor as real);
  }

  /** On one segment, a higher position gives a longer length. */
  lemma SegmentMonotone(start: real, width: real, t: real, u: real)
    requires width >= 0.0 && t <= u
    ensures Along(start, width, t) <= Along(start, width, u)
  {
    ProductOrder(t, u, width);
  }

  lemma InterpolateMonotone(m: Manifest, p: real, q: real)
    requires Accepted(m) && MIN_PERCENTILE as real <= p <= q <= MAX_PERCENTILE as real
    ensures Interpolate(m, p) <= Interpolate(m, q)
  {
    hide Along, Accepted;
    InterpolateBetween(m, p);
    InterpolateBetween(m, q);
    if p.Floor == q.Floor {
      if p.Floor as real != p {
        Ordered(m, p.Floor, Ceil(p));
        var lower, upper := m.percentiles[p.Floor], m.percentiles[Ceil(p)];
        SegmentMonotone(lower, upper - lower, p - p.Floor as real, q - q.Floor as real);
      }
    } else {
      Ordered(m, Ceil(p), q.Floor);
    }
  }

  /** A higher rank score never maps to a shorter length. */
  lemma MapScoreMonotone(m: Manifest, s1: real, s2: real)
    requires Accepted(m) && s1 <= s2
    ensures MapScore(m, s1).p50 <= MapScore(m, s2).p50
  {
    hide Accepted, Interpolate;
    InterpolateMonotone(m, Position(s1), Position(s2));
  }

  lemma GlobalsOrdered(m: Manifest)
    requires Accepted(m)
    ensures 50 in m.globals && 70 in m.globals && 90 in m.globals
    ensures 0.0 < m.globals[50] <= m.globals[70] <= m.globals[90]
  {
  }

  /** Every mapped length lies between the extreme percentiles. */
  lemma PointWithinPercentiles(m: Manifest, score: real)
    requires Accepted(m)
    ensures MIN_PERCENTILE in m.percentiles && MAX_PERCENTILE in m.percentiles
    ensures 0.0 <= m.percentiles[MIN_PERCENTILE] <= Interpolate(m, Position(score)) <= m.percentiles[MAX_PERCENTILE]
  {
    hide Interpolate, Ceil, Accepted;
    var position := Position(score);
    InterpolateBetween(m, position);
    Ordered(m, MIN_PERCENTILE, position.Floor);
    Ordered(m, Ceil(position), MAX_PERCENTILE);
  }

  /** And the three quantiles are ordered. */
  lemma MapScoreOrdered(m: Manifest, score: real)
    requires Accepted(m)
    ensures MIN_PERCENTILE in m.percentiles && MAX_PERCENTILE in m.percentiles
    ensures m.percentiles[MIN_PERCENTILE] <= MapScore(m, score).p50 <= m.percentiles[MAX_PERCENTILE]
    ensures MapScore(m, score).p50 <= MapScore(m, score).p70 <= MapScore(m, score).p90
  {
    hide Interpolate, Position, Accepted;
    GlobalsOrdered(m);
    PointWithinPercentiles(m, score);
    var point := Interpolate(m, Position(score));
    assert MapScore(m, score) == Quantiles(point, point * m.globals[70] / m.globals[50], point * m.globals[90] / m.globals[50]);
    hide MapScore;
    ScaledQuantiles(point, m.globals[50], m.globals[70], m.globals[90]);
  }

  lemma ScaledQuantiles(point: real, g50: real, g70: real, g90: real)
    requires point >= 0.0 && 0.0 < g50 <= g70 <= g90
    ensures point <= point * g70 / g50 <= point * g90 / g50
  {
    RatioOrder(point, g50, g70, g50);
    RatioOrder(point, g70, g90, g50);
    Cancel(point, g50);
  }

  lemma Cancel(x: real, d: real)
    requires d > 0.0
    ensures x * d / d == x
  {
    var y := x * d / d;
    assert y * d == x * d;
    assert (y - x) * d == 0.0;
  }

  lemma RatioOrder(point: real, a: real, b: real, d: real)
    requires point >= 0.0 && a <= b && d > 0.0
    ensures point * a / d <= point * b / d
  {
    assert point * (b - a) >= 0.0;
    var x, y := point * a / d, point * b / d;
    assert (y - x) * d == point * b - point * a;
  }

  // ----- rounding -----

  /** Python's `round`: to the nearest integer, ties to the even one. */
  function RoundHalfEven(x: real): int {
    var down := x.Floor;
    var rest := x - down as real;
    if rest < 0.5 then down
    else if rest > 0.5 then down + 1
    else if down % 2 == 0 then down
    else down + 1
  }

  lemma RoundIsNearest(x: real)
    ensures -0.5 <= RoundHalfEven(x) as real - x <= 0.5
    ensures (RoundHalfEven(x) as real - x == 0.5 || RoundHalfEven(x) as real - x == -0.5) ==> RoundHalfEven(x) % 2 == 0
  {
  }

  lemma RoundMonotone(x: real, y: real)
    ensures x <= y ==> RoundHalfEven(x) <= RoundHalfEven(y)
  {
    if x <= y && x.Floor < y.Floor {
      assert RoundHalfEven(x) <= x.Floor + 1 <= y.Floor <= RoundHalfEven(y);
    }
  }

  lemma RoundWhole(n: int)
    ensures RoundHalfEven(n as real) == n
  {
  }

  // ----- building the manifest -----

  /** `percentile / 100 * n`. */
  function Share(n: int, percentile: int): real { percentile as real / 100.0 * n as real }

  /** The index of nearest rank `ceil(percentile / 100 * n)` among `n` values. */
  function NearestIndex(n: int, percentile: int): (i: int)
    requires n > 0
    ensures 0 <= i < n
  {
    var index := Ceil(Share(n, percentile)) - 1;
    var capped := if index < n - 1 then index else n - 1;
    if capped < 0 then 0 else capped
  }

  /** `nearest_rank`. */
  function NearestRank(sorted: seq<int>, percentile: int): int
    requires sorted != []
  {
    sorted[NearestIndex(|sorted|, percentile)]
  }

  lemma ShareMonotone(n: int, p: int, q: int)
    requires n > 0 && p <= q
    ensures Share(n, p) <= Share(n, q)
  {
    ProductOrder(p as real / 100.0, q as real / 100.0, n as real);
  }

  lemma NearestIndexMonotone(n: int, p: int, q: int)
    requires n > 0 && p <= q
    ensures NearestIndex(n, p) <= NearestIndex(n, q)
  {
    hide Ceil, Share;
    ShareMonotone(n, p, q);
    CeilMonotone(Share(n, p), Share(n, q));
  }

  /** Percentiles of a sorted list come out in order, as the manifest check asks. */
  lemma NearestRankMonotone(sorted: seq<int>, p: int, q: int)
    requires sorted != [] && 0 <= p <= q
    requires forall i, j :: 0 <= i <= j < |sorted| ==> sorted[i] <= sorted[j]
    ensures NearestRank(sorted, p) <= NearestRank(sorted, q)
  {
    hide NearestIndex;
    NearestIndexMonotone(|sorted|, p, q);
  }

  lemma CeilMonotone(x: real, y: real)
    requires x <= y
    ensures Ceil(x) <= Ceil(y)
  {
    assert x.Floor <= y.Floor;
  }

  function UpTo(sorted: seq<int>, v: int): set<int> { set i | 0 <= i < |sorted| && sorted[i] <= v }

  function Range(n: nat): (r: set<int>)
    ensures |r| == n
    ensures forall i :: i in r <==> 0 <= i < n
  {
    if n == 0 then {} else Range(n - 1) + {n - 1}
  }

  lemma NearestIndexIsCeiling(n: int, percentile: int)
    requires n > 0 && 0 < percentile <= 100
    ensures 0.0 < Share(n, percentile) <= n as real
    ensures NearestIndex(n, percentile) == Ceil(Share(n, percentile)) - 1
  {
    ScaleByUnit(percentile as real / 100.0, n as real);
    assert percentile as real / 100.0 * n as real > 0.0;
    hide Share;
    CeilMonotone(Share(n, percentile), n as real);
  }

  /**
   The nearest-rank value is the least one that covers the share: at least that much of
   the list is no greater, and less than that much is no greater than any smaller value.
   */
  lemma NearestRankIsLeastCover(sorted: seq<int>, percentile: int, v: int)
    requires sorted != [] && 0 < percentile <= 100
    requires forall i, j :: 0 <= i <= j < |sorted| ==> sorted[i] <= sorted[j]
    ensures |UpTo(sorted, NearestRank(sorted, percentile))| as real >= Share(|sorted|, percentile)
    ensures v < NearestRank(sorted, percentile) ==> (|UpTo(sorted, v)| as real) < Share(|sorted|, percentile)
  {
    hide NearestIndex, Share;
    NearestIndexIsCeiling(|sorted|, percentile);
    var k := NearestIndex(|sorted|, percentile);
    SubsetSize(Range(k + 1), UpTo(sorted, sorted[k]));
    if v < sorted[k] {
      SubsetSize(UpTo(sorted, v), Range(k));
    }
  }

  // ----- the manifest that is built -----

  function LengthKey(length: nat): Key { Key(length as real, 0.0, "") }

  function SortedLengths(lengths: seq<nat>): (r: seq<nat>)
    ensures |r| == |lengths| && multiset(r) == multiset(lengths)
  {
    Sort(LengthKey, lengths)
  }

  function Percentiles(sorted: seq<int>, percentiles: set<int>): map<int, real>
    requires sorted != []
  {
    map p | p in percentiles :: NearestRank(sorted, p) as real
  }

  /** `build_rank_quantile_artifacts`, from the output lengths on; None stands for its ValueErrors. */
  function BuildManifest(lengths: seq<nat>, modelVersion: string, expectedCount: int, exclusions: nat): Option<Manifest> {
    if modelVersion == "" || expectedCount < 1 || |lengths| != expectedCount then None
    else
      var sorted := SortedLengths(lengths);
      if NearestRank(sorted, 50) <= 0 then None
      else
        Some(Manifest(
          MAPPING_VERSION, APPROXIMATION_NOTICE, modelVersion, |lengths|, exclusions,
          Percentiles(sorted, Range(MAX_PERCENTILE + 1) - Range(MIN_PERCENTILE)), Percentiles(sorted, {50, 70, 90})))
  }

  /**
   Building and loading agree, but for one thing the builder leaves to its caller: a
   manifest that is built is accepted if and only if it counts at most five exclusions
   and these with the records make 6000.
   */
  lemma BuiltManifestIsAcceptedIff(lengths: seq<nat>, modelVersion: string, expectedCount: int, exclusions: nat)
    requires BuildManifest(lengths, modelVersion, expectedCount, exclusions).Some?
    ensures Accepted(BuildManifest(lengths, modelVersion, expectedCount, exclusions).value)
      <==> exclusions <= 5 && |lengths| + exclusions == 6000
  {
    hide NearestRank, SortedLengths, Percentiles, Range;
    var sorted := SortedLengths(lengths);
    SortedLengthsInOrder(lengths);
    PercentilesOrdered(sorted, Range(MAX_PERCENTILE + 1) - Range(MIN_PERCENTILE));
    PercentilesOrdered(sorted, {50, 70, 90});
  }

  /**
   From training lengths to a mapped score: at a percentile the built manifest gives the
   nearest-rank length of the training lengths, and the spread of the other quantiles is
   that of theirs.
   */
  lemma BuiltManifestMaps(lengths: seq<nat>, modelVersion: string, exclusions: nat, p: int)
    requires MIN_PERCENTILE <= p <= MAX_PERCENTILE
    requires BuildManifest(lengths, modelVersion, |lengths|, exclusions).Some?
    requires Accepted(BuildManifest(lengths, modelVersion, |lengths|, exclusions).value)
    ensures var m, sorted := BuildManifest(lengths, modelVersion, |lengths|, exclusions).value, SortedLengths(lengths);
      var q := MapScore(m, p as real / 100.0);
      && q.p50 == NearestRank(sorted, p) as real
      && q.p70 * NearestRank(sorted, 50) as real == q.p50 * NearestRank(sorted, 70) as real
      && q.p90 * NearestRank(sorted, 50) as real == q.p50 * NearestRank(sorted, 90) as real
  {
    hide NearestRank, SortedLengths, MapScore, Accepted, BuildManifest;
    BuiltManifestHolds(lengths, modelVersion, exclusions, p);
    var m := BuildManifest(lengths, modelVersion, |lengths|, exclusions).value;
    PercentileIsLookedUp(m, p);
    QuantilesInProportion(m, p as real / 100.0);
  }

  lemma BuiltManifestHolds(lengths: seq<nat>, modelVersion: string, exclusions: nat, p: int)
    requires MIN_PERCENTILE <= p <= MAX_PERCENTILE
    requires BuildManifest(lengths, modelVersion, |lengths|, exclusions).Some?
    ensures var m, sorted := BuildManifest(lengths, modelVersion, |lengths|, exclusions).value, SortedLengths(lengths);
      && sorted != [] && p in m.percentiles && m.percentiles[p] == NearestRank(sorted, p) as real
      && m.globals.Keys == {50, 70, 90}
      && forall q :: q in m.globals ==> m.globals[q] == NearestRank(sorted, q) as real
  {
    hide NearestRank, SortedLengths, Range;
  }

  lemma PercentilesOrdered(sorted: seq<int>, keys: set<int>)
    requires sorted != [] && (forall p :: p in keys ==> p >= 0)
    requires forall i, j :: 0 <= i <= j < |sorted| ==> sorted[i] <= sorted[j]
    requires forall i :: 0 <= i < |sorted| ==> sorted[i] >= 0
    ensures var m := Percentiles(sorted, keys);
      && m.Keys == keys
      && (forall p :: p in keys ==> m[p] == NearestRank(sorted, p) as real && m[p] >= 0.0)
      && (forall p, q :: p in keys && q in keys && p <= q ==> m[p] <= m[q])
  {
    hide NearestRank;
    forall p | p in keys ensures NearestRank(sorted, p) >= 0 {
      NearestRankIsNonNegative(sorted, p);
    }
    forall p, q | p in keys && q in keys && p <= q ensures NearestRank(sorted, p) <= NearestRank(sorted, q) {
      NearestRankMonotone(sorted, p, q);
    }
  }

  lemma NearestRankIsNonNegative(sorted: seq<int>, percentile: int)
    requires sorted != [] && forall i :: 0 <= i < |sorted| ==> sorted[i] >= 0
    ensures NearestRank(sorted, percentile) >= 0
  {
    hide NearestIndex;
  }

  lemma SortedLengthsInOrder(lengths: seq<nat>)
    ensures var sorted := SortedLengths(lengths);
      && (forall i, j :: 0 <= i <= j < |sorted| ==> sorted[i] <= sorted[j])
      && (forall i :: 0 <= i < |sorted| ==> sorted[i] >= 0)
  {
    SortIsSorted(LengthKey, lengths);
    var sorted := Sort(LengthKey, lengths);
    hide Sort;
    forall i, j | 0 <= i < j < |sorted| ensures sorted[i] <= sorted[j] {
      assert KeyLe(LengthKey(sorted[i]), LengthKey(sorted[j]));
    }
  }
}
