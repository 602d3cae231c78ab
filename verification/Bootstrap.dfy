/** The cluster bootstrap interval and its quantile (evals/unit_metrics.py), in exact reals.

    The random draws are a parameter: one sequence of cluster indices per resample. */
module Bootstrap {
  import opened Basics

  datatype Record<C> = Record(cluster: C, passed: bool)
  datatype Interval = Invalid | Interval(lower: real, upper: real)

  // ---------------------------------------------------------------- grouping

  /** The clusters in order of first appearance. */
  function ClusterOrder<C(==)>(records: seq<Record<C>>, upTo: nat): seq<C>
    requires upTo <= |records|
  {
    if upTo == 0 then []
    else
      var before, c := ClusterOrder(records, upTo - 1), records[upTo - 1].cluster;
      if c in before then before else before + [c]
  }

  function OutcomesOf<C(==)>(records: seq<Record<C>>, c: C, upTo: nat): seq<bool>
    requires upTo <= |records|
  {
    if upTo == 0 then []
    else OutcomesOf(records, c, upTo - 1) + if records[upTo - 1].cluster == c then [records[upTo - 1].passed] else []
  }

  function Grouped<C(==)>(records: seq<Record<C>>): seq<seq<bool>> {
    var order := ClusterOrder(records, |records|);
    seq(|order|, i requires 0 <= i < |order| => OutcomesOf(records, order[i], |records|))
  }

  function Passes(values: seq<bool>): nat {
    if values == [] then 0 else Passes(values[..|values| - 1]) + if values[|values| - 1] then 1 else 0
  }

  function Rate(values: seq<bool>): real
    requires values != []
  {
    Passes(values) as real / |values| as real
  }

  lemma {:induction false} OutcomesOfOther<C>(records: seq<Record<C>>, c: C, upTo: nat)
    requires upTo <= |records|
    ensures c in ClusterOrder(records, upTo) <==> OutcomesOf(records, c, upTo) != []
  {
    if upTo != 0 {
      OutcomesOfOther(records, c, upTo - 1);
    }
  }

  lemma {:induction false} GroupsAreInhabited<C>(records: seq<Record<C>>)
    ensures forall i :: 0 <= i < |Grouped(records)| ==> Grouped(records)[i] != []
    ensures records != [] ==> Grouped(records) != []
  {
    var order := ClusterOrder(records, |records|);
    forall c | c in order ensures OutcomesOf(records, c, |records|) != [] {
      OutcomesOfOther(records, c, |records|);
    }
    if records != [] {
      OutcomesOfOther(records, records[|records| - 1].cluster, |records|);
    }
  }

  /** Fills the dict of outcomes per cluster, record by record. */
  method Group<C(==)>(records: seq<Record<C>>) returns (clusters: seq<seq<bool>>)
    ensures clusters == Grouped(records)
  {
    var order: seq<C> := [];
    var grouped: map<C, seq<bool>> := map[];
    for i := 0 to |records|
      invariant order == ClusterOrder(records, i)
      invariant forall c :: c in grouped <==> c in order
      invariant forall c :: c in grouped ==> grouped[c] == OutcomesOf(records, c, i)
    {
      OutcomesOfOther(records, records[i].cluster, i);
      var c := records[i].cluster;
      if c !in grouped {
        order := order + [c];
        grouped := grouped[c := [records[i].passed]];
      } else {
        grouped := grouped[c := grouped[c] + [records[i].passed]];
      }
    }
    assert forall c :: c in order ==> c in grouped;
    clusters := seq(|order|, i requires 0 <= i < |order| && order[i] in grouped => grouped[order[i]]);
  }

  // ---------------------------------------------------------------- pooled resamples

  function PooledPasses(clusters: seq<seq<bool>>, draw: seq<nat>, upTo: nat): nat
    requires upTo <= |draw| && forall i :: 0 <= i < |draw| ==> draw[i] < |clusters|
  {
    if upTo == 0 then 0 else PooledPasses(clusters, draw, upTo - 1) + Passes(clusters[draw[upTo - 1]])
  }

  function PooledSize(clusters: seq<seq<bool>>, draw: seq<nat>, upTo: nat): nat
    requires upTo <= |draw| && forall i :: 0 <= i < |draw| ==> draw[i] < |clusters|
  {
    if upTo == 0 then 0 else PooledSize(clusters, draw, upTo - 1) + |clusters[draw[upTo - 1]]|
  }

  ghost predicate Inhabited(clusters: seq<seq<bool>>) {
    clusters != [] && forall i :: 0 <= i < |clusters| ==> clusters[i] != []
  }

  ghost predicate ValidDraw(clusters: seq<seq<bool>>, draw: seq<nat>) {
    |draw| == |clusters| && forall i :: 0 <= i < |draw| ==> draw[i] < |clusters|
  }

  predicate Bounded(passes: nat, size: nat, low: real, high: real) {
    low * size as real <= passes as real <= high * size as real
  }

  lemma {:induction false} BoundedSum(p: nat, m: nat, q: nat, n: nat, low: real, high: real)
    requires Bounded(p, m, low, high) && Bounded(q, n, low, high)
    ensures Bounded(p + q, m + n, low, high)
  {
  }

  lemma {:induction false} BoundedRate(values: seq<bool>, low: real, high: real)
    requires values != [] && low <= Rate(values) <= high
    ensures Bounded(Passes(values), |values|, low, high)
  {
  }

  /** Mediant inequality: pooling clusters keeps the bounds on their rates. */
  lemma {:induction false} PooledBetween(clusters: seq<seq<bool>>, draw: seq<nat>, upTo: nat, low: real, high: real)
    requires Inhabited(clusters) && ValidDraw(clusters, draw) && upTo <= |draw|
    requires forall i :: 0 <= i < |clusters| ==> Bounded(Passes(clusters[i]), |clusters[i]|, low, high)
    ensures Bounded(PooledPasses(clusters, draw, upTo), PooledSize(clusters, draw, upTo), low, high)
    ensures PooledSize(clusters, draw, upTo) >= upTo
  {
    if upTo != 0 {
      PooledBetween(clusters, draw, upTo - 1, low, high);
      var c := clusters[draw[upTo - 1]];
      BoundedSum(
        PooledPasses(clusters, draw, upTo - 1), PooledSize(clusters, draw, upTo - 1), Passes(c), |c|, low, high);
    }
  }

  lemma ScaledOrder(a: real, b: real, n: real)
    requires a <= b && n >= 0.0
    ensures a * n <= b * n
  {
  }

  lemma {:induction false} BoundedQuotient(passes: nat, size: nat, low: real, high: real)
    requires size > 0 && Bounded(passes, size, low, high)
    ensures low <= passes as real / size as real <= high
  {
  }

  // ---------------------------------------------------------------- quantile

  predicate RealOrder(a: real, b: real) { a <= b }

  function Ceiling(x: real): int {
    if x.Floor as real == x then x.Floor else x.Floor + 1
  }

  lemma PartOf(a: real, n: real)
    requires 0.0 <= a <= 1.0 && n >= 0.0
    ensures 0.0 <= a * n <= n
  {
  }

  /** The position of a probability in a sorted sample of the given size. */
  function Position(size: nat, probability: real): (p: real)
    requires size > 0 && 0.0 <= probability <= 1.0
    ensures 0.0 <= p <= (size - 1) as real
  {
    PartOf(probability, (size - 1) as real);
    probability * (size - 1) as real
  }

  lemma PositionGrows(size: nat, p: real, q: real)
    requires size > 0 && 0.0 <= p <= q <= 1.0
    ensures Position(size, p) <= Position(size, q)
  {
    ScaledOrder(p, q, (size - 1) as real);
  }

  function Interpolated(ordered: seq<real>, position: real): real
    requires ordered != [] && 0.0 <= position <= (|ordered| - 1) as real
  {
    var lower, upper := position.Floor, Ceiling(position);
    ordered[lower] + (ordered[upper] - ordered[lower]) * (position - lower as real)
  }

  function Quantile(values: seq<real>, probability: real): real
    requires values != [] && 0.0 <= probability <= 1.0
    requires |StableSort(values, RealOrder)| == |values|
  {
    var ordered := StableSort(values, RealOrder);
    if |ordered| == 1 then ordered[0] else Interpolated(ordered, Position(|ordered|, probability))
  }

  /** An interpolated value stays on its segment. */
  lemma {:induction false} OnSegment(ordered: seq<real>, position: real)
    requires SortedBy(ordered, RealOrder) && ordered != [] && 0.0 <= position <= (|ordered| - 1) as real
    ensures ordered[position.Floor] <= Interpolated(ordered, position) <= ordered[Ceiling(position)]
  {
    var lower, upper := position.Floor, Ceiling(position);
    assert lower == upper || RealOrder(ordered[lower], ordered[upper]);
    PartOfRise(ordered[lower], ordered[upper], position - lower as real, 1.0);
  }

  /** Walking a larger part of a non-negative rise leads higher. */
  lemma {:induction false} PartOfRise(a: real, b: real, f: real, g: real)
    requires a <= b && 0.0 <= f <= g <= 1.0
    ensures a <= a + (b - a) * f <= a + (b - a) * g <= b
  {
  }

  lemma {:induction false} InterpolationIsMonotone(ordered: seq<real>, p: real, q: real)
    requires SortedBy(ordered, RealOrder) && ordered != [] && 0.0 <= p <= q <= (|ordered| - 1) as real
    ensures Interpolated(ordered, p) <= Interpolated(ordered, q)
  {
    OnSegment(ordered, p);
    OnSegment(ordered, q);
    if p.Floor < q.Floor {
      assert Ceiling(p) == q.Floor || RealOrder(ordered[Ceiling(p)], ordered[q.Floor]);
    } else if Ceiling(p) == p.Floor {
    } else {
      assert Ceiling(p) == Ceiling(q) == p.Floor + 1;
      assert RealOrder(ordered[p.Floor], ordered[Ceiling(p)]);
      PartOfRise(ordered[p.Floor], ordered[Ceiling(p)], p - p.Floor as real, q - p.Floor as real);
    }
  }

  lemma RealsAreOrdered()
    ensures Ordering(RealOrder)
  {
  }

  /** The quantile grows with its probability and stays within the sample. */
  lemma {:induction false} QuantileIsMonotone(values: seq<real>, p: real, q: real, low: real, high: real)
    requires values != [] && 0.0 <= p <= q <= 1.0
    requires forall i :: 0 <= i < |values| ==> low <= values[i] <= high
    ensures |StableSort(values, RealOrder)| == |values|
    ensures low <= Quantile(values, p) <= Quantile(values, q) <= high
  {
    SortedSample(values, low, high);
    var ordered := StableSort(values, RealOrder);
    if |ordered| > 1 {
      PositionGrows(|ordered|, p, q);
      var a, b := Position(|ordered|, p), Position(|ordered|, q);
      InterpolationIsMonotone(ordered, a, b);
      OnSegment(ordered, a);
      OnSegment(ordered, b);
    }
  }

  lemma {:induction false} SortedSample(values: seq<real>, low: real, high: real)
    requires forall i :: 0 <= i < |values| ==> low <= values[i] <= high
    ensures
      var ordered := StableSort(values, RealOrder);
      && |ordered| == |values| && SortedBy(ordered, RealOrder)
      && forall i :: 0 <= i < |ordered| ==> low <= ordered[i] <= high
  {
    SortIsPermutation(values, RealOrder);
    var ordered := StableSort(values, RealOrder);
    forall i | 0 <= i < |ordered| ensures low <= ordered[i] <= high {
      assert ordered[i] in multiset(ordered);
      assert ordered[i] in values;
    }
  }

  // ---------------------------------------------------------------- the interval

  /** Resamples whole clusters and reads both ends off the sorted pooled rates. */
  method ClusterBootstrap<C(==)>(records: seq<Record<C>>, draws: seq<seq<nat>>, confidence: real) returns (r: Interval)
    requires forall d :: 0 <= d < |draws| ==> ValidDraw(Grouped(records), draws[d])
    ensures r.Invalid? <==> draws == [] || !(0.0 < confidence < 1.0)
    ensures r.Interval? && records == [] ==> r == Interval(0.0, 1.0)
    ensures r.Interval? && records != [] ==>
      && Inhabited(Grouped(records))
      && (exists i :: 0 <= i < |Grouped(records)| && Rate(Grouped(records)[i]) <= r.lower)
      && (exists i :: 0 <= i < |Grouped(records)| && r.upper <= Rate(Grouped(records)[i]))
      && r.lower <= r.upper
    ensures r.Interval? && |Grouped(records)| == 1 ==> r.lower == r.upper == Rate(Grouped(records)[0])
    ensures r.Interval? && |Grouped(records)| >= 2 ==>
      exists samples :: IsSample(Grouped(records), draws, samples)
        && r.lower == Quantile(samples, (1.0 - confidence) / 2.0)
        && r.upper == Quantile(samples, 1.0 - (1.0 - confidence) / 2.0)
  {
    if draws == [] || !(0.0 < confidence < 1.0) {
      return Invalid;
    }
    if records == [] {
      return Interval(0.0, 1.0);
    }
    var clusters := Group(records);
    GroupsAreInhabited(records);
    if |clusters| < 2 {
      var point := Passes(clusters[0]) as real / |clusters[0]| as real;
      return Interval(point, point);
    }
    var samples := Resample(clusters, draws);
    var tail := (1.0 - confidence) / 2.0;
    EndsAreBounded(clusters, draws, samples, tail);
    return Interval(Quantile(samples, tail), Quantile(samples, 1.0 - tail));
  }

  lemma {:induction false} EndsAreBounded(
    clusters: seq<seq<bool>>, draws: seq<seq<nat>>, samples: seq<real>, tail: real)
    requires Inhabited(clusters) && clusters != [] && draws != [] && 0.0 < tail < 0.5
    requires forall d :: 0 <= d < |draws| ==> ValidDraw(clusters, draws[d])
    requires IsSample(clusters, draws, samples)
    ensures samples != [] && Quantile(samples, tail) <= Quantile(samples, 1.0 - tail)
    ensures exists i :: 0 <= i < |clusters| && Rate(clusters[i]) <= Quantile(samples, tail)
    ensures exists i :: 0 <= i < |clusters| && Quantile(samples, 1.0 - tail) <= Rate(clusters[i])
  {
    var low, high := Extremes(clusters);
    SamplesBetween(clusters, draws, samples, Rate(clusters[low]), Rate(clusters[high]));
    QuantileIsMonotone(samples, tail, 1.0 - tail, Rate(clusters[low]), Rate(clusters[high]));
  }

  /** `samples` holds the pooled rate of each draw. */
  ghost predicate IsSample(clusters: seq<seq<bool>>, draws: seq<seq<nat>>, samples: seq<real>) {
    && Inhabited(clusters) && draws != []
    && (forall d :: 0 <= d < |draws| ==> ValidDraw(clusters, draws[d]))
    && |samples| == |draws| && |StableSort(samples, RealOrder)| == |samples|
    && forall d :: 0 <= d < |draws| ==>
         PooledSize(clusters, draws[d], |clusters|) > 0
         && samples[d]
            == PooledPasses(clusters, draws[d], |clusters|) as real / PooledSize(clusters, draws[d], |clusters|) as real
  }

  method Resample(clusters: seq<seq<bool>>, draws: seq<seq<nat>>) returns (samples: seq<real>)
    requires Inhabited(clusters) && draws != []
    requires forall d :: 0 <= d < |draws| ==> ValidDraw(clusters, draws[d])
    ensures IsSample(clusters, draws, samples)
  {
    samples := [];
    for d := 0 to |draws|
      invariant |samples| == d
      invariant forall e :: 0 <= e < d ==>
        PooledSize(clusters, draws[e], |clusters|) > 0
        && samples[e]
           == PooledPasses(clusters, draws[e], |clusters|) as real / PooledSize(clusters, draws[e], |clusters|) as real
    {
      var denominator, passed := 0, 0;
      for i := 0 to |clusters|
        invariant denominator == PooledSize(clusters, draws[d], i) >= i
        invariant passed == PooledPasses(clusters, draws[d], i)
      {
        denominator := denominator + |clusters[draws[d][i]]|;
        passed := passed + Passes(clusters[draws[d][i]]);
      }
      samples := samples + [passed as real / denominator as real];
    }
    RealsAreOrdered();
    SortIsPermutation(samples, RealOrder);
  }

  lemma {:induction false} SamplesBetween(
    clusters: seq<seq<bool>>, draws: seq<seq<nat>>, samples: seq<real>, low: real, high: real)
    requires IsSample(clusters, draws, samples)
    requires forall i :: 0 <= i < |clusters| ==> low <= Rate(clusters[i]) <= high
    ensures forall d :: 0 <= d < |samples| ==> low <= samples[d] <= high
  {
    forall i | 0 <= i < |clusters| ensures Bounded(Passes(clusters[i]), |clusters[i]|, low, high) {
      BoundedRate(clusters[i], low, high);
    }
    forall d | 0 <= d < |samples| ensures low <= samples[d] <= high {
      PooledRateBetween(clusters, draws[d], low, high);
    }
  }

  lemma {:induction false} PooledRateBetween(clusters: seq<seq<bool>>, draw: seq<nat>, low: real, high: real)
    requires Inhabited(clusters) && ValidDraw(clusters, draw)
    requires forall i :: 0 <= i < |clusters| ==> Bounded(Passes(clusters[i]), |clusters[i]|, low, high)
    ensures PooledSize(clusters, draw, |clusters|) > 0
    ensures
      low <= PooledPasses(clusters, draw, |clusters|) as real / PooledSize(clusters, draw, |clusters|) as real <= high
  {
    PooledBetween(clusters, draw, |clusters|, low, high);
    BoundedQuotient(PooledPasses(clusters, draw, |clusters|), PooledSize(clusters, draw, |clusters|), low, high);
  }

  lemma {:induction false} Extremes(clusters: seq<seq<bool>>) returns (low: nat, high: nat)
    requires Inhabited(clusters)
    ensures low < |clusters| && high < |clusters|
    ensures forall i :: 0 <= i < |clusters| ==> Rate(clusters[low]) <= Rate(clusters[i]) <= Rate(clusters[high])
  {
    low, high := 0, 0;
    for k := 0 to |clusters|
      invariant low < |clusters| && high < |clusters|
      invariant forall i :: 0 <= i < k ==> Rate(clusters[low]) <= Rate(clusters[i]) <= Rate(clusters[high])
    {
      if Rate(clusters[k]) < Rate(clusters[low]) { low := k; }
      if Rate(clusters[k]) > Rate(clusters[high]) { high := k; }
    }
  }

  // ---------------------------------------------------------------- the parts in terms of positions

  ghost function PassingPlaces(values: seq<bool>, upTo: nat): set<nat>
    requires upTo <= |values|
  {
    set i: nat | i < upTo && values[i]
  }

  /** A rate is the share of the values that are true. */
  lemma {:induction false} RateOfPlaces(values: seq<bool>)
    ensures Passes(values) == |PassingPlaces(values, |values|)|
    ensures values != [] ==> Rate(values) * |values| as real == |PassingPlaces(values, |values|)| as real
  {
    if values == [] {
      assert PassingPlaces(values, 0) == {};
    } else {
      var init, n := values[..|values| - 1], |values| - 1;
      RateOfPlaces(init);
      assert PassingPlaces(init, n) == PassingPlaces(values, n);
      OneMore(PassingPlaces(values, n), PassingPlaces(values, n + 1), n, values[n]);
    }
  }

  lemma WholePosition(k: nat, n: nat)
    requires n > 0 && k <= n
    ensures 0.0 <= k as real / n as real <= 1.0 && k as real / n as real * n as real == k as real
  {
  }

  /** With n values the quantiles at 0, 1/(n-1), 2/(n-1) and on are the sorted values themselves. */
  lemma {:induction false} QuantileHitsOrder(values: seq<real>, k: nat)
    requires |values| > 1 && k < |values|
    ensures var n, ordered := |values| - 1, StableSort(values, RealOrder);
      && |ordered| == |values| && 0.0 <= k as real / n as real <= 1.0
      && Quantile(values, k as real / n as real) == ordered[k]
      && multiset(ordered) == multiset(values) && forall i, j :: 0 <= i < j < |ordered| ==> ordered[i] <= ordered[j]
  {
    var n, ordered := |values| - 1, StableSort(values, RealOrder);
    RealsAreOrdered();
    SortIsPermutation(values, RealOrder);
    WholePosition(k, n);
    assert Position(|ordered|, k as real / n as real) == k as real;
    assert forall i, j :: 0 <= i < j < |ordered| ==> RealOrder(ordered[i], ordered[j]);
  }
}
