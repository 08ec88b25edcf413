/** The host's robust summary of a group of observations. */
module RobustStats {
  import opened Common
  import opened MedianInterval
  import opened Quantiles
  import opened Summary

  /** `iqr` is `q3 - q1` */
  datatype Robust = Robust(n: nat, median: real, q1: real, q3: real, iqr: real, p90: real,
                           min: real, max: real, ciLow: real, ciHigh: real, coverage: real)

  const CONFIDENCE := 0.95
  const SLACK := 0.000000000001

  /** The rank of the interval's lower end, from 1. */
  function Rank(n: nat): (k: nat)
    ensures k >= 1
  {
    LargestFrom(n, n / 2, CONFIDENCE, SLACK)
  }

  /** What the summary of the sample `values`, sorted as `v`, should say. */
  ghost predicate Describes(r: Robust, values: seq<real>, v: seq<real>) {
    && |v| == |values| == r.n > 0 && Rank(r.n) <= r.n
    && r.median == DeviceQuantile(v, 0.5)
    && r.q1 == DeviceQuantile(v, 0.25) && r.q3 == DeviceQuantile(v, 0.75) && r.iqr == r.q3 - r.q1
    && r.p90 == DeviceQuantile(v, 0.9)
    && IsSmallest(r.min, values) && IsLargest(r.max, values)
    && r.ciLow == v[Rank(r.n) - 1] && r.ciHigh == v[r.n - Rank(r.n)]
    && r.coverage == Coverage(r.n, Rank(r.n))
  }

  lemma EndsAreExtremes(values: seq<real>, v: seq<real>)
    requires Rearranged(values, v) && Sorted(v) && v != []
    ensures IsSmallest(v[0], values) && IsLargest(v[|v|-1], values)
  {
    forall i | 0 <= i < |values|
      ensures v[0] <= values[i] <= v[|v|-1]
    {
      assert values[i] in multiset(v);
    }
    assert v[0] in multiset(values) && v[|v|-1] in multiset(values);
  }

  /** `robust_stats`. An empty group raises an index error, here `None`. */
  method RobustStats(values: seq<real>) returns (r: Option<Robust>)
    ensures r.None? <==> values == []
    ensures r.Some? ==> Describes(r.value, values, Sorting(values))
    ensures r.Some? ==>
              var v := Sorting(values);
              && v != [] && r.value.median == HostQuantile(v, 0.5) && r.value.p90 == HostQuantile(v, 0.9)
              && r.value.q1 == HostQuantile(v, 0.25) && r.value.q3 == HostQuantile(v, 0.75)
  {
    hide DeviceQuantile, HostQuantile, LargestFrom, Coverage, IsSmallest, IsLargest;
    if values == [] {
      return None;
    }
    var v := Sorting(values);
    SortingSorts(values);
    EndsAreExtremes(values, v);
    QuantilesAgree(v, 0.25);
    QuantilesAgree(v, 0.5);
    QuantilesAgree(v, 0.75);
    QuantilesAgree(v, 0.9);
    var q1, median, q3 := HostQuantile(v, 0.25), HostQuantile(v, 0.5), HostQuantile(v, 0.75);
    var low, high, coverage := MedianConfidenceInterval(v, CONFIDENCE, SLACK);
    r := Some(Robust(|v|, median, q1, q3, q3 - q1, HostQuantile(v, 0.9), v[0], v[|v|-1],
                     low, high, coverage));
  }

  lemma MedianInsideRanks(v: seq<real>, k: nat)
    requires v != [] && Sorted(v) && 1 <= k <= Max(1, |v| / 2)
    ensures v[k - 1] <= BenchMedian(v) <= v[|v| - k]
  {
  }

  /** The columns of a summary are in order, and the interval always holds the median. */
  lemma SummaryIsOrdered(r: Robust, values: seq<real>)
    requires Describes(r, values, Sorting(values))
    ensures r.min <= r.q1 <= r.median <= r.q3 <= r.p90 <= r.max && r.iqr >= 0.0
    ensures r.min <= r.ciLow <= r.median <= r.ciHigh <= r.max
  {
    hide DeviceQuantile, LargestFrom, Coverage;
    var v := Sorting(values);
    SortingSorts(values);
    ExtremesAreEnds(values, v, r.min, r.max);
    QuantileInRange(v, 0.25);
    QuantileInRange(v, 0.9);
    QuantileMonotone(v, 0.25, 0.5);
    QuantileMonotone(v, 0.5, 0.75);
    QuantileMonotone(v, 0.75, 0.9);
    MediansAgree(v);
    LargestIsLargest(r.n, r.n / 2, CONFIDENCE, SLACK);
    MedianInsideRanks(v, Rank(r.n));
  }

  lemma SameExtremes(r: Robust, a: seq<real>, b: seq<real>)
    requires Rearranged(a, b) && IsSmallest(r.min, a) && IsLargest(r.max, a)
    ensures IsSmallest(r.min, b) && IsLargest(r.max, b)
  {
    assert r.min in multiset(b) && r.max in multiset(b);
    forall i | 0 <= i < |b|
      ensures r.min <= b[i] <= r.max
    {
      assert b[i] in multiset(a);
    }
  }

  /** The order in which the observations were logged does not matter. */
  lemma SummaryIgnoresOrder(r: Robust, a: seq<real>, b: seq<real>)
    requires Rearranged(a, b) && Describes(r, a, Sorting(a))
    ensures Describes(r, b, Sorting(b))
  {
    hide DeviceQuantile, LargestFrom, Coverage, IsSmallest, IsLargest;
    SortingSorts(a);
    SortingSorts(b);
    SortIsUnique(Sorting(a), Sorting(b));
    SameExtremes(r, a, b);
  }
}
