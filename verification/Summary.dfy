/** The summary rows that the device prints: running sums and extremes, then quantiles of the
    samples sorted in place. */
module Summary {
  import opened Common
  import opened Moments
  import opened Quantiles

  // ---- Rearranging the observations -----------------------------------------------------------

  ghost predicate Rearranged(a: seq<real>, b: seq<real>) {
    multiset(a) == multiset(b)
  }

  lemma SumsOfSnoc(a: seq<real>, x: real, c: real)
    ensures Sum(a + [x]) == Sum(a) + x && SumSq(a + [x], c) == SumSq(a, c) + Sq(x - c)
  {
    assert (a + [x])[..|a|] == a;
  }

  /** Taking one observation out of the middle. */
  lemma SumsAround(a: seq<real>, x: real, b: seq<real>, c: real)
    ensures Sum((a + [x]) + b) == Sum(a + b) + x
    ensures SumSq((a + [x]) + b, c) == SumSq(a + b, c) + Sq(x - c)
  {
    hide Sq;
    SumsOfSnoc(a, x, c);
    SumConcat(a + [x], b);
    SumConcat(a, b);
    SumSqConcat(a + [x], b, c);
    SumSqConcat(a, b, c);
  }

  lemma SplitAt(v: seq<real>, x: real) returns (a: seq<real>, b: seq<real>)
    requires x in multiset(v)
    ensures v == (a + [x]) + b && multiset(v) == multiset(a + b) + multiset{x}
  {
    var i :| 0 <= i < |v| && v[i] == x;
    a, b := v[..i], v[i+1..];
    assert v == (a + [x]) + b;
    assert multiset(a + b) == multiset(a) + multiset(b);
  }

  lemma {:induction false} SumsOfRearranged(v: seq<real>, w: seq<real>, c: real)
    requires Rearranged(v, w)
    ensures |v| == |w| && Sum(v) == Sum(w) && SumSq(v, c) == SumSq(w, c)
    decreases |w|
  {
    hide Sq;
    if w == [] {
      assert |multiset(v)| == 0;
    } else {
      var u, x := w[..|w|-1], w[|w|-1];
      assert w == u + [x];
      assert multiset(w) == multiset(u) + multiset{x};
      assert x in multiset(v);
      var a, b := SplitAt(v, x);
      SumsAround(a, x, b, c);
      SumsOfSnoc(u, x, c);
      assert multiset(a + b) == multiset(u) by {
        assert multiset(a + b) == multiset(v) - multiset{x};
        assert multiset(u) == multiset(w) - multiset{x};
      }
      SumsOfRearranged(a + b, u, c);
    }
  }

  /** Mean and variance may be taken before or after sorting. */
  lemma SummaryOfRearranged(a: seq<real>, b: seq<real>)
    requires Rearranged(a, b) && a != []
    ensures b != [] && Mean(a) == Mean(b) && SampleVariance(a) == SampleVariance(b)
  {
    hide Sq, Average, Variance;
    SumsOfRearranged(a, b, Mean(a));
  }

  // ---- Extremes -------------------------------------------------------------------------------

  ghost predicate IsSmallest(m: real, v: seq<real>) {
    m in v && forall i :: 0 <= i < |v| ==> m <= v[i]
  }

  ghost predicate IsLargest(m: real, v: seq<real>) {
    m in v && forall i :: 0 <= i < |v| ==> v[i] <= m
  }

  /** The running extremes are the ends of the sorted samples. */
  lemma ExtremesAreEnds(v: seq<real>, sorted: seq<real>, mn: real, mx: real)
    requires v != [] && Rearranged(v, sorted) && Sorted(sorted)
    requires IsSmallest(mn, v) && IsLargest(mx, v)
    ensures sorted != [] && mn == sorted[0] && mx == sorted[|sorted|-1]
  {
    SumsOfRearranged(v, sorted, 0.0);
    assert mn in multiset(sorted) && mx in multiset(sorted);
    assert sorted[0] in multiset(v) && sorted[|sorted|-1] in multiset(v);
  }

  lemma {:induction false} SumBetween(v: seq<real>, lo: real, hi: real, n: real)
    requires n == |v| as real && forall i :: 0 <= i < |v| ==> lo <= v[i] <= hi
    ensures n * lo <= Sum(v) <= n * hi
  {
    if v == [] {
      MulBy(n, 0.0, lo);
      MulBy(n, 0.0, hi);
    } else {
      SumBetween(v[..|v|-1], lo, hi, n - 1.0);
    }
  }

  lemma DivideBounds(n: real, lo: real, hi: real, s: real)
    requires n > 0.0 && n * lo <= s <= n * hi
    ensures lo <= s / n <= hi
  {
  }

  lemma MeanBetween(v: seq<real>, lo: real, hi: real)
    requires v != [] && forall i :: 0 <= i < |v| ==> lo <= v[i] <= hi
    ensures lo <= Mean(v) <= hi
  {
    var n := |v| as real;
    SumBetween(v, lo, hi, n);
    DivideBounds(n, lo, hi, Sum(v));
  }

  // ---- The loops ------------------------------------------------------------------------------

  /** Sum, extremes, mean and variance, in two passes over the samples as they arrived. */
  method Accumulate(v: array<real>) returns (mean: real, variance: real, mn: real, mx: real)
    requires v.Length > 0
    ensures mean == Mean(v[..]) && variance == SampleVariance(v[..])
    ensures IsSmallest(mn, v[..]) && IsLargest(mx, v[..])
  {
    hide Sq, Average, Variance;
    var n := v.Length;
    var sum := 0.0;
    mn, mx := v[0], v[0];
    for i := 0 to n
      invariant sum == Sum(v[..i])
      invariant mn in v[..] && mx in v[..]
      invariant forall k :: 0 <= k < i ==> mn <= v[k] <= mx
    {
      assert v[..i+1][..i] == v[..i];
      sum := sum + v[i];
      if v[i] < mn { mn := v[i]; }
      if v[i] > mx { mx := v[i]; }
    }
    assert v[..n] == v[..];
    mean := Average(sum, n);
    var squares := 0.0;
    for i := 0 to n
      invariant squares == SumSq(v[..i], mean)
    {
      assert v[..i+1][..i] == v[..i];
      var delta := v[i] - mean;
      squares := squares + Sq(delta);
    }
    assert v[..n] == v[..];
    variance := Variance(squares, n);
  }

  // ---- Sorting --------------------------------------------------------------------------------

  function Insert(x: real, s: seq<real>): seq<real> {
    if s == [] then [x]
    else if x <= s[0] then [x] + s
    else [s[0]] + Insert(x, s[1..])
  }

  /** The samples in ascending order. */
  function Sorting(v: seq<real>): seq<real> {
    if v == [] then [] else Insert(v[|v|-1], Sorting(v[..|v|-1]))
  }

  lemma SortedCons(h: real, t: seq<real>)
    requires Sorted(t) && forall y :: y in multiset(t) ==> h <= y
    ensures Sorted([h] + t)
  {
    forall i | 0 <= i < |t|
      ensures h <= t[i]
    {
      assert t[i] in multiset(t);
    }
  }

  lemma SortedOne(x: real)
    ensures Sorted([x])
  {
  }

  lemma SortedTail(s: seq<real>)
    requires Sorted(s) && s != []
    ensures Sorted(s[1..]) && forall y :: y in multiset(s[1..]) ==> s[0] <= y
  {
  }

  lemma HeadAndTail(s: seq<real>)
    requires s != []
    ensures multiset(s) == multiset{s[0]} + multiset(s[1..])
  {
    assert s == [s[0]] + s[1..];
  }

  lemma {:induction false} InsertKeepsOrder(x: real, s: seq<real>)
    requires Sorted(s)
    ensures Sorted(Insert(x, s))
    ensures multiset(Insert(x, s)) == multiset(s) + multiset{x}
  {
    hide Sorted;
    if s == [] {
      SortedOne(x);
    } else {
      SortedTail(s);
      HeadAndTail(s);
      if x <= s[0] {
        SortedCons(x, s);
      } else {
        InsertKeepsOrder(x, s[1..]);
        SortedCons(s[0], Insert(x, s[1..]));
      }
    }
  }

  lemma WithoutLast(a: seq<real>)
    requires a != []
    ensures multiset(a[..|a|-1]) == multiset(a) - multiset{a[|a|-1]}
  {
    assert a == a[..|a|-1] + [a[|a|-1]];
  }

  lemma {:induction false} SortingSorts(v: seq<real>)
    ensures Sorted(Sorting(v)) && Rearranged(v, Sorting(v)) && |Sorting(v)| == |v|
  {
    hide Insert;
    if v != [] {
      SortingSorts(v[..|v|-1]);
      InsertKeepsOrder(v[|v|-1], Sorting(v[..|v|-1]));
      WithoutLast(v);
    }
    assert |multiset(v)| == |multiset(Sorting(v))|;
  }

  lemma LastIsLargest(a: seq<real>, b: seq<real>)
    requires Sorted(a) && Sorted(b) && Rearranged(a, b) && a != [] && b != []
    ensures a[|a|-1] == b[|b|-1]
  {
    assert a[|a|-1] in multiset(b) && b[|b|-1] in multiset(a);
  }

  /** A sort has only one possible result, so it does not matter how the C library sorts. */
  lemma {:induction false} SortIsUnique(a: seq<real>, b: seq<real>)
    requires Sorted(a) && Sorted(b) && Rearranged(a, b)
    ensures a == b
    decreases |b|
  {
    hide Sum, SumSq;
    SumsOfRearranged(a, b, 0.0);
    if b != [] {
      LastIsLargest(a, b);
      WithoutLast(a);
      WithoutLast(b);
      SortIsUnique(a[..|a|-1], b[..|b|-1]);
      assert a == a[..|a|-1] + [a[|a|-1]];
      assert b == b[..|b|-1] + [b[|b|-1]];
    }
  }

  /** `qsort` of doubles in ascending order. */
  method QSort(v: array<real>)
    modifies v
    ensures v[..] == Sorting(old(v[..]))
  {
    var n := v.Length;
    var s: seq<real> := [];
    for i := 0 to n
      invariant s == Sorting(v[..i])
    {
      assert v[..i+1][..i] == v[..i];
      s := Insert(v[i], s);
    }
    assert v[..n] == v[..];
    SortingSorts(v[..]);
    forall i | 0 <= i < n {
      v[i] := s[i];
    }
  }

  // ---- The device's summary row ---------------------------------------------------------------

  /** One `csv_hs_summary` line; the standard deviation by its square */
  datatype StatRow = StatRow(n: nat, mean: real, variance: real, min: real, max: real,
                     median: real, p90: real, p99: real)

  /** What a summary of `v` should say. */
  ghost predicate Summarises(row: StatRow, v: seq<real>) {
    && v != [] && row.n == |v| && |Sorting(v)| == |v|
    && row.mean == Mean(v) && row.variance == SampleVariance(v)
    && IsSmallest(row.min, v) && IsLargest(row.max, v)
    && row.median == HostQuantile(Sorting(v), 0.5)
    && row.p90 == HostQuantile(Sorting(v), 0.9)
    && row.p99 == HostQuantile(Sorting(v), 0.99)
  }

  /** `print_stat_row`; `None` when there are no observations. */
  method PrintStatRow(v: array<real>) returns (row: Option<StatRow>)
    modifies v
    ensures v[..] == Sorting(old(v[..]))
    ensures row.None? <==> v.Length == 0
    ensures row.Some? ==> Summarises(row.value, old(v[..]))
    ensures row.Some? ==> && row.value.median == HostQuantile(v[..], 0.5) && row.value.p90 == HostQuantile(v[..], 0.9)
                          && row.value.p99 == HostQuantile(v[..], 0.99)
  {
    hide Mean, SampleVariance, IsSmallest, IsLargest, HostQuantile, DeviceQuantile, Insert;
    if v.Length == 0 {
      return None;
    }
    var mean, variance, mn, mx := Accumulate(v);
    SortingSorts(v[..]);
    QSort(v);
    ghost var sorted := v[..];
    QuantilesAgree(sorted, 0.5);
    QuantilesAgree(sorted, 0.9);
    QuantilesAgree(sorted, 0.99);
    row := Some(StatRow(v.Length, mean, variance, mn, mx, DeviceQuantile(v[..], 0.5),
                    DeviceQuantile(v[..], 0.9), DeviceQuantile(v[..], 0.99)));
  }

  /** The columns of a row are in order. */
  lemma RowIsOrdered(row: StatRow, v: seq<real>)
    requires Summarises(row, v)
    ensures row.min <= row.median <= row.p90 <= row.p99 <= row.max
    ensures row.min <= row.mean <= row.max
  {
    hide Mean, SampleVariance, DeviceQuantile, HostQuantile;
    var s := Sorting(v);
    SortingSorts(v);
    ExtremesAreEnds(v, s, row.min, row.max);
    QuantilesAgree(s, 0.5);
    QuantilesAgree(s, 0.9);
    QuantilesAgree(s, 0.99);
    QuantileInRange(s, 0.5);
    QuantileInRange(s, 0.99);
    QuantileMonotone(s, 0.5, 0.9);
    QuantileMonotone(s, 0.9, 0.99);
    MeanBetween(v, row.min, row.max);
  }

  // ---- The sign/verify harness ----------------------------------------------------------------

  const MAX_ITERS: nat := 256

  /** One call of the function under test: what it returned and how long it took */
  datatype Call = Call(rc: int, us: nat, cycles: nat)

  datatype Spread = Spread(mean: real, variance: real, min: real, max: real, median: real)

  datatype BenchStats = BenchStats(n: nat, ms: Spread, cycles: Spread, opsPerS: real)

  function PerSecond(ms: real): (r: real)
    ensures if ms > 0.0 then r * ms == 1000.0 else r == 0.0
  {
    if ms > 0.0 then 1000.0 / ms else 0.0
  }

  /** The durations in milliseconds. */
  function Ms(calls: seq<Call>): (r: seq<real>)
    ensures |r| == |calls| && forall i :: 0 <= i < |r| ==> r[i] * 1000.0 == calls[i].us as real
  {
    seq(|calls|, i requires 0 <= i < |calls| => calls[i].us as real / 1000.0)
  }

  function Cycles(calls: seq<Call>): seq<real> {
    seq(|calls|, i requires 0 <= i < |calls| => calls[i].cycles as real)
  }

  /** What a spread of `v` should say. */
  ghost predicate Spreads(s: Spread, v: seq<real>) {
    && v != [] && |Sorting(v)| == |v|
    && s.mean == Mean(v) && s.variance == SampleVariance(v)
    && IsSmallest(s.min, v) && IsLargest(s.max, v)
    && s.median == HostQuantile(Sorting(v), 0.5)
  }

  method TakeSpread(v: array<real>) returns (s: Spread)
    requires v.Length > 0
    modifies v
    ensures v[..] == Sorting(old(v[..]))
    ensures Spreads(s, old(v[..]))
  {
    hide Mean, SampleVariance, IsSmallest, IsLargest, HostQuantile, DeviceQuantile, Insert;
    var mean, variance, mn, mx := Accumulate(v);
    SortingSorts(v[..]);
    QSort(v);
    QuantilesAgree(v[..], 0.5);
    MediansAgree(v[..]);
    var n := v.Length;
    var median := if n % 2 == 1 then v[n / 2] else 0.5 * (v[n / 2 - 1] + v[n / 2]);
    s := Spread(mean, variance, mn, mx, median);
  }

  ghost predicate AllSucceed(calls: seq<Call>) {
    forall i :: 0 <= i < |calls| ==> calls[i].rc == 0
  }

  /** `k` is the first call that fails, with `rc`. */
  ghost predicate FirstFailure(calls: seq<Call>, k: nat, rc: int) {
    k < |calls| && calls[k].rc == rc != 0 && AllSucceed(calls[..k])
  }

  /** The timed calls, up to the first that fails. */
  method TimeCalls(calls: seq<Call>, warmup: nat, ms: array<real>, cyc: array<real>) returns (rc: int)
    requires |calls| == warmup + ms.Length && ms.Length == cyc.Length && ms != cyc
    requires AllSucceed(calls[..warmup])
    modifies ms, cyc
    ensures rc == 0 ==> AllSucceed(calls) && ms[..] == Ms(calls[warmup..]) && cyc[..] == Cycles(calls[warmup..])
    ensures rc != 0 ==> exists k: nat :: FirstFailure(calls, k, rc)
  {
    var n := ms.Length;
    for i := 0 to n
      invariant AllSucceed(calls[..warmup + i])
      invariant forall k :: 0 <= k < i ==> ms[k] == Ms(calls[warmup..])[k]
      invariant forall k :: 0 <= k < i ==> cyc[k] == Cycles(calls[warmup..])[k]
    {
      var c := calls[warmup + i];
      if c.rc != 0 {
        assert FirstFailure(calls, warmup + i, c.rc);
        return c.rc;
      }
      ms[i] := c.us as real / 1000.0;
      cyc[i] := c.cycles as real;
    }
    assert calls == calls[..warmup + n];
    rc := 0;
  }

  lemma FailureIsNoSuccess(calls: seq<Call>, k: nat, rc: int)
    requires FirstFailure(calls, k, rc)
    ensures !AllSucceed(calls)
  {
  }

  /** `bench_run`: `calls` is what the function under test does at each call. The first failure ends
      the run with its code and no statistics; otherwise the statistics are those of the timed calls,
      at most 256 of them, without the warm-up. */
  method BenchRun(calls: seq<Call>, iters: nat, warmup: nat) returns (rc: int, out: Option<BenchStats>)
    requires |calls| == warmup + Min(iters, MAX_ITERS)
    ensures out.Some? <==> iters > 0 && AllSucceed(calls)
    ensures out.Some? ==> rc == 0 && out.value.n == Min(iters, MAX_ITERS)
    ensures out.Some? ==> Spreads(out.value.ms, Ms(calls[warmup..]))
    ensures out.Some? ==> Spreads(out.value.cycles, Cycles(calls[warmup..]))
    ensures out.Some? ==> out.value.opsPerS == PerSecond(out.value.ms.mean)
    ensures out.None? && iters == 0 ==> rc == -1
    ensures out.None? && iters > 0 ==> exists k: nat :: FirstFailure(calls, k, rc)
  {
    hide Spreads, Ms, Cycles;
    if iters == 0 {
      return -1, None;
    }
    for i := 0 to warmup
      invariant AllSucceed(calls[..i])
    {
      if calls[i].rc != 0 {
        assert FirstFailure(calls, i, calls[i].rc);
        return calls[i].rc, None;
      }
    }
    var n := if iters > MAX_ITERS then MAX_ITERS else iters;
    var ms, cyc := new real[n], new real[n];
    rc := TimeCalls(calls, warmup, ms, cyc);
    if rc != 0 {
      ghost var k: nat :| FirstFailure(calls, k, rc);
      FailureIsNoSuccess(calls, k, rc);
      return rc, None;
    }
    var time := TakeSpread(ms);
    var cycles := TakeSpread(cyc);
    return 0, Some(BenchStats(n, time, cycles, PerSecond(time.mean)));
  }
}
