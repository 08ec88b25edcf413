/** Means, variances and correlations over exact reals. */
module Moments {
  import opened Common

  function Sum(v: seq<real>): real {
    if v == [] then 0.0 else Sum(v[..|v|-1]) + v[|v|-1]
  }

  function Sq(x: real): real { x * x }

  function Times(x: real, y: real): real { x * y }

  /** The sum of squared distances from `a`. */
  function SumSq(v: seq<real>, a: real): real {
    if v == [] then 0.0 else SumSq(v[..|v|-1], a) + Sq(v[|v|-1] - a)
  }

  function Average(total: real, n: nat): real
    requires n > 0
  {
    total / n as real
  }

  function Mean(v: seq<real>): real
    requires v != []
  {
    Average(Sum(v), |v|)
  }

  /** A sum of squared deviations of `n` observations, divided by the degrees of freedom */
  function Variance(ss: real, n: nat): real {
    ss / (if n > 1 then (n - 1) as real else 1.0)
  }

  /** The square of the standard deviation that the device prints. */
  function SampleVariance(v: seq<real>): real
    requires v != []
  {
    Variance(SumSq(v, Mean(v)), |v|)
  }

  lemma {:induction false} SumConcat(a: seq<real>, b: seq<real>)
    ensures Sum(a + b) == Sum(a) + Sum(b)
  {
    if b == [] {
      assert a + b == a;
    } else {
      assert (a + b)[..|a + b| - 1] == a + b[..|b|-1];
      SumConcat(a, b[..|b|-1]);
    }
  }

  lemma {:induction false} SumSqConcat(a: seq<real>, b: seq<real>, c: real)
    ensures SumSq(a + b, c) == SumSq(a, c) + SumSq(b, c)
  {
    if b == [] {
      assert a + b == a;
    } else {
      assert (a + b)[..|a + b| - 1] == a + b[..|b|-1];
      SumSqConcat(a, b[..|b|-1], c);
    }
  }

  // The lemmas about products are about a handful of numbers; the lemmas about sequences hide the
  // products.

  /** What moving the reference point from `b` to `a` adds to a sum of `n` squares of total `s`. */
  function Moved(n: real, s: real, a: real, b: real): real {
    2.0 * (b - a) * (s - n * b) + n * Sq(b - a)
  }

  lemma MovedStep(n: real, s: real, x: real, a: real, b: real)
    ensures Moved(n - 1.0, s - x, a, b) + Sq(x - a) == Sq(x - b) + Moved(n, s, a, b)
  {
    var d := b - a;
    assert Sq(x - a) == Sq(x - b) + 2.0 * d * (x - b) + Sq(d);
    assert 2.0 * d * ((s - x) - (n - 1.0) * b) + 2.0 * d * (x - b) == 2.0 * d * (s - n * b);
    assert (n - 1.0) * Sq(d) + Sq(d) == n * Sq(d);
  }

  lemma MovedNothing(a: real, b: real)
    ensures Moved(0.0, 0.0, a, b) == 0.0
  {
  }

  lemma {:induction false} SumSqMoved(v: seq<real>, n: real, a: real, b: real)
    requires n == |v| as real
    ensures SumSq(v, a) == SumSq(v, b) + Moved(n, Sum(v), a, b)
  {
    hide Moved, Sq;
    if v == [] {
      MovedNothing(a, b);
    } else {
      var w, x := v[..|v|-1], v[|v|-1];
      SumSqMoved(w, n - 1.0, a, b);
      MovedStep(n, Sum(v), x, a, b);
    }
  }

  lemma MovedFromMean(n: real, s: real, a: real, m: real)
    requires Times(n, m) == s
    ensures Moved(n, s, a, m) == Times(n, Sq(m - a))
  {
    assert s - n * m == 0.0;
  }

  /** Squared distances from any point `a`: those from the mean, and the mean's own. */
  lemma SumSqAboutMean(v: seq<real>, n: real, m: real, a: real)
    requires n == |v| as real && Times(n, m) == Sum(v)
    ensures SumSq(v, a) == SumSq(v, m) + Times(n, Sq(m - a))
  {
    hide Moved, Sq, Times;
    SumSqMoved(v, n, a, m);
    MovedFromMean(n, Sum(v), a, m);
  }

  lemma DivMul(s: real, n: real)
    requires n != 0.0
    ensures n * (s / n) == s
  {
  }

  lemma AverageTimes(total: real, k: nat, n: real)
    requires k > 0 && n == k as real
    ensures Times(n, Average(total, k)) == total
  {
    DivMul(total, n);
  }

  lemma VarianceTimes(ss: real, k: nat, n: real)
    requires k > 1 && n == k as real
    ensures Times(n - 1.0, Variance(ss, k)) == ss
  {
    DivMul(ss, n - 1.0);
  }

  // ---- Pooling equal-size runs ----------------------------------------------------------------

  /** One row of the input: what the device printed about a run. */
  datatype Row = Row(mean: real, std: real)

  /** `row` is what the device prints about `run`. */
  predicate Describes(row: Row, run: seq<real>) {
    run != [] && row.mean == Mean(run) && Sq(row.std) == SampleVariance(run)
  }

  ghost predicate AllDescribe(rows: seq<Row>, runs: seq<seq<real>>, n: nat) {
    && |rows| == |runs|
    && forall i :: 0 <= i < |rows| ==> |runs[i]| == n && Describes(rows[i], runs[i])
  }

  function Means(rows: seq<Row>): seq<real> {
    seq(|rows|, i requires 0 <= i < |rows| => rows[i].mean)
  }

  function GrandMean(rows: seq<Row>): real
    requires rows != []
  {
    Average(Sum(Means(rows)), |rows|)
  }

  /** One term of `sum_squares`, with `n` attempts in the run */
  function Term(r: Row, n: real, grand: real): real {
    (n - 1.0) * r.std * r.std + n * Sq(r.mean - grand)
  }

  /** `sum_squares` */
  function SumSquares(rows: seq<Row>, n: real, grand: real): real {
    if rows == [] then 0.0 else SumSquares(rows[..|rows|-1], n, grand) + Term(rows[|rows|-1], n, grand)
  }

  /** The square of `pooled_std` */
  function PooledVariance(rows: seq<Row>, n: nat): real
    requires rows != []
  {
    var total := n * |rows|;
    if total > 1 then Variance(SumSquares(rows, n as real, GrandMean(rows)), total) else 0.0
  }

  lemma AloneIsItsMean(x: real)
    ensures Average(x, 1) == x && Sq(x - x) == 0.0 && Variance(0.0, 1) == 0.0
  {
  }

  lemma One(v: seq<real>)
    requires |v| == 1
    ensures SumSq(v, Mean(v)) == 0.0 && SampleVariance(v) == 0.0
  {
    hide Sq, Average, Variance;
    assert Sum(v) == v[0] by { assert Sum(v[..0]) == 0.0; }
    assert Mean(v) == v[0] by { AloneIsItsMean(v[0]); }
    assert SumSq(v[..0], v[0]) == 0.0;
    AloneIsItsMean(v[0]);
  }

  /** What a row says about its run, without the divisions: `n` times the mean is the sum, and the
      squared deviation scaled up is the sum of squares. */
  predicate Balances(row: Row, run: seq<real>, n: real) {
    && n == |run| as real
    && Times(n, row.mean) == Sum(run)
    && Times(n - 1.0, Sq(row.std)) == SumSq(run, row.mean)
  }

  lemma ZeroTimes(x: real)
    ensures Times(1.0 - 1.0, x) == 0.0
  {
  }

  lemma RowBalances(row: Row, run: seq<real>, n: real)
    requires Describes(row, run) && n == |run| as real
    ensures Balances(row, run, n)
  {
    hide Sq, Times, Average, Variance;
    AverageTimes(Sum(run), |run|, n);
    if |run| == 1 {
      One(run);
      ZeroTimes(0.0);
    } else {
      VarianceTimes(SumSq(run, row.mean), |run|, n);
    }
  }

  lemma TermIs(row: Row, n: real, grand: real)
    ensures Term(row, n, grand) == Times(n - 1.0, Sq(row.std)) + Times(n, Sq(row.mean - grand))
  {
    assert (n - 1.0) * row.std * row.std == (n - 1.0) * (row.std * row.std);
  }

  /** One term is the run's sum of squares about the grand mean. */
  lemma TermIsRun(row: Row, run: seq<real>, n: real, grand: real)
    requires Balances(row, run, n)
    ensures Term(row, n, grand) == SumSq(run, grand)
  {
    hide Sq, Times, Term;
    SumSqAboutMean(run, n, row.mean, grand);
    TermIs(row, n, grand);
  }

  lemma SumSqSnoc(runs: seq<seq<real>>, a: real)
    requires runs != []
    ensures Sum(Flatten(runs)) == Sum(Flatten(runs[..|runs|-1])) + Sum(runs[|runs|-1])
    ensures SumSq(Flatten(runs), a) == SumSq(Flatten(runs[..|runs|-1]), a) + SumSq(runs[|runs|-1], a)
  {
    hide Sq;
    var k := |runs| - 1;
    assert runs == runs[..k] + [runs[k]];
    FlattenSnoc(runs[..k], runs[k]);
    SumConcat(Flatten(runs[..k]), runs[k]);
    SumSqConcat(Flatten(runs[..k]), runs[k], a);
  }

  lemma {:induction false} SumSqOfFlatten(rows: seq<Row>, runs: seq<seq<real>>, n: nat, grand: real)
    requires AllDescribe(rows, runs, n)
    ensures SumSquares(rows, n as real, grand) == SumSq(Flatten(runs), grand)
  {
    hide Sq, Times, Term, Describes, Balances;
    if runs != [] {
      var k := |runs| - 1;
      SumSqOfFlatten(rows[..k], runs[..k], n, grand);
      SumSqSnoc(runs, grand);
      RowBalances(rows[k], runs[k], n as real);
      TermIsRun(rows[k], runs[k], n as real, grand);
    }
  }

  lemma TimesAdd(n: real, a: real, b: real)
    ensures Times(n, a + b) == Times(n, a) + Times(n, b)
  {
  }

  lemma {:induction false} SumOfFlatten(rows: seq<Row>, runs: seq<seq<real>>, n: nat)
    requires AllDescribe(rows, runs, n)
    ensures Sum(Flatten(runs)) == Times(n as real, Sum(Means(rows)))
  {
    hide Sq, Times, Describes;
    if runs == [] {
      TimesAdd(n as real, 0.0, 0.0);
    } else {
      var k := |runs| - 1;
      assert Means(rows)[..k] == Means(rows[..k]);
      SumSqSnoc(runs, 0.0);
      SumOfFlatten(rows[..k], runs[..k], n);
      RowBalances(rows[k], runs[k], n as real);
      TimesAdd(n as real, Sum(Means(rows[..k])), rows[k].mean);
    }
  }

  lemma {:induction false} SizeOfFlatten(rows: seq<Row>, runs: seq<seq<real>>, n: nat)
    requires AllDescribe(rows, runs, n)
    ensures |Flatten(runs)| == n * |runs|
  {
    hide Describes;
    if runs != [] {
      SizeOfFlatten(rows[1..], runs[1..], n);
      assert n * |runs| == n + n * (|runs| - 1);
    }
  }

  lemma MeanOfMeans(s: real, n: nat, k: nat)
    requires n > 0 && k > 0
    ensures n * k > 0 && Average(Times(n as real, s), n * k) == Average(s, k)
  {
    assert (n * k) as real == n as real * k as real;
    var q := s / k as real;
    DivMul(s, k as real);
    assert (n as real * k as real) * q == n as real * s;
  }

  lemma SameCount(rows: seq<Row>, runs: seq<seq<real>>, n: nat)
    requires AllDescribe(rows, runs, n)
    ensures |rows| == |runs|
  {
  }

  /** Pooling equal-size runs from their printed means and standard deviations gives exactly the mean
      and the sample variance of all the observations put together. */
  lemma PoolingIsExact(rows: seq<Row>, runs: seq<seq<real>>, n: nat)
    requires n > 0 && runs != [] && AllDescribe(rows, runs, n)
    ensures Flatten(runs) != []
    ensures GrandMean(rows) == Mean(Flatten(runs))
    ensures PooledVariance(rows, n) == SampleVariance(Flatten(runs))
  {
    hide Sq, Times, Average, Variance, AllDescribe;
    var all := Flatten(runs);
    MeanOfMeans(Sum(Means(rows)), n, |runs|);
    SizeOfFlatten(rows, runs, n);
    SumOfFlatten(rows, runs, n);
    SameCount(rows, runs, n);
    SumSqOfFlatten(rows, runs, n, GrandMean(rows));
    if |all| == 1 {
      One(all);
    }
  }
}
