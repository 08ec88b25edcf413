/** The type-7 quantile, written once for the device and once for the host, and the median of the
    isolated sign/verify harness. */
module Quantiles {
  import opened Common

  ghost predicate Sorted(v: seq<real>) {
    forall i, j :: 0 <= i <= j < |v| ==> v[i] <= v[j]
  }

  lemma PositionInRange(p: real, last: real)
    requires last >= 0.0 && 0.0 <= p <= 1.0
    ensures 0.0 <= p * last <= last
  {
    MulMono(0.0, p, last);
    MulMono(p, 1.0, last);
  }

  /** The place of level `p` among `n` observations, counted from 0 */
  function Position(n: nat, p: real): (pos: real)
    requires n > 0 && 0.0 <= p <= 1.0
    ensures 0.0 <= pos <= (n - 1) as real
  {
    PositionInRange(p, (n - 1) as real);
    p * (n - 1) as real
  }

  function Between(a: real, b: real, fraction: real): real {
    a + fraction * (b - a)
  }

  function Ceil(x: real): int {
    -((-x).Floor)
  }

  /** Interpolation at a position, as the device does it: truncate, and clamp the upper index. */
  function DeviceAt(v: seq<real>, pos: real): real
    requires v != [] && 0.0 <= pos <= (|v| - 1) as real
  {
    var lo := pos.Floor;
    var hi := if lo + 1 < |v| then lo + 1 else lo;
    Between(v[lo], v[hi], pos - lo as real)
  }

  /** `quantile_sorted` in mqtt_client/main.c */
  function DeviceQuantile(v: seq<real>, p: real): real
    requires v != [] && 0.0 <= p <= 1.0
  {
    if |v| == 1 then v[0] else DeviceAt(v, Position(|v|, p))
  }

  /** Interpolation at a position, as the host does it: floor and ceiling. */
  function HostAt(v: seq<real>, pos: real): real
    requires v != [] && 0.0 <= pos <= (|v| - 1) as real
  {
    var lo, hi := pos.Floor, Ceil(pos);
    Between(v[lo], v[hi], pos - lo as real)
  }

  /** `quantile` in tools/analyze_hs_csv.py */
  function HostQuantile(v: seq<real>, p: real): real
    requires v != [] && 0.0 <= p <= 1.0
  {
    if |v| == 1 then v[0] else HostAt(v, Position(|v|, p))
  }

  /** The odd/even median of bench.c. */
  function BenchMedian(v: seq<real>): real
    requires v != []
  {
    if |v| % 2 == 1 then v[|v| / 2] else 0.5 * (v[|v| / 2 - 1] + v[|v| / 2])
  }

  // ---- Interpolation --------------------------------------------------------------------------

  lemma BetweenEnds(a: real, b: real, fraction: real)
    ensures Between(a, b, 0.0) == a && Between(a, a, fraction) == a && Between(a, b, 0.5) == 0.5 * (a + b)
  {
    MulBy(a - a, 0.0, fraction);
  }

  /** A weighted step from `a` towards `b` stays between them and grows with the weight. */
  lemma Blend(a: real, b: real, s: real, t: real)
    requires a <= b && 0.0 <= s <= t <= 1.0
    ensures a <= Between(a, b, s) <= Between(a, b, t) <= b
  {
    MulMono(0.0, s, b - a);
    MulMono(s, t, b - a);
    MulMono(t, 1.0, b - a);
  }

  lemma CeilOfFloor(x: real)
    ensures x == x.Floor as real ==> Ceil(x) == x.Floor
    ensures x != x.Floor as real ==> Ceil(x) == x.Floor + 1
  {
    if x == x.Floor as real {
      assert -x == (-x.Floor) as real;
    } else {
      assert (-x.Floor - 1) as real < -x < (-x.Floor) as real;
    }
  }

  lemma AtAgree(v: seq<real>, pos: real)
    requires v != [] && 0.0 <= pos <= (|v| - 1) as real
    ensures DeviceAt(v, pos) == HostAt(v, pos)
  {
    hide Between, Ceil;
    CeilOfFloor(pos);
    var lo := pos.Floor;
    if pos == lo as real && lo + 1 < |v| {
      BetweenEnds(v[lo], v[lo + 1], 0.0);
      BetweenEnds(v[lo], v[lo], 0.0);
    }
  }

  /** The two formulas are the same function. */
  lemma QuantilesAgree(v: seq<real>, p: real)
    requires v != [] && 0.0 <= p <= 1.0
    ensures DeviceQuantile(v, p) == HostQuantile(v, p)
  {
    hide DeviceAt, HostAt, Position;
    if |v| > 1 {
      AtAgree(v, Position(|v|, p));
    }
  }

  lemma FractionIsSmall(pos: real)
    requires pos >= 0.0
    ensures 0 <= pos.Floor && 0.0 <= pos - pos.Floor as real < 1.0
  {
  }

  lemma CellBounds(v: seq<real>, pos: real)
    requires v != [] && Sorted(v) && 0.0 <= pos <= (|v| - 1) as real
    ensures 0 <= pos.Floor < |v|
    ensures v[pos.Floor] <= DeviceAt(v, pos)
    ensures pos.Floor + 1 < |v| ==> DeviceAt(v, pos) <= v[pos.Floor + 1]
    ensures pos.Floor + 1 == |v| ==> DeviceAt(v, pos) == v[pos.Floor]
  {
    hide Between;
    FractionIsSmall(pos);
    var lo := pos.Floor;
    if lo + 1 < |v| {
      Blend(v[lo], v[lo + 1], pos - lo as real, pos - lo as real);
    } else {
      BetweenEnds(v[lo], v[lo], pos - lo as real);
    }
  }

  lemma AtMonotone(v: seq<real>, x: real, y: real)
    requires v != [] && Sorted(v) && 0.0 <= x <= y <= (|v| - 1) as real
    ensures DeviceAt(v, x) <= DeviceAt(v, y)
  {
    hide Between;
    CellBounds(v, x);
    CellBounds(v, y);
    FractionIsSmall(x);
    FractionIsSmall(y);
    var lo := x.Floor;
    if lo == y.Floor && lo + 1 < |v| {
      Blend(v[lo], v[lo + 1], x - lo as real, y - lo as real);
    }
  }

  lemma PositionMonotone(n: nat, p: real, q: real)
    requires n > 0 && 0.0 <= p <= q <= 1.0
    ensures Position(n, p) <= Position(n, q)
  {
    MulMono(p, q, (n - 1) as real);
  }

  // ---- Quantiles ------------------------------------------------------------------------------

  /** Every quantile lies between the smallest and the largest observation. */
  lemma QuantileInRange(v: seq<real>, p: real)
    requires v != [] && Sorted(v) && 0.0 <= p <= 1.0
    ensures v[0] <= DeviceQuantile(v, p) <= v[|v|-1]
  {
    hide DeviceAt, Position;
    if |v| > 1 {
      CellBounds(v, Position(|v|, p));
    }
  }

  /** A larger level never gives a smaller quantile. */
  lemma QuantileMonotone(v: seq<real>, p: real, q: real)
    requires v != [] && Sorted(v) && 0.0 <= p <= q <= 1.0
    ensures DeviceQuantile(v, p) <= DeviceQuantile(v, q)
  {
    hide DeviceAt, Position;
    if |v| > 1 {
      PositionMonotone(|v|, p, q);
      AtMonotone(v, Position(|v|, p), Position(|v|, q));
    }
  }

  lemma FloorOf(h: nat)
    ensures (h as real).Floor == h && (h as real + 0.5).Floor == h
    ensures h as real - h as real == 0.0 && h as real + 0.5 - h as real == 0.5
  {
  }

  lemma AtWhole(v: seq<real>, h: nat)
    requires h < |v|
    ensures DeviceAt(v, h as real) == v[h]
  {
    hide Between;
    FloorOf(h);
    BetweenEnds(v[h], v[if h + 1 < |v| then h + 1 else h], 0.0);
  }

  lemma AtHalf(v: seq<real>, h: nat)
    requires h + 1 < |v|
    ensures DeviceAt(v, h as real + 0.5) == 0.5 * (v[h] + v[h + 1])
  {
    hide Between;
    FloorOf(h);
    BetweenEnds(v[h], v[h + 1], 0.5);
  }

  /** At level one half, both formulas give the median of the isolated harness. */
  lemma MediansAgree(v: seq<real>)
    requires v != []
    ensures DeviceQuantile(v, 0.5) == BenchMedian(v)
  {
    hide DeviceAt;
    if |v| > 1 {
      if |v| % 2 == 1 {
        AtWhole(v, |v| / 2);
        assert Position(|v|, 0.5) == (|v| / 2) as real;
      } else {
        AtHalf(v, |v| / 2 - 1);
        assert Position(|v|, 0.5) == (|v| / 2 - 1) as real + 0.5;
      }
    }
  }

  lemma PositionOfKnot(n: nat, p: real, pos: real)
    requires n > 1 && p == pos / (n - 1) as real && 0.0 <= pos <= (n - 1) as real
    ensures 0.0 <= p <= 1.0 && Position(n, p) == pos
  {
    var last := (n - 1) as real;
    assert p * last == pos;
    if p > 1.0 {
      MulMono(1.0, p, last);
    }
  }

  lemma FloorBetween(i: nat, f: real)
    requires 0.0 <= f < 1.0
    ensures (i as real + f).Floor == i && i as real + f - i as real == f
  {
  }

  /** The quantile at level `(i + f) / (n - 1)` is the fraction `f` of the way from observation `i` to the
      next: an observation at every knot, and a straight line between neighbouring knots. */
  lemma QuantileIsPiecewiseLinear(v: seq<real>, i: nat, f: real, p: real)
    requires i + 1 < |v| && 0.0 <= f <= 1.0 && p == (i as real + f) / (|v| - 1) as real
    ensures 0.0 <= p <= 1.0 && DeviceQuantile(v, p) == v[i] + f * (v[i + 1] - v[i])
  {
    hide Position;
    PositionOfKnot(|v|, p, i as real + f);
    if f < 1.0 {
      FloorBetween(i, f);
    } else {
      assert i as real + f == (i + 1) as real;
      AtWhole(v, i + 1);
      MulBy(f, 1.0, v[i + 1] - v[i]);
    }
  }
}
