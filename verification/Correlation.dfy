/** The Pearson correlation of two columns that may hold missing values. */
module Correlation {
  import opened Common
  import opened Moments

  datatype Pair = Pair(x: real, y: real)

  /** The rows at which both columns are finite; the longer column is cut. */
  function FinitePairs(xs: seq<Option<real>>, ys: seq<Option<real>>): seq<Pair> {
    if xs == [] || ys == [] then []
    else if xs[0].Some? && ys[0].Some? then
      [Pair(xs[0].value, ys[0].value)] + FinitePairs(xs[1..], ys[1..])
    else
      FinitePairs(xs[1..], ys[1..])
  }

  /** Row `i` has both values, and they are those of `q`. */
  predicate IsRow(xs: seq<Option<real>>, ys: seq<Option<real>>, i: nat, q: Pair) {
    i < |xs| && i < |ys| && xs[i] == Some(q.x) && ys[i] == Some(q.y)
  }

  /** A pair is correlated exactly when some row holds it. */
  lemma {:induction false} PairsAreRows(xs: seq<Option<real>>, ys: seq<Option<real>>, q: Pair)
    ensures q in FinitePairs(xs, ys) <==> exists i: nat :: IsRow(xs, ys, i, q)
  {
    if xs != [] && ys != [] {
      PairsAreRows(xs[1..], ys[1..], q);
      if i: nat :| IsRow(xs, ys, i, q) {
        assert i > 0 ==> IsRow(xs[1..], ys[1..], i - 1, q);
      }
      if i: nat :| IsRow(xs[1..], ys[1..], i, q) {
        assert IsRow(xs, ys, i + 1, q);
      }
      if IsRow(xs, ys, 0, q) {
        assert FinitePairs(xs, ys)[0] == q;
      }
    }
  }

  function Xs(p: seq<Pair>): seq<real> {
    seq(|p|, i requires 0 <= i < |p| => p[i].x)
  }

  function Ys(p: seq<Pair>): seq<real> {
    seq(|p|, i requires 0 <= i < |p| => p[i].y)
  }

  /** The pairs with their means taken off */
  function Deviations(p: seq<Pair>): (d: seq<Pair>)
    requires p != []
    ensures |d| == |p|
  {
    seq(|p|, i requires 0 <= i < |p| => Pair(p[i].x - Mean(Xs(p)), p[i].y - Mean(Ys(p))))
  }

  /** `numerator`, over the deviations `d` */
  function SumXY(d: seq<Pair>): real {
    if d == [] then 0.0 else SumXY(d[..|d|-1]) + Times(d[|d|-1].x, d[|d|-1].y)
  }

  /** `xsum` */
  function SumXX(d: seq<Pair>): real {
    if d == [] then 0.0 else SumXX(d[..|d|-1]) + Sq(d[|d|-1].x)
  }

  /** `ysum` */
  function SumYY(d: seq<Pair>): real {
    if d == [] then 0.0 else SumYY(d[..|d|-1]) + Sq(d[|d|-1].y)
  }

  /** What `denominator` is the square root of; nothing is computed from fewer than two pairs */
  function Radicand(p: seq<Pair>): real {
    if |p| < 2 then 0.0 else Times(SumXX(Deviations(p)), SumYY(Deviations(p)))
  }

  predicate IsRoot(root: real, x: real) {
    root >= 0.0 && root * root == x
  }

  /** `pearson`, given the square root that `math.sqrt` returns; `None` is NaN. */
  function Pearson(p: seq<Pair>, root: real): Option<real>
    requires IsRoot(root, Radicand(p))
  {
    if |p| < 2 then None
    else if root == 0.0 then None
    else Some(SumXY(Deviations(p)) / root)
  }

  // ---- Cauchy-Schwarz over the loop sums ------------------------------------------------------

  /** How far a point is off the line `u * y == t * x` */
  function Off(q: Pair, u: real, t: real): real {
    u * q.y - t * q.x
  }

  function Residual(d: seq<Pair>, u: real, t: real): real {
    if d == [] then 0.0 else Residual(d[..|d|-1], u, t) + Sq(Off(d[|d|-1], u, t))
  }

  function Form(u: real, t: real, xx: real, xy: real, yy: real): real {
    u * u * yy - 2.0 * u * t * xy + t * t * xx
  }

  lemma FormStep(u: real, t: real, xx: real, xy: real, yy: real, q: Pair)
    ensures Form(u, t, xx + Sq(q.x), xy + Times(q.x, q.y), yy + Sq(q.y))
         == Form(u, t, xx, xy, yy) + Sq(Off(q, u, t))
  {
    var x, y := q.x, q.y;
    assert u * u * (yy + Sq(y)) == u * u * yy + (u * y) * (u * y);
    assert t * t * (xx + Sq(x)) == t * t * xx + (t * x) * (t * x);
    assert 2.0 * u * t * (xy + x * y) == 2.0 * u * t * xy + 2.0 * (u * y) * (t * x);
  }

  lemma FormOfNothing(u: real, t: real)
    ensures Form(u, t, 0.0, 0.0, 0.0) == 0.0
  {
  }

  /** The residual, in terms of the three sums. */
  lemma {:induction false} ResidualIsForm(d: seq<Pair>, u: real, t: real)
    ensures Residual(d, u, t) == Form(u, t, SumXX(d), SumXY(d), SumYY(d))
  {
    hide Form, Sq, Times, Off;
    if d == [] {
      FormOfNothing(u, t);
    } else {
      var e, l := d[..|d|-1], d[|d|-1];
      ResidualIsForm(e, u, t);
      FormStep(u, t, SumXX(e), SumXY(e), SumYY(e), l);
    }
  }

  lemma PositiveProduct(x: real, y: real)
    requires (x > 0.0 && y > 0.0) || (x < 0.0 && y < 0.0)
    ensures Times(x, y) > 0.0
  {
  }

  lemma SquareIsTimes(x: real)
    ensures Sq(x) == Times(x, x) && Sq(0.0) == 0.0
  {
  }

  lemma SquareZero(x: real)
    ensures Sq(x) >= 0.0
    ensures Sq(x) == 0.0 <==> x == 0.0
  {
    hide Sq, Times;
    SquareIsTimes(x);
    if x != 0.0 {
      PositiveProduct(x, x);
    }
  }

  ghost predicate Through(d: seq<Pair>, u: real, t: real) {
    forall i :: 0 <= i < |d| ==> Off(d[i], u, t) == 0.0
  }

  /** No residual is negative, and it vanishes exactly when every point lies on the line. */
  lemma {:induction false} ResidualZeroIff(d: seq<Pair>, u: real, t: real)
    ensures Residual(d, u, t) >= 0.0
    ensures Residual(d, u, t) == 0.0 <==> Through(d, u, t)
  {
    hide Sq, Off;
    if d != [] {
      var e, l := d[..|d|-1], d[|d|-1];
      ResidualZeroIff(e, u, t);
      SquareZero(Off(l, u, t));
      assert Through(d, u, t) <==> Through(e, u, t) && Off(l, u, t) == 0.0;
    }
  }

  ghost predicate ZeroX(d: seq<Pair>) {
    forall i :: 0 <= i < |d| ==> d[i].x == 0.0
  }

  ghost predicate ZeroY(d: seq<Pair>) {
    forall i :: 0 <= i < |d| ==> d[i].y == 0.0
  }

  lemma {:induction false} SumXXZeroIff(d: seq<Pair>)
    ensures SumXX(d) >= 0.0
    ensures SumXX(d) == 0.0 <==> ZeroX(d)
  {
    hide Sq;
    if d != [] {
      SumXXZeroIff(d[..|d|-1]);
      SquareZero(d[|d|-1].x);
      assert ZeroX(d) <==> ZeroX(d[..|d|-1]) && d[|d|-1].x == 0.0;
    }
  }

  lemma {:induction false} SumYYZeroIff(d: seq<Pair>)
    ensures SumYY(d) >= 0.0
    ensures SumYY(d) == 0.0 <==> ZeroY(d)
  {
    hide Sq;
    if d != [] {
      SumYYZeroIff(d[..|d|-1]);
      SquareZero(d[|d|-1].y);
      assert ZeroY(d) <==> ZeroY(d[..|d|-1]) && d[|d|-1].y == 0.0;
    }
  }

  lemma {:induction false} NoCross(d: seq<Pair>)
    requires ZeroX(d)
    ensures SumXY(d) == 0.0
  {
    if d != [] {
      NoCross(d[..|d|-1]);
    }
  }

  /** A line through the mean: not both of its coefficients are zero. */
  ghost predicate IsLine(d: seq<Pair>, u: real, t: real) {
    (u != 0.0 || t != 0.0) && Through(d, u, t)
  }

  /** Completing the square: `xx` times the residual of a line, in terms of the slack of the inequality. */
  lemma FormTimes(u: real, t: real, xx: real, xy: real, yy: real)
    ensures xx * Form(u, t, xx, xy, yy) == Sq(t * xx - u * xy) + Sq(u) * (Times(xx, yy) - Sq(xy))
  {
    assert xx * (u * u * yy) == u * u * (xx * yy);
    assert xx * (2.0 * u * t * xy) == 2.0 * (t * xx) * (u * xy);
    assert xx * (t * t * xx) == (t * xx) * (t * xx);
    assert Sq(t * xx - u * xy) == (t * xx) * (t * xx) - 2.0 * (t * xx) * (u * xy) + u * u * (xy * xy);
  }

  /** The residual of the regression line is `xx` times the slack. */
  lemma FormAtSlope(xx: real, xy: real, yy: real)
    ensures Form(xx, xy, xx, xy, yy) == xx * (Times(xx, yy) - Sq(xy))
  {
    assert xx * xx * yy == xx * (xx * yy);
    assert 2.0 * xx * xy * xy == xx * (xy * xy) + xy * xy * xx;
  }

  lemma SignOfSlack(xx: real, slack: real)
    requires xx > 0.0
    ensures xx * slack >= 0.0 ==> slack >= 0.0
    ensures xx * slack == 0.0 <==> slack == 0.0
  {
  }

  lemma ZeroTimesAnything(x: real, y: real)
    requires x == 0.0
    ensures x * y == 0.0
  {
  }

  lemma NothingToCompare(yy: real)
    ensures Sq(0.0) == 0.0 && Times(0.0, yy) == 0.0
  {
  }

  /** The numerator squared is at most the product of the two sums. */
  lemma SlackIsNotNegative(d: seq<Pair>)
    ensures Sq(SumXY(d)) <= Times(SumXX(d), SumYY(d))
    ensures SumXX(d) > 0.0 && Sq(SumXY(d)) == Times(SumXX(d), SumYY(d)) ==> Through(d, SumXX(d), SumXY(d))
  {
    hide Form, Sq, Times, Through;
    SumXXZeroIff(d);
    var xx, xy, yy := SumXX(d), SumXY(d), SumYY(d);
    if xx == 0.0 {
      NoCross(d);
      NothingToCompare(yy);
    } else {
      ResidualIsForm(d, xx, xy);
      ResidualZeroIff(d, xx, xy);
      FormAtSlope(xx, xy, yy);
      SignOfSlack(xx, Times(xx, yy) - Sq(xy));
    }
  }

  lemma SumOfSquares(a: real, q: real, slack: real)
    requires Sq(a) + q * slack == 0.0 && q >= 0.0 && slack >= 0.0
    ensures a == 0.0 && (q > 0.0 ==> slack == 0.0)
  {
    SquareZero(a);
    MulMono(0.0, q, slack);
  }

  lemma VerticalHasNoWidth(u: real, t: real, xx: real, xy: real)
    requires u == 0.0 && t != 0.0 && t * xx - u * xy == 0.0
    ensures xx == 0.0
  {
    ZeroTimesAnything(u, xy);
  }

  /** Points on a line leave no slack, and the line has the slope of the two sums. */
  lemma LineLeavesNoSlack(d: seq<Pair>, u: real, t: real)
    requires IsLine(d, u, t)
    ensures Sq(SumXY(d)) == Times(SumXX(d), SumYY(d))
    ensures t * SumXX(d) == u * SumXY(d)
  {
    hide Form, Sq, Times, Through;
    var xx, xy, yy := SumXX(d), SumXY(d), SumYY(d);
    SumXXZeroIff(d);
    ResidualIsForm(d, u, t);
    ResidualZeroIff(d, u, t);
    SlackIsNotNegative(d);
    if xx == 0.0 {
      NoCross(d);
      NothingToCompare(yy);
      ZeroTimesAnything(xx, t);
      ZeroTimesAnything(xy, u);
    } else {
      FormTimes(u, t, xx, xy, yy);
      SquareZero(u);
      SumOfSquares(t * xx - u * xy, Sq(u), Times(xx, yy) - Sq(xy));
      if u == 0.0 {
        VerticalHasNoWidth(u, t, xx, xy);
      }
    }
  }

  lemma StandingLine(d: seq<Pair>)
    requires ZeroX(d)
    ensures Through(d, 0.0, 1.0)
  {
    forall i | 0 <= i < |d|
      ensures Off(d[i], 0.0, 1.0) == 0.0
    {
      ZeroTimesAnything(0.0, d[i].y);
    }
  }

  /** The numerator squared is at most the product of the two sums, with equality exactly when some
      line through their mean holds all the points. */
  lemma CauchySchwarz(d: seq<Pair>)
    ensures Sq(SumXY(d)) <= Times(SumXX(d), SumYY(d))
    ensures Sq(SumXY(d)) == Times(SumXX(d), SumYY(d)) <==> exists u, t :: IsLine(d, u, t)
  {
    hide Form, Sq, Times;
    SumXXZeroIff(d);
    SlackIsNotNegative(d);
    if u, t :| IsLine(d, u, t) {
      LineLeavesNoSlack(d, u, t);
    }
    if SumXX(d) == 0.0 {
      StandingLine(d);
      assert IsLine(d, 0.0, 1.0);
    } else if Sq(SumXY(d)) == Times(SumXX(d), SumYY(d)) {
      assert IsLine(d, SumXX(d), SumXY(d));
    }
  }

  // ---- The three main results -----------------------------------------------------------------

  ghost predicate Constant(v: seq<real>) {
    forall i, j :: 0 <= i < |v| && 0 <= j < |v| ==> v[i] == v[j]
  }

  lemma OneMore(n: real, c: real)
    ensures Times(n - 1.0, c) + c == Times(n, c)
  {
  }

  lemma {:induction false} SumOfConstant(v: seq<real>, c: real, n: real)
    requires n == |v| as real && forall i :: 0 <= i < |v| ==> v[i] == c
    ensures Sum(v) == Times(n, c)
  {
    hide Times;
    if v == [] {
      NothingToCompare(c);
    } else {
      SumOfConstant(v[..|v|-1], c, n - 1.0);
      OneMore(n, c);
    }
  }

  lemma AverageOfTimes(n: nat, c: real)
    requires n > 0
    ensures Average(Times(n as real, c), n) == c
  {
    var r := n as real;
    assert (r * c) / r == c;
  }

  /** A column is at its mean everywhere exactly when it never changes. */
  lemma AtMeanIffConstant(v: seq<real>)
    requires v != []
    ensures (forall i :: 0 <= i < |v| ==> v[i] == Mean(v)) <==> Constant(v)
  {
    hide Times, Average;
    if Constant(v) {
      SumOfConstant(v, v[0], |v| as real);
      AverageOfTimes(|v|, v[0]);
    }
  }

  lemma DeviationsZeroIff(p: seq<Pair>)
    requires p != []
    ensures ZeroX(Deviations(p)) <==> Constant(Xs(p))
    ensures ZeroY(Deviations(p)) <==> Constant(Ys(p))
  {
    hide Mean, Constant;
    AtMeanIffConstant(Xs(p));
    AtMeanIffConstant(Ys(p));
    forall i | 0 <= i < |p|
      ensures Deviations(p)[i].x == 0.0 <==> Xs(p)[i] == Mean(Xs(p))
      ensures Deviations(p)[i].y == 0.0 <==> Ys(p)[i] == Mean(Ys(p))
    {
    }
  }

  lemma ProductZeroIff(a: real, b: real, root: real)
    requires IsRoot(root, Times(a, b))
    ensures root == 0.0 <==> a == 0.0 || b == 0.0
  {
    SquareZero(root);
  }

  lemma Ratio(xy: real, root: real, xxyy: real)
    requires root > 0.0 && IsRoot(root, xxyy) && Sq(xy) <= xxyy
    ensures -1.0 <= xy / root <= 1.0
    ensures Sq(xy / root) == 1.0 <==> Sq(xy) == xxyy
  {
    var r := xy / root;
    SquareZero(root);
    assert xxyy * (1.0 - Sq(r)) == xxyy - Sq(xy) by {
      assert xy == r * root;
      assert Sq(xy) == Sq(r) * (root * root);
    }
    SignOfSlack(xxyy, 1.0 - Sq(r));
    if r > 1.0 {
      MulMono(1.0, r, r);
    } else if r < -1.0 {
      MulMono(1.0, -r, -r);
    }
  }

  /** No correlation is reported exactly when fewer than two rows have both values or one of the two
      columns never changes. */
  lemma UndefinedIff(p: seq<Pair>, root: real)
    requires IsRoot(root, Radicand(p))
    ensures Pearson(p, root).None? <==> |p| < 2 || Constant(Xs(p)) || Constant(Ys(p))
  {
    hide Times, Sq, Mean, ZeroX, ZeroY, Constant;
    if |p| >= 2 {
      var d := Deviations(p);
      DeviationsZeroIff(p);
      SumXXZeroIff(d);
      SumYYZeroIff(d);
      ProductZeroIff(SumXX(d), SumYY(d), root);
    }
  }

  /** A reported correlation lies between -1 and 1. */
  lemma PearsonInRange(p: seq<Pair>, root: real)
    requires IsRoot(root, Radicand(p)) && Pearson(p, root).Some?
    ensures -1.0 <= Pearson(p, root).value <= 1.0
  {
    hide Times, Sq, Through, Mean;
    SlackIsNotNegative(Deviations(p));
    Ratio(SumXY(Deviations(p)), root, Radicand(p));
  }

  lemma SameSign(a: real, b: real)
    requires a > 0.0
    ensures b * a == a * b
    ensures a * b > 0.0 <==> b > 0.0
    ensures a * b < 0.0 <==> b < 0.0
  {
  }

  lemma SignOfSlope(xx: real, xy: real, u: real, t: real)
    requires xx > 0.0 && u > 0.0 && t * xx == u * xy
    ensures xy > 0.0 <==> t > 0.0
    ensures xy < 0.0 <==> t < 0.0
  {
    SameSign(xx, t);
    SameSign(u, xy);
  }

  lemma SignOfRatio(xy: real, root: real)
    requires root > 0.0
    ensures xy / root > 0.0 <==> xy > 0.0
    ensures xy / root < 0.0 <==> xy < 0.0
  {
    var r := xy / root;
    assert xy == r * root;
    SameSign(root, r);
  }

  lemma UnitSquares(r: real)
    ensures Sq(r) == 1.0 <==> r == 1.0 || r == -1.0
  {
    assert Sq(r) - 1.0 == (r - 1.0) * (r + 1.0);
  }

  /** A correlation is 1 exactly when some rising line holds all the points, and -1 exactly when some
      falling line does. */
  lemma ExtremeIffOnLine(p: seq<Pair>, root: real)
    requires IsRoot(root, Radicand(p)) && Pearson(p, root).Some?
    ensures Pearson(p, root).value == 1.0 <==> exists u, t :: u > 0.0 && t > 0.0 && IsLine(Deviations(p), u, t)
    ensures Pearson(p, root).value == -1.0 <==> exists u, t :: u > 0.0 && t < 0.0 && IsLine(Deviations(p), u, t)
  {
    hide Times, Sq, Through, Mean;
    var d := Deviations(p);
    var xx, xy := SumXX(d), SumXY(d);
    SlackIsNotNegative(d);
    SumXXZeroIff(d);
    ProductZeroIff(xx, SumYY(d), root);
    Ratio(xy, root, Radicand(p));
    SignOfRatio(xy, root);
    UnitSquares(xy / root);
    if xy / root == 1.0 || xy / root == -1.0 {
      assert IsLine(d, xx, xy);
    }
    forall u, t | u > 0.0 && IsLine(d, u, t)
      ensures Sq(xy) == Radicand(p) && (xy > 0.0 <==> t > 0.0) && (xy < 0.0 <==> t < 0.0)
    {
      LineLeavesNoSlack(d, u, t);
      SignOfSlope(xx, xy, u, t);
    }
  }

  // ---- The share that is explained ------------------------------------------------------------

  lemma FormOfUnit(t: real, xx: real, xy: real, yy: real)
    ensures Form(1.0, t, xx, xy, yy) == yy - 2.0 * t * xy + Times(t * t, xx)
  {
  }

  lemma FormAtLeast(m: real, t: real, xx: real, xy: real, yy: real)
    requires m * xx == xy
    ensures Form(1.0, t, xx, xy, yy) == Form(1.0, m, xx, xy, yy) + Times(Sq(t - m), xx)
  {
    FormOfUnit(t, xx, xy, yy);
    FormOfUnit(m, xx, xy, yy);
    assert t * xy == t * m * xx && m * xy == m * m * xx;
    assert Sq(t - m) * xx == t * t * xx - 2.0 * (t * m * xx) + m * m * xx;
  }

  lemma SquaredRatio(r: real, root: real, xy: real, xx: real, yy: real)
    requires xy == r * root && root * root == xx * yy
    ensures xx * (Sq(r) * yy) == xy * xy
  {
    assert xy * xy == Sq(r) * (root * root);
    assert Sq(r) * (xx * yy) == xx * (Sq(r) * yy);
  }

  lemma Cancel(k: real, a: real, b: real)
    requires k > 0.0 && k * a == k * b
    ensures a == b
  {
    SignOfSlack(k, a - b);
  }

  lemma ExplainedPart(m: real, xx: real, xy: real, yy: real, root: real)
    requires root > 0.0 && xx > 0.0 && m * xx == xy && IsRoot(root, Times(xx, yy))
    ensures Times(Sq(xy / root), yy) == yy - Form(1.0, m, xx, xy, yy)
  {
    FormOfUnit(m, xx, xy, yy);
    var r := xy / root;
    assert xy == r * root;
    SquaredRatio(r, root, xy, xx, yy);
    assert m * xy == m * m * xx;
    var explained := m * xy;
    assert xx * explained == xy * xy;
    Cancel(xx, Sq(r) * yy, explained);
  }

  lemma FormOfFlatLine(xx: real, xy: real, yy: real)
    ensures Form(1.0, 0.0, xx, xy, yy) == yy
  {
  }

  lemma NotNegative(a: real, b: real)
    requires b >= 0.0
    ensures Times(Sq(a), b) >= 0.0
  {
    SquareZero(a);
    MulMono(0.0, Sq(a), b);
  }

  /** The squared correlation is the share of the variation of y that a straight line through the mean can
      explain: what is left over for the best slope, and no slope leaves less. */
  lemma SquareIsShareExplained(p: seq<Pair>, root: real, t: real)
    requires IsRoot(root, Radicand(p)) && Pearson(p, root).Some?
    ensures var d := Deviations(p);
            && SumXX(d) > 0.0
            && var slope := SumXY(d) / SumXX(d);
               && Times(Sq(Pearson(p, root).value), Residual(d, 1.0, 0.0)) == Residual(d, 1.0, 0.0) - Residual(d, 1.0, slope)
               && Residual(d, 1.0, slope) <= Residual(d, 1.0, t)
  {
    hide Form, Sq, Times, Mean, Residual;
    var d := Deviations(p);
    var xx, xy, yy := SumXX(d), SumXY(d), SumYY(d);
    SumXXZeroIff(d);
    ProductZeroIff(xx, yy, root);
    var slope := xy / xx;
    assert slope * xx == xy;
    ResidualIsForm(d, 1.0, 0.0);
    ResidualIsForm(d, 1.0, slope);
    ResidualIsForm(d, 1.0, t);
    FormOfFlatLine(xx, xy, yy);
    ExplainedPart(slope, xx, xy, yy, root);
    FormAtLeast(slope, t, xx, xy, yy);
    NotNegative(t - slope, xx);
  }
}
