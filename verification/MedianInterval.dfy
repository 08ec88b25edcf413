/** The distribution-free confidence interval for the median. */
module MedianInterval {
  import opened Common
  import opened Quantiles

  // ---- Binomial sums --------------------------------------------------------------------------

  /** The binomial coefficient */
  function Comb(n: nat, k: nat): nat {
    if k == 0 then 1 else if n == 0 then 0 else Comb(n - 1, k - 1) + Comb(n - 1, k)
  }

  /** The first `k` binomial coefficients, added up: one tail of the distribution */
  function CombSum(n: nat, k: nat): nat {
    if k == 0 then 0 else CombSum(n, k - 1) + Comb(n, k - 1)
  }

  function Pow2(n: nat): (r: nat)
    ensures r > 0
  {
    if n == 0 then 1 else 2 * Pow2(n - 1)
  }

  /** What the loop body computes for `k`. */
  function Coverage(n: nat, k: nat): real {
    1.0 - 2.0 * (CombSum(n, k) as real / Pow2(n) as real)
  }

  lemma {:induction false} CombPositive(n: nat, k: nat)
    ensures k <= n <==> Comb(n, k) > 0
  {
    if k > 0 && n > 0 {
      CombPositive(n - 1, k - 1);
      CombPositive(n - 1, k);
    }
  }

  lemma {:induction false} CombEdge(n: nat)
    ensures Comb(n, n) == 1 && Comb(n, n + 1) == 0
  {
    CombPositive(n, n + 1);
    if n > 0 {
      CombEdge(n - 1);
    }
  }

  lemma {:induction false} CombSymmetric(n: nat, k: nat)
    requires k <= n
    ensures Comb(n, k) == Comb(n, n - k)
  {
    if 0 < k < n {
      CombSymmetric(n - 1, k - 1);
      CombSymmetric(n - 1, k);
    } else if n > 0 {
      CombEdge(n);
    }
  }

  lemma Smaller(a: nat, b: nat, c: nat)
    requires a < b && c > 0
    ensures a as real / c as real < b as real / c as real
  {
  }

  /** Giving up more observations costs coverage. */
  lemma CoverageDecreases(n: nat, k: nat)
    requires k <= n
    ensures Coverage(n, k + 1) < Coverage(n, k)
  {
    CombPositive(n, k);
    Smaller(CombSum(n, k), CombSum(n, k + 1), Pow2(n));
  }

  lemma {:induction false} CoverageAntitone(n: nat, j: nat, k: nat)
    requires j <= k <= n
    ensures Coverage(n, k) <= Coverage(n, j)
  {
    if j < k {
      CoverageAntitone(n, j, k - 1);
      CoverageDecreases(n, k - 1);
    }
  }

  // ---- The loop -------------------------------------------------------------------------------

  predicate Meets(n: nat, k: nat, confidence: real, slack: real) {
    Coverage(n, k) + slack >= confidence
  }

  /** The largest k in 1..top whose coverage is enough, or 1 if there is none: a search from above. */
  function LargestFrom(n: nat, top: nat, confidence: real, slack: real): (k: nat)
    ensures k >= 1
  {
    if top <= 1 then 1
    else if Meets(n, top, confidence, slack) then top
    else LargestFrom(n, top - 1, confidence, slack)
  }

  lemma {:induction false} LargestIsLargest(n: nat, top: nat, confidence: real, slack: real)
    ensures var k := LargestFrom(n, top, confidence, slack);
            && k <= Max(1, top)
            && (k == 1 || Meets(n, k, confidence, slack))
            && forall j :: k < j <= top ==> !Meets(n, j, confidence, slack)
  {
    if top > 1 && !Meets(n, top, confidence, slack) {
      LargestIsLargest(n, top - 1, confidence, slack);
    }
  }

  /** Nothing above the first k that is not enough is enough. */
  lemma {:induction false} StopIsSafe(n: nat, k: nat, top: nat, confidence: real, slack: real)
    requires 1 <= k <= Max(1, top) && top <= n
    requires k == 1 || Meets(n, k, confidence, slack)
    requires k < top ==> !Meets(n, k + 1, confidence, slack)
    ensures LargestFrom(n, top, confidence, slack) == k
  {
    if k < top {
      CoverageAntitone(n, k + 1, top);
      StopIsSafe(n, k, top - 1, confidence, slack);
    }
  }

  /** The same, in the terms of the request. */
  lemma RankIsRight(n: nat, top: nat, confidence: real, slack: real)
    ensures var k := LargestFrom(n, top, confidence, slack);
            && (k == 1 || Coverage(n, k) + slack >= confidence)
            && forall j :: k < j <= top ==> Coverage(n, j) + slack < confidence
  {
    hide Coverage, LargestFrom;
    LargestIsLargest(n, top, confidence, slack);
    forall j | LargestFrom(n, top, confidence, slack) < j <= top
      ensures Coverage(n, j) + slack < confidence
    {
      assert !Meets(n, j, confidence, slack);
    }
  }

  /** `median_confidence_interval`: the upward search that stops at the first k that is not enough
      finds the same k as a search from above. */
  method MedianConfidenceInterval(v: seq<real>, confidence: real, slack: real)
    returns (low: real, high: real, coverage: real)
    requires v != []
    ensures var n := |v|; var k := LargestFrom(n, n / 2, confidence, slack);
            && k <= n
            && low == v[k - 1] && high == v[n - k] && coverage == Coverage(n, k)
            && (k == 1 || coverage + slack >= confidence)
            && forall j :: k < j <= n / 2 ==> Coverage(n, j) + slack < confidence
  {
    var n := |v|;
    var bestK := 1;
    var bestCoverage := 1.0 - 2.0 * (1.0 / Pow2(n) as real);
    assert CombSum(n, 1) == 1;
    assert bestCoverage == Coverage(n, 1);
    hide CombSum, LargestFrom, Pow2;
    var k := 1;
    while k <= n / 2
      invariant 1 <= k <= Max(1, n / 2 + 1)
      invariant bestCoverage == Coverage(n, bestK)
      invariant bestK == Max(1, k - 1) && (k > 1 ==> Meets(n, k - 1, confidence, slack))
    {
      var tail := CombSum(n, k) as real / Pow2(n) as real;
      var cov := 1.0 - 2.0 * tail;
      if cov + slack >= confidence {
        bestK := k;
        bestCoverage := cov;
      } else {
        break;
      }
      k := k + 1;
    }
    if k <= n / 2 {
      CoverageAntitone(n, k, bestK + 1);
    }
    StopIsSafe(n, bestK, n / 2, confidence, slack);
    RankIsRight(n, n / 2, confidence, slack);
    return v[bestK - 1], v[n - bestK], bestCoverage;
  }

  // ---- Patterns -------------------------------------------------------------------------------

  function Snoc(s: set<seq<bool>>, b: bool): set<seq<bool>> {
    set p | p in s :: p + [b]
  }

  /** All ways in which `n` observations can lie below (true) or above (false) the median. */
  function Patterns(n: nat): set<seq<bool>> {
    if n == 0 then {[]} else Snoc(Patterns(n - 1), true) + Snoc(Patterns(n - 1), false)
  }

  function Trues(p: seq<bool>): nat {
    if p == [] then 0 else Trues(p[..|p|-1]) + if p[|p|-1] then 1 else 0
  }

  lemma InSnoc(s: set<seq<bool>>, b: bool, p: seq<bool>)
    ensures p in Snoc(s, b) <==> p != [] && p[|p|-1] == b && p[..|p|-1] in s
  {
    if p in Snoc(s, b) {
      var q :| q in s && p == q + [b];
      assert p[..|p|-1] == q;
    }
    if p != [] && p[|p|-1] == b && p[..|p|-1] in s {
      assert p == p[..|p|-1] + [b];
    }
  }

  lemma {:induction false} PatternsAreAll(n: nat, p: seq<bool>)
    ensures p in Patterns(n) <==> |p| == n
  {
    if n > 0 {
      InSnoc(Patterns(n - 1), true, p);
      InSnoc(Patterns(n - 1), false, p);
      if p != [] {
        PatternsAreAll(n - 1, p[..|p|-1]);
      }
    }
  }

  lemma {:induction false} SnocSize(s: set<seq<bool>>, b: bool)
    ensures |Snoc(s, b)| == |s|
    decreases |s|
  {
    if s != {} {
      var x :| x in s;
      SnocSize(s - {x}, b);
      InSnoc(s - {x}, b, x + [b]);
      assert (x + [b])[..|x + [b]| - 1] == x;
      assert Snoc(s, b) == Snoc(s - {x}, b) + {x + [b]};
    }
  }

  lemma SnocDisjoint(s: set<seq<bool>>, t: set<seq<bool>>)
    ensures Snoc(s, true) !! Snoc(t, false)
  {
    forall p | p in Snoc(s, true)
      ensures p !in Snoc(t, false)
    {
      InSnoc(s, true, p);
      InSnoc(t, false, p);
    }
  }

  lemma UnionSize(a: set<seq<bool>>, b: set<seq<bool>>)
    requires a !! b
    ensures |a + b| == |a| + |b|
  {
  }

  lemma SnocsSize(s: set<seq<bool>>, t: set<seq<bool>>)
    ensures |Snoc(s, true) + Snoc(t, false)| == |s| + |t|
  {
    SnocSize(s, true);
    SnocSize(t, false);
    SnocDisjoint(s, t);
    UnionSize(Snoc(s, true), Snoc(t, false));
  }

  lemma {:induction false} PatternCount(n: nat)
    ensures |Patterns(n)| == Pow2(n)
  {
    if n > 0 {
      PatternCount(n - 1);
      SnocsSize(Patterns(n - 1), Patterns(n - 1));
    }
  }

  function WithTrues(n: nat, k: nat): set<seq<bool>> {
    set p | p in Patterns(n) && Trues(p) == k
  }

  lemma TruesOfSnoc(p: seq<bool>, b: bool)
    ensures Trues(p + [b]) == Trues(p) + if b then 1 else 0
  {
    assert (p + [b])[..|p|] == p;
  }

  /** The last observation is below or above. */
  lemma WithTruesSplit(n: nat, k: nat)
    requires n > 0
    ensures WithTrues(n, k) == Snoc(if k == 0 then {} else WithTrues(n - 1, k - 1), true) + Snoc(WithTrues(n - 1, k), false)
  {
    var s := if k == 0 then {} else WithTrues(n - 1, k - 1);
    var t := WithTrues(n - 1, k);
    forall p: seq<bool>
      ensures p in WithTrues(n, k) <==> p in Snoc(s, true) || p in Snoc(t, false)
    {
      InSnoc(s, true, p);
      InSnoc(t, false, p);
      InSnoc(Patterns(n - 1), true, p);
      InSnoc(Patterns(n - 1), false, p);
    }
  }

  lemma WithTruesOfNone(k: nat)
    ensures |WithTrues(0, k)| == if k == 0 then 1 else 0
  {
    if k == 0 {
      assert WithTrues(0, k) == {[]};
    } else {
      assert WithTrues(0, k) == {};
    }
  }

  lemma WithTruesStep(n: nat, k: nat)
    requires n > 0
    ensures |WithTrues(n, k)| == (if k == 0 then 0 else |WithTrues(n - 1, k - 1)|) + |WithTrues(n - 1, k)|
  {
    WithTruesSplit(n, k);
    SnocsSize(if k == 0 then {} else WithTrues(n - 1, k - 1), WithTrues(n - 1, k));
  }

  lemma CombZero(n: nat)
    ensures Comb(n, 0) == 1
  {
  }

  /** `Comb` counts patterns. */
  lemma {:induction false} WithTruesCount(n: nat, k: nat)
    ensures |WithTrues(n, k)| == Comb(n, k)
  {
    if n == 0 {
      WithTruesOfNone(k);
    } else {
      WithTruesStep(n, k);
      WithTruesCount(n - 1, k);
      if k > 0 {
        WithTruesCount(n - 1, k - 1);
      } else {
        CombZero(n);
        CombZero(n - 1);
      }
    }
  }

  function FewTrues(n: nat, k: nat): set<seq<bool>> {
    set p | p in Patterns(n) && Trues(p) < k
  }

  function ManyTrues(n: nat, k: nat): set<seq<bool>> {
    set p | p in Patterns(n) && Trues(p) > n - k
  }

  /** The patterns in which the k-th smallest and the k-th largest observation have the median
      between them. */
  function Bracketing(n: nat, k: nat): set<seq<bool>> {
    set p | p in Patterns(n) && k <= Trues(p) <= n - k
  }

  lemma FewTruesSplit(n: nat, k: nat)
    requires k > 0
    ensures FewTrues(n, k) == FewTrues(n, k - 1) + WithTrues(n, k - 1)
    ensures FewTrues(n, k - 1) !! WithTrues(n, k - 1)
  {
    hide Patterns;
  }

  lemma NoFewerTrues(n: nat)
    ensures FewTrues(n, 0) == {}
  {
    hide Patterns;
  }

  lemma {:induction false} FewTruesCount(n: nat, k: nat)
    ensures |FewTrues(n, k)| == CombSum(n, k)
  {
    hide FewTrues, WithTrues, Comb;
    if k == 0 {
      NoFewerTrues(n);
    } else {
      FewTruesCount(n, k - 1);
      WithTruesCount(n, k - 1);
      FewTruesSplit(n, k);
      UnionSize(FewTrues(n, k - 1), WithTrues(n, k - 1));
    }
  }

  lemma {:induction false} TruesAtMost(p: seq<bool>)
    ensures Trues(p) <= |p|
  {
    if p != [] {
      TruesAtMost(p[..|p|-1]);
    }
  }

  lemma {:induction false} ManyTruesCount(n: nat, k: nat)
    requires k <= n + 1
    ensures |ManyTrues(n, k)| == CombSum(n, k)
  {
    if k == 0 {
      forall p | p in Patterns(n)
        ensures Trues(p) <= n
      {
        PatternsAreAll(n, p);
        TruesAtMost(p);
      }
      assert ManyTrues(n, 0) == {};
    } else {
      ManyTruesCount(n, k - 1);
      WithTruesCount(n, n - (k - 1));
      CombSymmetric(n, k - 1);
      assert ManyTrues(n, k) == ManyTrues(n, k - 1) + WithTrues(n, n - (k - 1));
      UnionSize(ManyTrues(n, k - 1), WithTrues(n, n - (k - 1)));
    }
  }

  lemma BracketingCount(n: nat, k: nat)
    requires 2 * k <= n + 1
    ensures |Bracketing(n, k)| == Pow2(n) - 2 * CombSum(n, k)
  {
    var few, many, mid := FewTrues(n, k), ManyTrues(n, k), Bracketing(n, k);
    PatternCount(n);
    FewTruesCount(n, k);
    ManyTruesCount(n, k);
    assert Patterns(n) == few + many + mid;
    UnionSize(few, many);
    UnionSize(few + many, mid);
  }

  lemma FractionOf(c: real, w: real)
    requires w > 0.0
    ensures (1.0 - 2.0 * (c / w)) * w == w - 2.0 * c
  {
    var f := c / w;
    assert f * w == c;
    assert (1.0 - 2.0 * f) * w == w - 2.0 * (f * w);
  }

  lemma CoverageTimesAll(n: nat, k: nat)
    ensures Coverage(n, k) * Pow2(n) as real == (Pow2(n) - 2 * CombSum(n, k)) as real
  {
    FractionOf(CombSum(n, k) as real, Pow2(n) as real);
  }

  /** The reported coverage is the fraction of all 2^n patterns that put the median between the
      endpoints. */
  lemma CoverageIsFraction(n: nat, k: nat)
    requires 2 * k <= n + 1
    ensures |Patterns(n)| == Pow2(n)
    ensures Coverage(n, k) * Pow2(n) as real == |Bracketing(n, k)| as real
  {
    PatternCount(n);
    BracketingCount(n, k);
    CoverageTimesAll(n, k);
  }

  // ---- Brackets -------------------------------------------------------------------------------

  /** Which observations lie below `m`. */
  function PatternOf(v: seq<real>, m: real): (p: seq<bool>)
    ensures |p| == |v|
  {
    seq(|v|, i requires 0 <= i < |v| => v[i] < m)
  }

  function Below(v: seq<real>, m: real): nat {
    Trues(PatternOf(v, m))
  }

  lemma BelowSnoc(v: seq<real>, x: real, m: real)
    ensures Below(v + [x], m) == Below(v, m) + if x < m then 1 else 0
  {
    TruesOfSnoc(PatternOf(v, m), x < m);
    assert PatternOf(v + [x], m) == PatternOf(v, m) + [x < m];
  }

  lemma {:induction false} AllBelow(v: seq<real>, m: real)
    requires forall i :: 0 <= i < |v| ==> v[i] < m
    ensures Below(v, m) == |v|
  {
    if v != [] {
      var n := |v| - 1;
      assert v == v[..n] + [v[n]];
      BelowSnoc(v[..n], v[n], m);
      AllBelow(v[..n], m);
    } else {
      assert PatternOf(v, m) == [];
    }
  }

  /** In a sorted sample, exactly the first `Below` observations lie below. */
  lemma {:induction false} BelowIsPrefix(v: seq<real>, m: real, i: nat)
    requires Sorted(v) && i < |v|
    ensures v[i] < m <==> i < Below(v, m)
    decreases |v|
  {
    var n := |v| - 1;
    assert v == v[..n] + [v[n]];
    BelowSnoc(v[..n], v[n], m);
    TruesAtMost(PatternOf(v[..n], m));
    if v[n] < m {
      assert forall j :: 0 <= j <= n ==> v[j] <= v[n];
      AllBelow(v, m);
    } else if i < n {
      BelowIsPrefix(v[..n], m, i);
    }
  }

  lemma RemoveOne(a: seq<real>, x: real, b: seq<real>)
    ensures multiset(a + [x] + b) == multiset(a + b) + multiset{x}
  {
  }

  lemma CancelOne(a: multiset<real>, b: multiset<real>, x: real)
    requires a + multiset{x} == b + multiset{x}
    ensures a == b
  {
    assert a == a + multiset{x} - multiset{x};
    assert b == b + multiset{x} - multiset{x};
  }

  lemma {:induction false} BelowInsert(a: seq<real>, x: real, b: seq<real>, m: real)
    ensures Below(a + [x] + b, m) == Below(a + b, m) + if x < m then 1 else 0
    decreases |b|
  {
    if b == [] {
      assert a + [x] + b == a + [x] && a + b == a;
      BelowSnoc(a, x, m);
    } else {
      var n := |b| - 1;
      assert a + [x] + b == (a + [x] + b[..n]) + [b[n]] && a + b == (a + b[..n]) + [b[n]];
      BelowInsert(a, x, b[..n], m);
      BelowSnoc(a + [x] + b[..n], b[n], m);
      BelowSnoc(a + b[..n], b[n], m);
    }
  }

  /** The order of the observations does not matter. */
  lemma {:induction false} BelowOfPermutation(a: seq<real>, b: seq<real>, m: real)
    requires multiset(a) == multiset(b)
    ensures Below(a, m) == Below(b, m)
    decreases |a|
  {
    if a == [] {
      assert |b| == |multiset(b)| == 0;
    } else {
      var n := |a| - 1;
      var x := a[n];
      assert x in multiset(b);
      var i :| 0 <= i < |b| && b[i] == x;
      var c := b[..i] + b[i + 1..];
      assert a == a[..n] + [x];
      assert b == b[..i] + [x] + b[i + 1..];
      RemoveOne(a[..n], x, []);
      RemoveOne(b[..i], x, b[i + 1..]);
      assert a[..n] + [] == a[..n] && a[..n] + [x] + [] == a;
      CancelOne(multiset(a[..n]), multiset(c), x);
      BelowOfPermutation(a[..n], c, m);
      BelowSnoc(a[..n], x, m);
      BelowInsert(b[..i], x, b[i + 1..], m);
    }
  }

  /** Whatever the sample and the median, if no observation equals the median then the endpoints have
      it between them exactly for the patterns that the coverage counts. */
  lemma EndpointsBracketIff(sample: seq<real>, v: seq<real>, m: real, k: nat)
    requires Sorted(v) && multiset(v) == multiset(sample) && m !in sample
    requires 1 <= k <= |v|
    ensures |v| == |sample|
    ensures v[k - 1] < m < v[|v| - k] <==> PatternOf(sample, m) in Bracketing(|v|, k)
  {
    assert |v| == |multiset(v)| == |multiset(sample)| == |sample|;
    BelowOfPermutation(v, sample, m);
    BelowIsPrefix(v, m, k - 1);
    BelowIsPrefix(v, m, |v| - k);
    PatternsAreAll(|v|, PatternOf(sample, m));
    assert v[|v| - k] in multiset(v);
  }
}
