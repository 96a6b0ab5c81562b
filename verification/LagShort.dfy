/**
 actuator_delay of selfdrive/locationd/lagd.py on signals of five samples or fewer.

 The slice that should reach five lags beyond the lags of interest starts at a negative index
 there, which counts from the end of the correlation. So rivals are looked for among its last
 entries, away from the peak.
 */
module LagShort {
  import opened Arith
  import opened Reals
  import opened FftSize
  import opened Correlation
  import opened Lagd
  import opened LagPeak

  // ---------------------------------------------------------------- runs

  lemma {:induction false} NoStarts(g: seq<bool>, n: nat)
    ensures Starts(g, n) == [] <==> forall i | 0 <= i < n :: !On(g, i)
  {
    if n > 0 {
      NoStarts(g, n - 1);
    }
  }

  lemma RunExists(g: seq<bool>, p: int)
    ensures RunAround(g, p).Run? <==> exists i :: On(g, i)
  {
    NoStarts(g, |g| + 1);
  }

  /** A run with no rival behind it. */
  predicate LastRun(g: seq<bool>, s: int, t: int)
  {
    MaximalRun(g, s, t) && forall i | t < i < |g| :: !g[i]
  }

  /** Asked for an entry beyond the last, the search picks the last run. */
  lemma RunBeyond(g: seq<bool>, p: int)
    requires p >= |g| && RunAround(g, p).Run?
    ensures LastRun(g, RunAround(g, p).first, RunAround(g, p).last)
  {
    hide Starts;
    hide Ends;
    hide Paired;
    hide MaximalRun;
    var n := |g| + 1;
    var ss, es := Starts(g, n), Ends(g, n);
    RunsPaired(g, n);
    PairedRuns(g, n, ss, es);
    CountIs(ss, p, |ss|);
    var last := |ss| - 1;
    forall i | es[last] < i < |g|
      ensures !g[i]
    {
      if On(g, i) {
        var j := RunOf(g, n, ss, es, i);
        if j < last {
          Sorted(g, n, ss, es, j, last);
        }
      }
    }
  }

  lemma PairedRuns(g: seq<bool>, n: nat, ss: seq<int>, es: seq<int>)
    requires n == |g| + 1 && Paired(g, n, ss, es)
    ensures |ss| == |es| && forall j | 0 <= j < |ss| :: MaximalRun(g, ss[j], es[j]) && 0 <= ss[j] <= es[j] < |g|
  {
  }

  // ---------------------------------------------------------------- when there is an estimate

  /** The part of the correlation in which rivals are looked for. */
  function Low(ncc: seq<real>, n: nat): nat
  {
    if |ncc| + n < 1 + BORDER then 0 else |ncc| + n - 1 - BORDER
  }

  function High(ncc: seq<real>, n: nat, lags: nat): nat
    requires n > 0
  {
    if n - 1 + lags + BORDER < |ncc| then n - 1 + lags + BORDER else |ncc|
  }

  predicate Rival(ncc: seq<real>, n: nat, lags: nat, threshold: real, k: int)
    requires n > 0
  {
    Low(ncc, n) <= k < High(ncc, n, lags) && ncc[k] >= threshold
  }

  ghost predicate HasRival(ncc: seq<real>, n: nat, lags: nat, threshold: real)
    requires n > 0
  {
    exists k :: Rival(ncc, n, lags, threshold, k)
  }

  lemma ShortRivals(ncc: seq<real>, n: nat, lags: nat, threshold: real)
    requires 0 < n <= BORDER
    ensures var g := Rivals(Slice(ncc, n - 1 - BORDER, n - 1 + lags + BORDER), threshold);
            && |g| <= BORDER
            && forall k: int :: Rival(ncc, n, lags, threshold, k) <==> On(g, k - Low(ncc, n))
  {
  }

  /** With five samples or fewer there is an estimate if and only if one of the last entries reaches the
      threshold; unless there is one, the code fails. */
  lemma ShortEstimateIff(ncc: seq<real>, n: nat, lags: nat, dt: real)
    requires 0 < n <= BORDER && lags > 0 && |ncc| >= n + lags
    ensures ActuatorDelay(ncc, n, lags, dt).Estimate? <==>
            HasRival(ncc, n, lags, Threshold(ncc[n - 1..n - 1 + lags]))
  {
    hide Interp;
    hide Times;
    hide RunAround;
    hide Rivals;
    hide Rival;
    hide Threshold;
    hide Confidence;
    var roi := ncc[n - 1..n - 1 + lags];
    var threshold := Threshold(roi);
    var g := Rivals(Slice(ncc, n - 1 - BORDER, n - 1 + lags + BORDER), threshold);
    ShortRivals(ncc, n, lags, threshold);
    RunExists(g, ArgMax(roi) + BORDER);
    if i :| On(g, i) {
      assert Rival(ncc, n, lags, threshold, i + Low(ncc, n));
    }
  }

  /** From entry s on, `width` entries reach the threshold: the last such run before High. */
  predicate IsLastRun(ncc: seq<real>, n: nat, lags: nat, threshold: real, s: int, width: int)
    requires n > 0
  {
    && width > 0 && (forall k | s <= k < s + width :: Rival(ncc, n, lags, threshold, k))
    && !Rival(ncc, n, lags, threshold, s - 1)
    && forall k | s + width <= k < High(ncc, n, lags) :: !Rival(ncc, n, lags, threshold, k)
  }

  ghost predicate HasLastRun(ncc: seq<real>, n: nat, lags: nat, threshold: real, width: int)
    requires n > 0
  {
    exists s :: IsLastRun(ncc, n, lags, threshold, s, width)
  }

  /** Its width is that of the last run among those entries, wherever the peak is. */
  lemma ShortWidth(ncc: seq<real>, n: nat, lags: nat, dt: real)
    requires 0 < n <= BORDER && lags > 0 && |ncc| >= n + lags
    ensures var r := ActuatorDelay(ncc, n, lags, dt);
            r.Estimate? ==>
              && r.confidence == Confidence(r.width, dt)
              && HasLastRun(ncc, n, lags, Threshold(ncc[n - 1..n - 1 + lags]), r.width)
  {
    hide Interp;
    hide Times;
    hide RunAround;
    hide Rivals;
    hide Rival;
    hide Threshold;
    hide Confidence;
    hide IsLastRun;
    hide LastRun;
    var roi := ncc[n - 1..n - 1 + lags];
    var threshold := Threshold(roi);
    var g := Rivals(Slice(ncc, n - 1 - BORDER, n - 1 + lags + BORDER), threshold);
    var r := ActuatorDelay(ncc, n, lags, dt);
    ShortRivals(ncc, n, lags, threshold);
    if r.Estimate? {
      var run := RunAround(g, ArgMax(roi) + BORDER);
      RunBeyond(g, ArgMax(roi) + BORDER);
      LastRunOf(ncc, n, lags, threshold, g, run.first, run.last);
      assert r.width == run.last - run.first + 1;
    }
  }

  lemma LastRunOf(ncc: seq<real>, n: nat, lags: nat, threshold: real, g: seq<bool>, s: int, t: int)
    requires n > 0 && LastRun(g, s, t)
    requires forall k: int :: Rival(ncc, n, lags, threshold, k) <==> On(g, k - Low(ncc, n))
    ensures IsLastRun(ncc, n, lags, threshold, s + Low(ncc, n), t - s + 1)
  {
    hide Rival;
    var low := Low(ncc, n);
    assert Rival(ncc, n, lags, threshold, s + low - 1) <==> On(g, s - 1);
  }

  /** What the width of an estimate counts, for any number of samples, and what it does to the
      confidence. */
  lemma WidthIs(ncc: seq<real>, n: nat, lags: nat, dt: real)
    requires n > 0 && lags > 0 && |ncc| >= n + lags
    ensures var r, roi := ActuatorDelay(ncc, n, lags, dt), ncc[n - 1..n - 1 + lags];
            r.Estimate? ==>
              && r.width > 0 && Trusted(Times(r.width as real, dt), r.confidence)
              && NineTenths(roi, Threshold(roi))
              && (if n > BORDER then InStretch(ncc, n, lags, Threshold(roi), r.index, r.width)
                  else HasLastRun(ncc, n, lags, Threshold(roi), r.width))
  {
    hide ActuatorDelay;
    hide Confidence;
    hide Threshold;
    hide Trusted;
    hide Times;
    hide NineTenths;
    ThresholdIsNineTenths(ncc[n - 1..n - 1 + lags]);
    var r := ActuatorDelay(ncc, n, lags, dt);
    if r.Estimate? {
      if n > BORDER {
        WidthIsStretch(ncc, n, lags, dt);
      } else {
        ShortWidth(ncc, n, lags, dt);
      }
      ConfidenceIs(r.width, dt);
    }
  }

  /** Of two estimates with the same time step, the wider is never the more confident. */
  lemma WiderIsLessConfident(ncc: seq<real>, n: nat, lags: nat, ncc': seq<real>, n': nat, lags': nat, dt: real)
    requires n > 0 && lags > 0 && |ncc| >= n + lags && dt >= 0.0
    requires n' > 0 && lags' > 0 && |ncc'| >= n' + lags'
    ensures var r, r' := ActuatorDelay(ncc, n, lags, dt), ActuatorDelay(ncc', n', lags', dt);
            r.Estimate? && r'.Estimate? && r.width <= r'.width ==> r'.confidence <= r.confidence
  {
    hide ActuatorDelay;
    hide Times;
    WidthIs(ncc, n, lags, dt);
    WidthIs(ncc', n', lags', dt);
    var r, r' := ActuatorDelay(ncc, n, lags, dt), ActuatorDelay(ncc', n', lags', dt);
    if r.Estimate? && r'.Estimate? && r.width <= r'.width {
      Scale(r.width as real, r'.width as real, dt);
    }
  }

  // ---------------------------------------------------------------- with the scores of real signals

  lemma {:induction false} NoPairs(w: Window, lag: int, n: nat)
    requires w.Valid() && lag >= |w.mask|
    ensures w.Left(lag, n) == []
  {
    if n > 0 {
      NoPairs(w, lag, n - 1);
    }
  }

  /** A lag as long as the signals scores 0. */
  lemma NoOverlap(c: Correlator, k: nat)
    requires c.Valid() && k < c.p && k >= 2 * |c.w.mask| - 1
    ensures c.Ncc(k) == 0.0
  {
    NoPairs(c.w, k - (|c.w.mask| - 1), |c.w.mask|);
    NoScore(c, k);
  }

  /** Without jointly valid pairs the score is 0. */
  lemma NoScore(c: Correlator, k: nat)
    requires c.Valid() && Clear(c, k) && Xs(c, k) == []
    ensures c.Ncc(k) == 0.0
  {
    hide Correlator.Ncc;
    hide Correlator.Tolerance;
    hide Covariance;
    hide Sqrt;
    hide Xs;
    hide Ys;
    NccIsPearson(c, k);
    ToleranceSign(c);
    NoCovariance();
    assert Ys(c, k) == [];
    SqrtIs(0.0, 0.0);
    assert Times(0.0, 0.0) == 0.0;
  }

  function Min(a: int, b: int): int { if a < b then a else b }

  /** With five samples or fewer and at least five lags, all entries that count as rivals belong to lags
      longer than the signals, and score 0. There is an estimate if and only if the padding is below
      lags + 10 and the threshold is not above 0; its width then is the number of those entries. */
  lemma ShortSignals(c: Correlator, lags: nat, dt: real)
    requires c.Valid() && 0 < |c.w.mask| <= BORDER <= lags && c.p >= |c.w.mask| + lags
    ensures var n := |c.w.mask|; var r := ActuatorDelay(Scores(c), n, lags, dt);
            && (r.Estimate? <==>
                  c.p < lags + 2 * BORDER && Threshold(Scores(c)[n - 1..n - 1 + lags]) <= 0.0)
            && (r.Estimate? ==> r.width == Min(lags + 2 * BORDER - c.p, BORDER + 1 - n))
  {
    hide ActuatorDelay;
    hide Correlator.Ncc;
    hide Threshold;
    hide HasRival;
    hide HasLastRun;
    hide Confidence;
    var n := |c.w.mask|;
    var ncc := Scores(c);
    var threshold := Threshold(ncc[n - 1..n - 1 + lags]);
    ShortEstimateIff(ncc, n, lags, dt);
    ShortWidth(ncc, n, lags, dt);
    forall k | Low(ncc, n) <= k < High(ncc, n, lags)
      ensures ncc[k] == 0.0
    {
      NoOverlap(c, k);
    }
    AllZeroRivals(ncc, n, lags, threshold);
    var r := ActuatorDelay(ncc, n, lags, dt);
    if r.Estimate? {
      AllZeroWidth(ncc, n, lags, threshold, r.width);
    }
  }

  lemma AllZeroRivals(ncc: seq<real>, n: nat, lags: nat, threshold: real)
    requires n > 0 && forall k | Low(ncc, n) <= k < High(ncc, n, lags) :: ncc[k] == 0.0
    ensures HasRival(ncc, n, lags, threshold) <==> Low(ncc, n) < High(ncc, n, lags) && threshold <= 0.0
  {
    if Low(ncc, n) < High(ncc, n, lags) && threshold <= 0.0 {
      assert Rival(ncc, n, lags, threshold, Low(ncc, n));
    }
  }

  lemma AllZeroWidth(ncc: seq<real>, n: nat, lags: nat, threshold: real, width: int)
    requires n > 0 && forall k | Low(ncc, n) <= k < High(ncc, n, lags) :: ncc[k] == 0.0
    requires HasLastRun(ncc, n, lags, threshold, width)
    ensures width == High(ncc, n, lags) - Low(ncc, n)
  {
    var s :| IsLastRun(ncc, n, lags, threshold, s, width);
    assert Rival(ncc, n, lags, threshold, s);
    assert Rival(ncc, n, lags, threshold, s + width - 1);
    if s > Low(ncc, n) {
      assert Rival(ncc, n, lags, threshold, s - 1);
    }
    if s + width < High(ncc, n, lags) {
      assert Rival(ncc, n, lags, threshold, s + width);
    }
  }

  lemma ThresholdIs(roi: seq<real>)
    requires roi != []
    ensures Threshold(roi) == 0.9 * roi[ArgMax(roi)] + 0.1 * MinOf(roi)
  {
  }

  /** So a delayed copy of five samples or fewer is never found: where its score is 1, the code fails. */
  lemma ShortDelayIsLost(c: Correlator, lags: nat, dt: real, d: nat, alpha: real, beta: real)
    requires c.Valid() && 0 < |c.w.mask| <= BORDER <= lags && c.p >= |c.w.mask| + lags && d < lags && alpha > 0.0
    requires forall m | c.w.Joint(d, m) :: c.w.actual[m + d] == alpha * c.w.expected[m] + beta
    requires c.Denom(|c.w.mask| - 1 + d) > c.Tolerance()
    ensures ActuatorDelay(Scores(c), |c.w.mask|, lags, dt) == Nothing
  {
    hide ActuatorDelay;
    hide Correlator.Ncc;
    hide Correlator.Denom;
    hide Correlator.Tolerance;
    hide Threshold;
    var n := |c.w.mask|;
    var roi := Scores(c)[n - 1..n - 1 + lags];
    DelayScoresOne(c, d, alpha, beta);
    assert roi[d] == 1.0;
    forall x | x in roi
      ensures x >= -1.0
    {
      var i :| 0 <= i < |roi| && roi[i] == x;
      NccAtMostOne(c, n - 1 + i);
    }
    ThresholdIs(roi);
    ShortSignals(c, lags, dt);
  }

  // ---------------------------------------------------------------- five samples and twenty lags

  /** The padded size for five samples and the twenty lags of one second in steps of 0.05. */
  method FivePadded() returns (p: nat)
    ensures p == 25
  {
    ProductIsSmooth(0, 0, 2, 0, 0);
    assert Pow(5, 2) == 5 * Pow(5, 1) == 25;
    assert Pow(5, 1) == 5 * Pow(5, 0);
    assert Product(0, 0, 2, 0, 0) == 25;
    p := PaddedSize(5, 20);
  }

  /** With nothing valid there is an estimate, of width 1, although all 25 lags rival the peak. */
  lemma FiveMasked(c: Correlator, dt: real)
    requires c.Valid() && |c.w.mask| == 5 && c.p == 25 && forall i | 0 <= i < 5 :: !c.w.mask[i]
    ensures var r := ActuatorDelay(Scores(c), 5, 20, dt); r.Estimate? && r.width == 1
    ensures LongestStretch(Scores(c), 5, 20, Threshold(Scores(c)[4..24]), -4, 20)
  {
    hide ActuatorDelay;
    hide Correlator.Ncc;
    forall k: nat | k < 25
      ensures c.Ncc(k) == 0.0
    {
      NothingJoint(c.w, k - 4, 5);
      NoScore(c, k);
    }
    var roi := Scores(c)[4..24];
    assert forall x | x in roi :: x == 0.0;
    ThresholdIs(roi);
    ShortSignals(c, 20, dt);
  }

  lemma {:induction false} NothingJoint(w: Window, lag: int, n: nat)
    requires w.Valid() && forall i | 0 <= i < |w.mask| :: !w.mask[i]
    ensures w.Left(lag, n) == []
  {
    if n > 0 {
      NothingJoint(w, lag, n - 1);
    }
  }

  /** A step in the last sample, followed without delay. */
  const STEP: Correlator :=
    Correlator(Window([0.0, 0.0, 0.0, 0.0, 1.0], [0.0, 0.0, 0.0, 0.0, 1.0], [true, true, true, true, true]), 25,
               1.0 / 4503599627370496.0)

  // Signals between -1 and 1 have no denominator above their length.

  predicate Unit(xs: seq<real>) { forall i | 0 <= i < |xs| :: -1.0 <= xs[i] <= 1.0 }

  lemma {:induction false} UnitDot(xs: seq<real>)
    requires Unit(xs)
    ensures Dot(xs, xs) <= |xs| as real
  {
    if xs != [] {
      var n := |xs| - 1;
      UnitDot(xs[..n]);
      UnitSquare(xs[n]);
    }
  }

  lemma UnitSquare(x: real)
    requires -1.0 <= x <= 1.0
    ensures x * x <= 1.0
  {
    NonNegative(1.0 - x, 1.0 + x);
    assert (1.0 - x) * (1.0 + x) == 1.0 - x * x;
  }

  lemma UnitVariance(xs: seq<real>)
    requires Unit(xs)
    ensures 0.0 <= Covariance(xs, xs) <= |xs| as real
  {
    hide Dot;
    hide Total;
    hide Covariance;
    VarianceSign(xs);
    if xs == [] {
      NoCovariance();
    } else {
      UnitDot(xs);
      CovarianceIs(xs, xs);
      SquareOver(Total(xs), |xs| as real);
    }
  }

  lemma SquareOver(t: real, n: real)
    requires n > 0.0
    ensures t * t / n >= 0.0
  {
    assert t * t >= 0.0;
    var q := t * t / n;
    assert n * q == t * t;
    Factor(n, q);
  }

  lemma SqrtAtMost(x: real, b: real)
    requires b >= 0.0 && x <= b * b
    ensures Sqrt(x) <= b
  {
    hide Sqrt;
    SqrtRoots(x);
    if Sqrt(x) > b {
      LessSquare(b, Sqrt(x));
    }
  }

  lemma {:induction false} UnitPairs(w: Window, lag: int, n: nat)
    requires w.Valid() && Unit(w.expected) && Unit(w.actual)
    ensures Unit(w.Left(lag, n)) && Unit(w.Right(lag, n)) && |w.Left(lag, n)| <= n
  {
    if n > 0 {
      UnitPairs(w, lag, n - 1);
    }
  }

  lemma UnitSpread(xs: seq<real>, ys: seq<real>, b: real)
    requires |xs| == |ys| && |xs| as real <= b && Unit(xs) && Unit(ys)
    ensures Spread(xs, ys) <= b
  {
    hide Covariance;
    hide Sqrt;
    UnitVariance(xs);
    UnitVariance(ys);
    ProductAtMost(Covariance(ys, ys), Covariance(xs, xs), b);
    SqrtAtMost(Times(Covariance(ys, ys), Covariance(xs, xs)), b);
  }

  lemma ProductAtMost(x: real, y: real, b: real)
    requires 0.0 <= x <= b && 0.0 <= y <= b
    ensures Times(x, y) <= b * b
  {
    NonNegative(b - x, y);
    NonNegative(b, b - y);
    assert b * b - x * y == b * (b - y) + (b - x) * y;
  }

  lemma {:induction false} UnitLargest(c: Correlator, n: nat)
    requires c.Valid() && n <= c.p && c.p >= 2 * |c.w.mask| - 1 && Unit(c.w.expected) && Unit(c.w.actual)
    ensures c.Largest(n) <= |c.w.mask| as real
  {
    hide Correlator.Denom;
    hide Spread;
    if n > 0 {
      UnitLargest(c, n - 1);
      UnitPairs(c.w, n - 1 - (|c.w.mask| - 1), |c.w.mask|);
      DenomIs(c, n - 1);
      SpreadSign(Xs(c, n - 1), Ys(c, n - 1));
      UnitSpread(Xs(c, n - 1), Ys(c, n - 1), |c.w.mask| as real);
    }
  }

  lemma SpreadSign(xs: seq<real>, ys: seq<real>)
    requires |xs| == |ys|
    ensures Spread(xs, ys) >= 0.0
  {
    hide Sqrt;
    hide Covariance;
    SqrtRoots(Times(Covariance(ys, ys), Covariance(xs, xs)));
  }

  /** At lag 0, with all samples valid, the pairs are the signals. */
  lemma {:induction false} WholeSignals(w: Window, n: nat)
    requires w.Valid() && n <= |w.mask| && forall i | 0 <= i < |w.mask| :: w.mask[i]
    ensures w.Left(0, n) == w.expected[..n] && w.Right(0, n) == w.actual[..n]
  {
    if n > 0 {
      WholeSignals(w, n - 1);
    }
  }

  lemma StepVariance()
    ensures Covariance(STEP.w.expected, STEP.w.expected) == 0.8
  {
    hide Covariance;
    var xs := STEP.w.expected;
    var zeros := [0.0, 0.0, 0.0, 0.0];
    assert xs == zeros + [1.0];
    DotPush(zeros, zeros, 1.0, 1.0);
    TotalPush(zeros, 1.0);
    ZeroTotals(zeros);
    CovarianceIs(xs, xs);
  }

  lemma {:induction false} ZeroTotals(xs: seq<real>)
    requires forall i | 0 <= i < |xs| :: xs[i] == 0.0
    ensures Total(xs) == 0.0 && Dot(xs, xs) == 0.0
  {
    if xs != [] {
      ZeroTotals(xs[..|xs| - 1]);
    }
  }

  /** With this step, all samples valid, the score at lag 0 is 1, and the code fails. */
  lemma FiveSteps(dt: real)
    ensures STEP.Valid() && STEP.Ncc(4) == 1.0 && ActuatorDelay(Scores(STEP), 5, 20, dt) == Nothing
  {
    hide ActuatorDelay;
    hide Correlator.Ncc;
    hide Correlator.Denom;
    hide Correlator.Largest;
    hide Covariance;
    hide Spread;
    hide Window.Left;
    hide Window.Right;
    var xs := STEP.w.expected;
    WholeSignals(STEP.w, 5);
    assert Xs(STEP, 4) == xs && Ys(STEP, 4) == xs;
    StepVariance();
    AffineIsPerfect(xs, xs, 1.0, 0.0);
    DenomIs(STEP, 4);
    UnitLargest(STEP, 25);
    DelayScoresOne(STEP, 0, 1.0, 0.0);
    ShortDelayIsLost(STEP, 20, dt, 0, 1.0, 0.0);
  }
}
