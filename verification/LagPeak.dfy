/**
 How actuator_delay of selfdrive/locationd/lagd.py reads the correlation: the peak over the lags
 of interest, its parabolic refinement, and the width of the run of rival lags around it.
 */
module LagPeak {
  import opened Reals
  import opened Correlation
  import opened Lagd
  import opened FftSize

  // ---------------------------------------------------------------- the peak

  /** The index of the first maximum. */
  function ArgMax(s: seq<real>): (i: nat)
    requires s != []
    ensures i < |s| && forall j | 0 <= j < |s| :: s[j] <= s[i] && (j < i ==> s[j] < s[i])
  {
    var n := |s| - 1;
    if n == 0 then 0
    else
      var i := ArgMax(s[..n]);
      assert forall j | 0 <= j < n :: s[j] == s[..n][j];
      if s[n] > s[i] then n else i
  }

  function MinOf(s: seq<real>): (r: real)
    requires s != []
    ensures r in s && forall x | x in s :: r <= x
  {
    var n := |s| - 1;
    if n == 0 then s[0]
    else
      assert forall x | x in s :: x in s[..n] || x == s[n];
      var r := MinOf(s[..n]);
      if s[n] < r then s[n] else r
  }

  /** parabolic_peak_interp. */
  function Interp(s: seq<real>, i: nat): real
    requires i < |s|
  {
    if i == 0 || i == |s| - 1 then i as real
    else i as real + Div(0.5 * (s[i + 1] - s[i - 1]), 2.0 * s[i] - s[i + 1] - s[i - 1])
  }

  function Parabola(a: real, b: real, c: real, t: real): real { a * (t * t) + b * t + c }

  /** t is where the parabola through (-1, low), (0, mid) and (1, high) has its top, and it is within
      half a sample of 0. */
  ghost predicate TopOf(low: real, mid: real, high: real, t: real)
  {
    var a, b := 0.5 * (high + low) - mid, 0.5 * (high - low);
    && a < 0.0 && -0.5 < t <= 0.5
    && Parabola(a, b, mid, -1.0) == low && Parabola(a, b, mid, 0.0) == mid && Parabola(a, b, mid, 1.0) == high
    && forall u: real :: Parabola(a, b, mid, u) <= Parabola(a, b, mid, t)
  }

  /** Where the top is at sample i: that of the parabola through it and its neighbours, or the sample
      itself at either end. */
  ghost predicate TopAt(s: seq<real>, i: nat, t: real)
  {
    i < |s| && if 0 < i < |s| - 1 then TopOf(s[i - 1], s[i], s[i + 1], t - i as real) else t == i as real
  }

  lemma TopFound(low: real, mid: real, high: real)
    requires low < mid && high <= mid
    ensures TopOf(low, mid, high, Div(0.5 * (high - low), 2.0 * mid - high - low))
  {
    hide Div;
    hide Parabola;
    var a, b := 0.5 * (high + low) - mid, 0.5 * (high - low);
    assert -2.0 * a == 2.0 * mid - high - low;
    Vertex(a, b, mid);
    HalfSample(mid - low, mid - high);
    Through(low, mid, high);
  }

  lemma Through(low: real, mid: real, high: real)
    ensures var a, b := 0.5 * (high + low) - mid, 0.5 * (high - low);
            Parabola(a, b, mid, -1.0) == low && Parabola(a, b, mid, 0.0) == mid && Parabola(a, b, mid, 1.0) == high
  {
  }

  /** At the first maximum the divisor is positive, the refinement stays within half a sample, and
      it is the top of the parabola through the three samples; at either end there is none. */
  lemma InterpIsVertex(s: seq<real>, i: nat)
    requires s != [] && i == ArgMax(s)
    ensures i as real - 0.5 < Interp(s, i) <= i as real + 0.5
    ensures TopAt(s, i, Interp(s, i))
  {
    hide Div;
    hide Parabola;
    if 0 < i < |s| - 1 {
      TopFound(s[i - 1], s[i], s[i + 1]);
    }
  }

  lemma HalfSample(u: real, v: real)
    requires u > 0.0 && v >= 0.0
    ensures -0.5 < Div(0.5 * (u - v), u + v) <= 0.5
  {
    var q := 0.5 * (u - v) / (u + v);
    assert q * (u + v) == 0.5 * (u - v);
    assert (u + v) * (q + 0.5) == u;
    assert (u + v) * (0.5 - q) == v;
    Factor(u + v, q + 0.5);
    Factor(u + v, 0.5 - q);
  }

  lemma Vertex(a: real, b: real, c: real)
    requires a < 0.0
    ensures forall t: real :: Parabola(a, b, c, t) <= Parabola(a, b, c, Div(b, -2.0 * a))
  {
    var v := b / (-2.0 * a);
    assert b == v * (-2.0 * a);
    forall t: real
      ensures Parabola(a, b, c, t) <= Parabola(a, b, c, v)
    {
      BelowVertex(a, b, c, v, t);
    }
  }

  lemma BelowVertex(a: real, b: real, c: real, v: real, t: real)
    requires a < 0.0 && b == v * (-2.0 * a)
    ensures Parabola(a, b, c, t) <= Parabola(a, b, c, v)
  {
    var d := t - v;
    assert d * d >= 0.0;
    VertexTerms(a, b, c, v, t);
    NonNegative(-a, d * d);
  }

  lemma VertexTerms(a: real, b: real, c: real, v: real, t: real)
    requires b == v * (-2.0 * a)
    ensures Parabola(a, b, c, v) - Parabola(a, b, c, t) == -a * ((t - v) * (t - v))
  {
  }

  // ---------------------------------------------------------------- the run of rivals

  predicate On(g: seq<bool>, i: int) { 0 <= i < |g| && g[i] }

  /** Where the padded differences among the first n are 1. */
  function Starts(g: seq<bool>, n: nat): seq<int>
  {
    if n == 0 then [] else Starts(g, n - 1) + if On(g, n - 1) && !On(g, n - 2) then [n - 1] else []
  }

  /** One before where they are -1. */
  function Ends(g: seq<bool>, n: nat): seq<int>
  {
    if n == 0 then [] else Ends(g, n - 1) + if !On(g, n - 1) && On(g, n - 2) then [n - 2] else []
  }

  /** The number of entries up to v: where the code's right-hand search in a sorted array lands. */
  function CountUpTo(s: seq<int>, v: int): (k: nat)
    ensures k <= |s|
  {
    if s == [] then 0 else CountUpTo(s[..|s| - 1], v) + if s[|s| - 1] <= v then 1 else 0
  }

  /** A longest stretch of rivals. */
  predicate MaximalRun(g: seq<bool>, s: int, t: int)
  {
    0 <= s <= t < |g| && (forall i | s <= i <= t :: g[i]) && !On(g, s - 1) && !On(g, t + 1)
  }

  /** What holds after the first n differences: closed runs are maximal and in order, at most one is
      open, and every rival so far lies in a run. */
  predicate Paired(g: seq<bool>, n: nat, ss: seq<int>, es: seq<int>)
  {
    && |ss| == |es| + (if On(g, n - 1) then 1 else 0)
    && (forall j | 0 <= j < |es| :: MaximalRun(g, ss[j], es[j]) && es[j] < n - 1)
    && (forall j | 0 <= j < |ss| - 1 :: es[j] < ss[j + 1])
    && (On(g, n - 1) ==> OpenRun(g, ss[|es|], n))
    && (forall i | 0 <= i < n && On(g, i) :: InSome(ss, es, i))
  }

  predicate OpenRun(g: seq<bool>, s: int, n: nat)
  {
    0 <= s < n <= |g| && (forall i | s <= i < n :: g[i]) && !On(g, s - 1)
  }

  predicate InSome(ss: seq<int>, es: seq<int>, i: int)
  {
    exists j :: 0 <= j < |ss| && InRun(ss, es, j, i)
  }

  predicate InRun(ss: seq<int>, es: seq<int>, j: int, i: int)
    requires 0 <= j < |ss|
  {
    ss[j] <= i && (j < |es| ==> i <= es[j])
  }

  lemma Extends(g: seq<bool>, n: nat, ss: seq<int>, es: seq<int>)
    requires Paired(g, n, ss, es) && On(g, n - 1) && On(g, n)
    ensures Paired(g, n + 1, ss, es)
  {
    forall i | 0 <= i < n + 1 && On(g, i)
      ensures InSome(ss, es, i)
    {
      if i == n {
        assert InRun(ss, es, |es|, i);
      }
    }
  }

  lemma Closes(g: seq<bool>, n: nat, ss: seq<int>, es: seq<int>)
    requires Paired(g, n, ss, es) && On(g, n - 1) && !On(g, n)
    ensures Paired(g, n + 1, ss, es + [n - 1])
  {
    forall i | 0 <= i < n + 1 && On(g, i)
      ensures InSome(ss, es + [n - 1], i)
    {
      var j :| 0 <= j < |ss| && InRun(ss, es, j, i);
      assert InRun(ss, es + [n - 1], j, i);
    }
    assert MaximalRun(g, ss[|es|], n - 1);
  }

  lemma Opens(g: seq<bool>, n: nat, ss: seq<int>, es: seq<int>)
    requires Paired(g, n, ss, es) && !On(g, n - 1) && On(g, n)
    ensures Paired(g, n + 1, ss + [n], es)
  {
    forall i | 0 <= i < n + 1 && On(g, i)
      ensures InSome(ss + [n], es, i)
    {
      if i == n {
        assert InRun(ss + [n], es, |ss|, i);
      } else {
        var j :| 0 <= j < |ss| && InRun(ss, es, j, i);
        assert InRun(ss + [n], es, j, i);
      }
    }
  }

  lemma {:induction false} RunsPaired(g: seq<bool>, n: nat)
    requires n <= |g| + 1
    ensures Paired(g, n, Starts(g, n), Ends(g, n))
  {
    hide Paired;
    hide On;
    if n == 0 {
      NoneYet(g);
    } else {
      var m := n - 1;
      RunsPaired(g, m);
      var ss, es := Starts(g, m), Ends(g, m);
      assert ss + [] == ss && es + [] == es;
      if On(g, m - 1) && On(g, m) {
        Extends(g, m, ss, es);
      } else if On(g, m - 1) {
        Closes(g, m, ss, es);
      } else if On(g, m) {
        Opens(g, m, ss, es);
      } else {
        Skips(g, m, ss, es);
      }
    }
  }

  lemma NoneYet(g: seq<bool>)
    ensures Paired(g, 0, [], [])
  {
  }

  lemma Skips(g: seq<bool>, n: nat, ss: seq<int>, es: seq<int>)
    requires Paired(g, n, ss, es) && !On(g, n - 1) && !On(g, n)
    ensures Paired(g, n + 1, ss, es)
  {
  }

  lemma {:induction false} Sorted(g: seq<bool>, n: nat, ss: seq<int>, es: seq<int>, i: nat, j: nat)
    requires Paired(g, n, ss, es) && |ss| == |es| && i < j < |ss|
    ensures ss[i] <= es[i] < ss[j] <= es[j]
    decreases j
  {
    assert MaximalRun(g, ss[i], es[i]) && MaximalRun(g, ss[j], es[j]);
    assert MaximalRun(g, ss[j - 1], es[j - 1]) && es[j - 1] < ss[j - 1 + 1];
    if i < j - 1 {
      Sorted(g, n, ss, es, i, j - 1);
    }
  }

  lemma {:induction false} CountIs(s: seq<int>, v: int, k: nat)
    requires k <= |s| && (forall i | 0 <= i < k :: s[i] <= v) && (forall i | k <= i < |s| :: s[i] > v)
    ensures CountUpTo(s, v) == k
  {
    if s != [] {
      var n := |s| - 1;
      CountIs(s[..n], v, if k == |s| then n else k);
    }
  }

  datatype Run = NoRun | Run(first: int, last: int)

  /** The run that the code picks for entry p, if there is any. */
  function RunAround(g: seq<bool>, p: int): Run
  {
    RunsPaired(g, |g| + 1);
    var ss, es := Starts(g, |g| + 1), Ends(g, |g| + 1);
    var k := CountUpTo(ss, p);
    if ss == [] then NoRun
    else if k == 0 then Run(ss[|ss| - 1], es[|es| - 1]) // one before the first index is the last
    else Run(ss[k - 1], es[k - 1])
  }

  /** The run that the search in the starts selects is the longest stretch of rivals around p. */
  lemma RunFound(g: seq<bool>, p: nat)
    requires On(g, p)
    ensures var run := RunAround(g, p); run.Run? && MaximalRun(g, run.first, run.last) && run.first <= p <= run.last
  {
    hide Starts;
    hide Ends;
    hide Paired;
    hide MaximalRun;
    var n := |g| + 1;
    var ss, es := Starts(g, n), Ends(g, n);
    RunsPaired(g, n);
    var j := RunOf(g, n, ss, es, p);
    forall i: nat | i < j ensures ss[i] <= p { Sorted(g, n, ss, es, i, j); }
    forall i: nat | j < i < |ss| ensures ss[i] > p { Sorted(g, n, ss, es, j, i); }
    CountIs(ss, p, j + 1);
  }

  lemma RunOf(g: seq<bool>, n: nat, ss: seq<int>, es: seq<int>, p: nat) returns (j: nat)
    requires n == |g| + 1 && Paired(g, n, ss, es) && On(g, p)
    ensures j < |ss| == |es| && MaximalRun(g, ss[j], es[j]) && ss[j] <= p <= es[j]
  {
    assert InSome(ss, es, p);
    j :| 0 <= j < |ss| && InRun(ss, es, j, p);
  }

  // ---------------------------------------------------------------- actuator_delay

  /** A slice with the bounds that the language allows: a negative one counts from the end, and
      both are cut to the sequence. */
  function Slice(s: seq<real>, start: int, stop: int): (r: seq<real>)
    ensures 0 <= start <= stop <= |s| ==> r == s[start..stop]
  {
    var lo, hi := Bound(start, |s|), Bound(stop, |s|);
    if lo <= hi then s[lo..hi] else []
  }

  function Bound(i: int, n: nat): (b: nat)
    ensures b <= n && (i > n ==> b == n) && (0 <= i <= n ==> b == i)
  {
    if i < 0 then (if i + n < 0 then 0 else i + n) else if i > n then n else i
  }

  const BORDER: int := 5

  /** 0.9 of the way from the lowest to the highest score of interest. */
  function Threshold(roi: seq<real>): real
    requires roi != []
  {
    (roi[ArgMax(roi)] - MinOf(roi)) * 0.9 + MinOf(roi)
  }

  function Rivals(ext: seq<real>, threshold: real): (g: seq<bool>)
    ensures |g| == |ext|
  {
    seq(|ext|, i requires 0 <= i < |ext| => ext[i] >= threshold)
  }

  function Confidence(width: int, dt: real): real { Clip(1.0 - width as real * dt, 0.0, 1.0) }

  /** The confidence falls in proportion to the width in seconds, and ends at 0. */
  ghost predicate Trusted(seconds: real, confidence: real)
  {
    && 0.0 <= confidence <= 1.0
    && (seconds <= 0.0 ==> confidence == 1.0)
    && (0.0 <= seconds <= 1.0 ==> confidence + seconds == 1.0)
    && (seconds >= 1.0 ==> confidence == 0.0)
  }

  lemma ConfidenceIs(width: int, dt: real)
    ensures Trusted(Times(width as real, dt), Confidence(width, dt))
  {
  }

  datatype Estimate =
    | Nothing
    | Estimate(index: nat, lag: real, corr: real, width: int, confidence: real)

  /** The estimate from the correlation of signals of n samples, for lags below `lags`. Without a lag
      or a rival to look at, the code fails. */
  function ActuatorDelay(ncc: seq<real>, n: nat, lags: nat, dt: real): Estimate
  {
    var start, stop := n - 1, n - 1 + lags;
    var roi := Slice(ncc, start, stop);
    if roi == [] then Nothing
    else
      var i := ArgMax(roi);
      match RunAround(Rivals(Slice(ncc, start - BORDER, stop + BORDER), Threshold(roi)), i + BORDER)
      case NoRun => Nothing
      case Run(first, last) =>
        var width := last - first + 1;
        Estimate(i, Times(Interp(roi, i), dt), roi[i], width, Confidence(width, dt))
  }

  /** The score at lag l, which may be negative, where the correlation has one. */
  predicate HasScore(ncc: seq<real>, n: nat, l: int) { 0 <= n - 1 + l < |ncc| }

  function Score(ncc: seq<real>, n: nat, l: int): real
    requires HasScore(ncc, n, l)
  {
    ncc[n - 1 + l]
  }

  /** Lag l, or one of the border on either side, rivals the peak. */
  predicate RivalLag(ncc: seq<real>, n: nat, lags: nat, threshold: real, l: int)
  {
    0 <= l + BORDER < lags + 2 * BORDER && HasScore(ncc, n, l) && Score(ncc, n, l) >= threshold
  }

  /** From lag s to lag t all are rivals, and neither neighbour is. */
  predicate LongestStretch(ncc: seq<real>, n: nat, lags: nat, threshold: real, s: int, t: int)
  {
    && s <= t && (forall l | s <= l <= t :: RivalLag(ncc, n, lags, threshold, l))
    && !RivalLag(ncc, n, lags, threshold, s - 1) && !RivalLag(ncc, n, lags, threshold, t + 1)
  }

  /** t is nine tenths of the way from the least to the greatest entry. */
  ghost predicate NineTenths(s: seq<real>, t: real)
  {
    exists lo, hi :: Spans(s, lo, hi) && t == lo + 0.9 * (hi - lo)
  }

  predicate Spans(s: seq<real>, lo: real, hi: real)
  {
    lo in s && hi in s && forall x | x in s :: lo <= x <= hi
  }

  lemma ThresholdIsNineTenths(roi: seq<real>)
    requires roi != []
    ensures NineTenths(roi, Threshold(roi))
  {
    assert Spans(roi, MinOf(roi), roi[ArgMax(roi)]);
  }

  lemma ThresholdBelowPeak(roi: seq<real>)
    requires roi != []
    ensures MinOf(roi) <= Threshold(roi) <= roi[ArgMax(roi)]
  {
    var high, low := roi[ArgMax(roi)], MinOf(roi);
    assert low <= high;
    assert (high - low) * 0.9 <= high - low;
  }

  /** Whenever there is an estimate, it is the first best lag, refined by at most half a sample; and
      with at least six samples and room for the lags there is one. */
  lemma PeakIsBest(ncc: seq<real>, n: nat, lags: nat, dt: real)
    requires n > 0 && lags > 0 && |ncc| >= n + lags && dt >= 0.0
    ensures var r := ActuatorDelay(ncc, n, lags, dt);
            && (n > BORDER ==> r.Estimate?)
            && (r.Estimate? ==>
                  && r.index < lags && r.corr == Score(ncc, n, r.index)
                  && (forall l | 0 <= l < lags ::
                        Score(ncc, n, l) <= r.corr && (l < r.index ==> Score(ncc, n, l) < r.corr))
                  && Times(r.index as real - 0.5, dt) <= r.lag <= Times(r.index as real + 0.5, dt)
                  && exists t: real :: TopAt(ncc[n - 1..n - 1 + lags], r.index, t) && r.lag == Times(t, dt))
  {
    hide Interp;
    hide TopAt;
    hide Times;
    hide ActuatorDelay;
    hide ArgMax;
    hide Rivals;
    hide RunAround;
    hide Slice;
    var roi := ncc[n - 1..n - 1 + lags];
    PeakFields(ncc, n, lags, dt);
    if n > BORDER {
      EstimateFields(ncc, n, lags, dt);
    }
    Refined(roi, dt);
    assert TopAt(roi, ArgMax(roi), Interp(roi, ArgMax(roi)));
    forall l | 0 <= l < lags ensures Score(ncc, n, l) == roi[l] {}
  }

  lemma PeakFields(ncc: seq<real>, n: nat, lags: nat, dt: real)
    requires n > 0 && lags > 0 && |ncc| >= n + lags
    ensures var r, roi := ActuatorDelay(ncc, n, lags, dt), ncc[n - 1..n - 1 + lags];
            r.Estimate? ==>
              r.index == ArgMax(roi) && r.corr == roi[r.index] && r.lag == Times(Interp(roi, r.index), dt)
  {
    hide Interp;
    hide Times;
    hide RunAround;
    hide Rivals;
    hide Threshold;
    hide Confidence;
  }

  lemma Refined(roi: seq<real>, dt: real)
    requires roi != [] && dt >= 0.0
    ensures var i := ArgMax(roi);
            && Times(i as real - 0.5, dt) <= Times(Interp(roi, i), dt) <= Times(i as real + 0.5, dt)
            && TopAt(roi, i, Interp(roi, i))
  {
    hide TopAt;
    hide Interp;
    hide Times;
    var i := ArgMax(roi);
    InterpIsVertex(roi, i);
    Scale(i as real - 0.5, Interp(roi, i), dt);
    Scale(Interp(roi, i), i as real + 0.5, dt);
  }

  /** The fields of the estimate. */
  lemma EstimateFields(ncc: seq<real>, n: nat, lags: nat, dt: real)
    requires n > BORDER && lags > 0 && |ncc| >= n + lags
    ensures var r, roi := ActuatorDelay(ncc, n, lags, dt), ncc[n - 1..n - 1 + lags];
            var run := RunAround(Rivals(Slice(ncc, n - 1 - BORDER, n - 1 + lags + BORDER), Threshold(roi)),
                ArgMax(roi) + BORDER);
            && r.Estimate? && run.Run? && r.index == ArgMax(roi) && r.corr == roi[r.index]
            && r.lag == Times(Interp(roi, r.index), dt)
            && r.width == run.last - run.first + 1 && r.confidence == Confidence(r.width, dt)
  {
    hide Interp;
    hide Times;
    hide RunAround;
    hide Rivals;
    hide Threshold;
    hide Confidence;
    hide Slice;
    hide LongestStretch;
    PeakRuns(ncc, n, lags);
  }

  lemma Scale(x: real, y: real, d: real)
    requires x <= y && d >= 0.0
    ensures Times(x, d) <= Times(y, d)
  {
    NonNegative(y - x, d);
  }

  /** The peak is among the rivals, and its run among them is the longest stretch of rival lags
      around it. */
  lemma PeakRuns(ncc: seq<real>, n: nat, lags: nat)
    requires n > BORDER && lags > 0 && |ncc| >= n + lags
    ensures var roi := ncc[n - 1..n - 1 + lags];
            var g := Rivals(Slice(ncc, n - 1 - BORDER, n - 1 + lags + BORDER), Threshold(roi));
            var run := RunAround(g, ArgMax(roi) + BORDER);
            && run.Run? && run.first - BORDER <= ArgMax(roi) <= run.last - BORDER
            && LongestStretch(ncc, n, lags, Threshold(roi), run.first - BORDER, run.last - BORDER)
  {
    hide RunAround;
    hide Threshold;
    hide Slice;
    hide Rivals;
    var roi := ncc[n - 1..n - 1 + lags];
    var threshold, i := Threshold(roi), ArgMax(roi);
    var g := Rivals(Slice(ncc, n - 1 - BORDER, n - 1 + lags + BORDER), threshold);
    ThresholdBelowPeak(roi);
    RivalsAre(ncc, n, lags, threshold);
    assert RivalLag(ncc, n, lags, threshold, i);
    RunFound(g, i + BORDER);
    StretchIs(ncc, n, lags, threshold, g, RunAround(g, i + BORDER).first, RunAround(g, i + BORDER).last);
  }

  lemma StretchIs(ncc: seq<real>, n: nat, lags: nat, threshold: real, g: seq<bool>, s: int, t: int)
    requires forall l: int :: RivalLag(ncc, n, lags, threshold, l) <==> On(g, l + BORDER)
    requires MaximalRun(g, s, t)
    ensures LongestStretch(ncc, n, lags, threshold, s - BORDER, t - BORDER)
  {
    hide RivalLag;
    assert RivalLag(ncc, n, lags, threshold, s - BORDER - 1) <==> On(g, s - 1);
    assert RivalLag(ncc, n, lags, threshold, t - BORDER + 1) <==> On(g, t + 1);
    forall l | s - BORDER <= l <= t - BORDER
      ensures RivalLag(ncc, n, lags, threshold, l)
    {
      assert On(g, l + BORDER);
    }
  }

  lemma RivalsAre(ncc: seq<real>, n: nat, lags: nat, threshold: real)
    requires n > BORDER && lags > 0 && |ncc| >= n + lags
    ensures var g := Rivals(Slice(ncc, n - 1 - BORDER, n - 1 + lags + BORDER), threshold);
            forall l: int :: RivalLag(ncc, n, lags, threshold, l) <==> On(g, l + BORDER)
  {
  }

  /** Lag i lies in the longest stretch of rival lags that starts at s. */
  predicate Around(ncc: seq<real>, n: nat, lags: nat, threshold: real, i: nat, s: int, width: int)
  {
    s <= i < s + width && LongestStretch(ncc, n, lags, threshold, s, s + width - 1)
  }

  ghost predicate InStretch(ncc: seq<real>, n: nat, lags: nat, threshold: real, i: nat, width: int)
  {
    exists s :: Around(ncc, n, lags, threshold, i, s, width)
  }

  /** The width is that of the longest stretch of rival lags around the peak, counted across the
      border on both sides, and the confidence falls with it. */
  lemma WidthIsStretch(ncc: seq<real>, n: nat, lags: nat, dt: real)
    requires n > BORDER && lags > 0 && |ncc| >= n + lags
    ensures var r := ActuatorDelay(ncc, n, lags, dt);
            && r.Estimate? && r.width > 0 && r.confidence == Confidence(r.width, dt)
            && InStretch(ncc, n, lags, Threshold(ncc[n - 1..n - 1 + lags]), r.index, r.width)
  {
    hide ActuatorDelay;
    hide RunAround;
    hide Rivals;
    hide Threshold;
    hide Slice;
    hide LongestStretch;
    hide Confidence;
    var roi := ncc[n - 1..n - 1 + lags];
    PeakRuns(ncc, n, lags);
    EstimateFields(ncc, n, lags, dt);
    var r := ActuatorDelay(ncc, n, lags, dt);
    var good := Rivals(Slice(ncc, n - 1 - BORDER, n - 1 + lags + BORDER), Threshold(roi));
    var run := RunAround(good, ArgMax(roi) + BORDER);
    var s := run.first - BORDER;
    assert s + r.width - 1 == run.last - BORDER;
    assert Around(ncc, n, lags, Threshold(roi), r.index, s, r.width);
  }

  // ---------------------------------------------------------------- the whole estimate

  /** The padded size leaves every lag from -lags up free of aliasing, as far as there are entries. */
  method PaddedSize(n: nat, lags: nat) returns (p: nat)
    requires n > 0
    ensures p >= n + lags && Smooth(p) && forall m: nat | Smooth(m) && m >= n + lags :: p <= m
    ensures forall c: Correlator, k: nat | c.Valid() && c.p == p && |c.w.mask| == n && n - 1 - lags <= k < p ::
            Clear(c, k)
  {
    p := FftNextGoodSize(n + lags);
  }

  ghost function Scores(c: Correlator): (r: seq<real>)
    requires c.Valid()
    ensures |r| == c.p
  {
    seq(c.p, k requires 0 <= k < c.p => c.Ncc(k))
  }

  lemma NccAtMostOne(c: Correlator, k: nat)
    requires c.Valid()
    ensures -1.0 <= c.Ncc(k) <= 1.0
  {
  }

  /** A delay below the longest lag is found: if the actual signal is the expected one, scaled up,
      shifted and delayed by d, on the samples that are valid on both sides, then the score of the
      estimate is 1, and its lag is d unless an earlier lag scores 1 too. */
  lemma DelayIsFound(c: Correlator, lags: nat, dt: real, d: nat, alpha: real, beta: real)
    requires c.Valid() && |c.w.mask| > 0 && c.p >= |c.w.mask| + lags && d < lags && dt >= 0.0 && alpha > 0.0
    requires forall m | c.w.Joint(d, m) :: c.w.actual[m + d] == alpha * c.w.expected[m] + beta
    requires c.Denom(|c.w.mask| - 1 + d) > c.Tolerance()
    ensures var r := ActuatorDelay(Scores(c), |c.w.mask|, lags, dt);
            && (|c.w.mask| > BORDER ==> r.Estimate?)
            && (r.Estimate? ==>
                  && r.corr == 1.0 && r.index <= d
                  && (r.index == d || c.Ncc(|c.w.mask| - 1 + r.index) == 1.0)
                  && forall l | 0 <= l < r.index :: Score(Scores(c), |c.w.mask|, l) < 1.0)
  {
    hide ActuatorDelay;
    hide Correlator.Ncc;
    hide Correlator.Denom;
    hide Correlator.Tolerance;
    hide Times;
    var n := |c.w.mask|;
    PeakIsBest(Scores(c), n, lags, dt);
    DelayScoresOne(c, d, alpha, beta);
    var r := ActuatorDelay(Scores(c), n, lags, dt);
    assert Score(Scores(c), n, d) == 1.0;
    if r.Estimate? {
      NccAtMostOne(c, n - 1 + r.index);
      assert Score(Scores(c), n, r.index) == c.Ncc(n - 1 + r.index);
    }
  }
}
