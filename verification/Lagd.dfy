/**
 The lateral lag estimate of selfdrive/locationd/lagd.py, over the reals: the masked normalised
 cross-correlation is the Pearson correlation of the jointly valid samples, and the estimator
 reads it at lags that the padded size keeps apart.
 */
module Lagd {
  import opened Reals
  import opened Correlation

  // ---------------------------------------------------------------- samples

  function Total(xs: seq<real>): real
  {
    if xs == [] then 0.0 else Total(xs[..|xs| - 1]) + xs[|xs| - 1]
  }

  function Dot(xs: seq<real>, ys: seq<real>): real
    requires |xs| == |ys|
  {
    if xs == [] then 0.0 else Dot(xs[..|xs| - 1], ys[..|ys| - 1]) + xs[|xs| - 1] * ys[|ys| - 1]
  }

  lemma TotalPush(xs: seq<real>, x: real)
    ensures Total(xs + [x]) == Total(xs) + x
  {
    assert (xs + [x])[..|xs|] == xs;
  }

  lemma DotPush(xs: seq<real>, ys: seq<real>, x: real, y: real)
    requires |xs| == |ys|
    ensures Dot(xs + [x], ys + [y]) == Dot(xs, ys) + x * y
  {
    assert (xs + [x])[..|xs|] == xs && (xs + [x])[|xs|] == x;
    assert (ys + [y])[..|ys|] == ys && (ys + [y])[|ys|] == y;
    DotLast(xs + [x], ys + [y], xs, ys, x, y);
  }

  lemma DotLast(us: seq<real>, vs: seq<real>, xs: seq<real>, ys: seq<real>, x: real, y: real)
    requires |us| == |vs| == |xs| + 1 == |ys| + 1 && us[..|xs|] == xs && vs[..|ys|] == ys
    requires us[|xs|] == x && vs[|ys|] == y
    ensures Dot(us, vs) == Dot(xs, ys) + x * y
  {
  }

  /** Every sample less c. */
  function Shift(xs: seq<real>, c: real): (r: seq<real>)
    ensures |r| == |xs|
  {
    seq(|xs|, i requires 0 <= i < |xs| => xs[i] - c)
  }

  lemma ShiftPush(xs: seq<real>, c: real)
    requires xs != []
    ensures Shift(xs, c)[..|xs| - 1] == Shift(xs[..|xs| - 1], c)
  {
  }

  lemma {:induction false} DotShift(xs: seq<real>, ys: seq<real>, c: real, d: real)
    requires |xs| == |ys|
    ensures Dot(Shift(xs, c), Shift(ys, d)) == Dot(xs, ys) - d * Total(xs) - c * Total(ys) + |xs| as real * (c * d)
  {
    hide Shift;
    if xs != [] {
      var n := |xs| - 1;
      ShiftPush(xs, c);
      ShiftPush(ys, d);
      DotShift(xs[..n], ys[..n], c, d);
      ShiftLast(xs, c);
      ShiftLast(ys, d);
      ShiftTerms(xs[n], ys[n], c, d, n as real, Total(xs[..n]), Total(ys[..n]));
    }
  }

  lemma ShiftLast(xs: seq<real>, c: real)
    requires xs != []
    ensures Shift(xs, c) != [] && Shift(xs, c)[|xs| - 1] == xs[|xs| - 1] - c
  {
  }

  lemma ShiftTerms(x: real, y: real, c: real, d: real, n: real, s: real, t: real)
    ensures (x - c) * (y - d) == x * y - d * x - c * y + c * d
    ensures (n + 1.0) * (c * d) == n * (c * d) + c * d
    ensures d * (s + x) == d * s + d * x && c * (t + y) == c * t + c * y
  {
  }

  function Mean(xs: seq<real>): real { Div(Total(xs), |xs| as real) }

  /** The sum of the products of the deviations from the two means. */
  function Covariance(xs: seq<real>, ys: seq<real>): real
    requires |xs| == |ys|
  {
    Dot(Shift(xs, Mean(xs)), Shift(ys, Mean(ys)))
  }

  lemma CovarianceIs(xs: seq<real>, ys: seq<real>)
    requires |xs| == |ys| > 0
    ensures Covariance(xs, ys) == Dot(xs, ys) - Total(xs) * Total(ys) / |xs| as real
  {
    hide Shift;
    hide Dot;
    hide Total;
    DotShift(xs, ys, Mean(xs), Mean(ys));
    MeanTerms(Total(xs), Total(ys), |xs| as real, Mean(xs), Mean(ys));
  }

  lemma MeanTerms(s: real, t: real, n: real, c: real, d: real)
    requires n > 0.0 && c == s / n && d == t / n
    ensures d * s == s * t / n && c * t == s * t / n && n * (c * d) == s * t / n
  {
    assert n * c == s && n * d == t;
    assert s * t == n * (d * s) == n * (c * t) == n * (n * (c * d));
    DivIs(s * t, n, d * s);
    DivIs(s * t, n, c * t);
    DivIs(s * t, n, n * (c * d));
  }

  // ---------------------------------------------------------------- Cauchy-Schwarz

  lemma {:induction false} DotSelf(xs: seq<real>)
    ensures Dot(xs, xs) >= 0.0
  {
    if xs != [] {
      DotSelf(xs[..|xs| - 1]);
    }
  }

  lemma {:induction false} CauchySchwarz(xs: seq<real>, ys: seq<real>)
    requires |xs| == |ys|
    ensures Dot(xs, ys) * Dot(xs, ys) <= Dot(xs, xs) * Dot(ys, ys)
  {
    if xs != [] {
      var n := |xs| - 1;
      CauchySchwarz(xs[..n], ys[..n]);
      DotSelf(xs[..n]);
      DotSelf(ys[..n]);
      CauchyStep(Dot(xs[..n], xs[..n]), Dot(ys[..n], ys[..n]), Dot(xs[..n], ys[..n]), xs[n], ys[n]);
    }
  }

  lemma CauchyStep(a: real, b: real, c: real, x: real, y: real)
    requires a >= 0.0 && b >= 0.0 && c * c <= a * b
    ensures (c + x * y) * (c + x * y) <= (a + x * x) * (b + y * y)
  {
    CauchyTerms(a, b, c, x, y);
    GapSign(a, b, c, x, y);
  }

  lemma GapSign(a: real, b: real, c: real, x: real, y: real)
    requires a >= 0.0 && b >= 0.0 && c * c <= a * b
    ensures a * (y * y) + b * (x * x) - 2.0 * (c * (x * y)) >= 0.0
  {
    if a == 0.0 {
      SquareIsZero(c);
      NonNegative(b, x * x);
    } else {
      GapTerms(a, b, c, x, y);
      var d := a * y - c * x;
      assert d * d >= 0.0;
      NonNegative(a * b - c * c, x * x);
      Factor(a, a * (y * y) + b * (x * x) - 2.0 * (c * (x * y)));
    }
  }

  lemma NonNegative(x: real, y: real)
    requires x >= 0.0 && y >= 0.0
    ensures x * y >= 0.0
  {
  }

  lemma Factor(a: real, x: real)
    requires a > 0.0 && a * x >= 0.0
    ensures x >= 0.0
  {
  }

  lemma CauchyTerms(a: real, b: real, c: real, x: real, y: real)
    ensures (a + x * x) * (b + y * y) - (c + x * y) * (c + x * y)
            == a * b - c * c + (a * (y * y) + b * (x * x) - 2.0 * (c * (x * y)))
  {
  }

  lemma GapTerms(a: real, b: real, c: real, x: real, y: real)
    ensures a * (a * (y * y) + b * (x * x) - 2.0 * (c * (x * y)))
            == (a * y - c * x) * (a * y - c * x) + (a * b - c * c) * (x * x)
  {
  }

  // ---------------------------------------------------------------- masked signals

  datatype Window = Window(expected: seq<real>, actual: seq<real>, mask: seq<bool>) {
    predicate Valid() { |expected| == |actual| == |mask| }

    /** Sample m of the expected signal and sample m + lag of the actual one are both valid. */
    predicate Joint(lag: int, m: int)
    {
      0 <= m < |mask| && 0 <= m + lag < |mask| && mask[m] && mask[m + lag]
    }

    /** The jointly valid samples of the expected signal among the first n. */
    function Left(lag: int, n: nat): seq<real>
      requires Valid()
    {
      if n == 0 then [] else Left(lag, n - 1) + if Joint(lag, n - 1) then [expected[n - 1]] else []
    }

    /** The samples of the actual signal that belong to them. */
    function Right(lag: int, n: nat): (r: seq<real>)
      requires Valid()
      ensures |r| == |Left(lag, n)|
    {
      if n == 0 then [] else Right(lag, n - 1) + if Joint(lag, n - 1) then [actual[n - 1 + lag]] else []
    }
  }

  function Masked(s: seq<real>, mask: seq<bool>): (r: seq<real>)
    requires |s| == |mask|
    ensures |r| == |s|
  {
    seq(|s|, i requires 0 <= i < |s| => if mask[i] then s[i] else 0.0)
  }

  function Ones(mask: seq<bool>): (r: seq<real>)
    ensures |r| == |mask|
  {
    seq(|mask|, i requires 0 <= i < |mask| => if mask[i] then 1.0 else 0.0)
  }

  function Squares(s: seq<real>): (r: seq<real>)
    ensures |r| == |s|
  {
    seq(|s|, i requires 0 <= i < |s| => s[i] * s[i])
  }

  /** One step of the six sums: a pair that is not jointly valid adds nothing. */
  lemma StepTerms(w: Window, lag: int, m: nat)
    requires w.Valid() && m < |w.mask|
    ensures var e, a, o := Masked(w.expected, w.mask), Masked(w.actual, w.mask), Ones(w.mask);
            && DirectTerm(o, o, lag, m) == (if w.Joint(lag, m) then 1.0 else 0.0)
            && DirectTerm(e, o, lag, m) == (if w.Joint(lag, m) then w.expected[m] else 0.0)
            && DirectTerm(o, a, lag, m) == (if w.Joint(lag, m) then w.actual[m + lag] else 0.0)
            && DirectTerm(e, a, lag, m) == (if w.Joint(lag, m) then w.expected[m] * w.actual[m + lag] else 0.0)
            && DirectTerm(Squares(e), o, lag, m) == (if w.Joint(lag, m) then w.expected[m] * w.expected[m] else 0.0)
            && DirectTerm(o, Squares(a), lag, m)
            == (if w.Joint(lag, m) then w.actual[m + lag] * w.actual[m + lag] else 0.0)
  {
  }

  /** The six direct sums over the first n samples are those of the jointly valid pairs. */
  ghost predicate SumsAre(w: Window, lag: int, n: nat)
    requires w.Valid()
  {
    var e, a, o := Masked(w.expected, w.mask), Masked(w.actual, w.mask), Ones(w.mask);
    var xs, ys := w.Left(lag, n), w.Right(lag, n);
    && Sum(n, DirectTerms(o, o, lag)) == |xs| as real
    && Sum(n, DirectTerms(e, o, lag)) == Total(xs)
    && Sum(n, DirectTerms(o, a, lag)) == Total(ys)
    && Sum(n, DirectTerms(e, a, lag)) == Dot(xs, ys)
    && Sum(n, DirectTerms(Squares(e), o, lag)) == Dot(xs, xs)
    && Sum(n, DirectTerms(o, Squares(a), lag)) == Dot(ys, ys)
  }

  lemma {:induction false} PairSums(w: Window, lag: int, n: nat)
    requires w.Valid() && n <= |w.mask|
    ensures SumsAre(w, lag, n)
  {
    hide Masked;
    hide Ones;
    hide Squares;
    hide DirectTerm;
    hide Total;
    hide Dot;
    if n == 0 {
      NoSamples();
    } else {
      PairSums(w, lag, n - 1);
      StepTerms(w, lag, n - 1);
      var xs, ys := w.Left(lag, n - 1), w.Right(lag, n - 1);
      if w.Joint(lag, n - 1) {
        var x, y := w.expected[n - 1], w.actual[n - 1 + lag];
        TotalPush(xs, x);
        TotalPush(ys, y);
        DotPush(xs, ys, x, y);
        DotPush(xs, xs, x, x);
        DotPush(ys, ys, y, y);
      } else {
        assert w.Left(lag, n) == xs && w.Right(lag, n) == ys;
      }
    }
  }

  lemma NoSamples()
    ensures Total([]) == 0.0 && Dot([], []) == 0.0
  {
  }

  // ---------------------------------------------------------------- masked_normalized_cross_correlation

  function Fmax(x: real, y: real): real { if x < y then y else x }

  function Clip(x: real, low: real, high: real): real { if x < low then low else if x > high then high else x }

  /** Rounding to the nearest whole number; what it does half-way between two never matters here. */
  function Round(x: real): real { (x + 0.5).Floor as real }

  /** A product with a name, which keeps it out of the way of the solver. */
  function Times(x: real, y: real): real { x * y }

  ghost function RootOfProduct(x: real, y: real): real { Sqrt(Times(x, y)) }

  /** A sum of products less the product of the two sums over the count. */
  function Reduced(sum: real, x: real, y: real, n: real): real { sum - Div(x * y, n) }

  /** The correlation of a window padded to size p; eps is the spacing of the floating-point numbers
      at 1. */
  datatype Correlator = Correlator(w: Window, p: nat, eps: real) {
    predicate Valid() { w.Valid() && |w.mask| <= p && p > 0 && 0.0 < eps <= 1.0 }

    function E(): (r: seq<real>) requires Valid() ensures |r| == |w.mask| { Masked(w.expected, w.mask) }
    function A(): (r: seq<real>) requires Valid() ensures |r| == |w.mask| { Masked(w.actual, w.mask) }
    function O(): (r: seq<real>) requires Valid() ensures |r| == |w.mask| { Ones(w.mask) }

    function Overlap(k: nat): real
      requires Valid()
    {
      Fmax(Round(Circ(Rev(O()), O(), p, k)), eps)
    }

    function SumActual(k: nat): real requires Valid() { Circ(Rev(O()), A(), p, k) }

    function SumExpected(k: nat): real requires Valid() { Circ(Rev(E()), O(), p, k) }

    function Numerator(k: nat): real
      requires Valid()
    {
      Reduced(Circ(Rev(E()), A(), p, k), SumActual(k), SumExpected(k), Overlap(k))
    }

    function ActualDenom(k: nat): real
      requires Valid()
    {
      Reduced(Circ(Rev(O()), Squares(A()), p, k), SumActual(k), SumActual(k), Overlap(k))
    }

    function ExpectedDenom(k: nat): real
      requires Valid()
    {
      Reduced(Circ(Squares(Rev(E())), O(), p, k), SumExpected(k), SumExpected(k), Overlap(k))
    }

    ghost function Denom(k: nat): real
      requires Valid()
    {
      RootOfProduct(Fmax(ActualDenom(k), 0.0), Fmax(ExpectedDenom(k), 0.0))
    }

    /** The largest of the first n absolute denominators. */
    ghost function Largest(n: nat): real
      requires Valid()
    {
      if n == 0 then 0.0 else Fmax(Largest(n - 1), Abs(Denom(n - 1)))
    }

    ghost function Tolerance(): real requires Valid() { 1000.0 * eps * Largest(p) }

    ghost function Ncc(k: nat): (r: real)
      requires Valid()
    {
      if Denom(k) > Tolerance() then Clip(Div(Numerator(k), Denom(k)), -1.0, 1.0) else 0.0
    }
  }

  // ---------------------------------------------------------------- each entry is a Pearson correlation

  /** The pairs that count at entry k. */
  function Xs(c: Correlator, k: nat): seq<real>
    requires c.Valid()
  {
    c.w.Left(k - (|c.w.mask| - 1), |c.w.mask|)
  }

  function Ys(c: Correlator, k: nat): (r: seq<real>)
    requires c.Valid()
    ensures |r| == |Xs(c, k)|
  {
    c.w.Right(k - (|c.w.mask| - 1), |c.w.mask|)
  }

  /** The entries that aliasing cannot reach. */
  predicate Clear(c: Correlator, k: nat)
    requires c.Valid()
  {
    k < c.p && k + c.p >= 2 * |c.w.mask| - 1
  }

  lemma SquaresRev(s: seq<real>)
    ensures Squares(Rev(s)) == Rev(Squares(s))
  {
    var x, y := Squares(Rev(s)), Rev(Squares(s));
    assert |x| == |y|;
    forall i | 0 <= i < |s|
      ensures x[i] == y[i]
    {
      assert Rev(s)[i] == s[|s| - 1 - i];
    }
  }

  /** The six circular sums are the sums over the jointly valid pairs. */
  lemma CircularSums(c: Correlator, k: nat)
    requires c.Valid() && Clear(c, k)
    ensures var xs, ys := Xs(c, k), Ys(c, k);
            && Circ(Rev(c.O()), c.O(), c.p, k) == |xs| as real
            && c.SumExpected(k) == Total(xs) && c.SumActual(k) == Total(ys)
            && Circ(Rev(c.E()), c.A(), c.p, k) == Dot(xs, ys)
            && Circ(Squares(Rev(c.E())), c.O(), c.p, k) == Dot(xs, xs)
            && Circ(Rev(c.O()), Squares(c.A()), c.p, k) == Dot(ys, ys)
  {
    hide Circ;
    hide Squares;
    hide Masked;
    hide Ones;
    var e, a, o := c.E(), c.A(), c.O();
    PairSums(c.w, k - (|c.w.mask| - 1), |c.w.mask|);
    SquaresRev(e);
    NoAliasing(o, o, c.p, k);
    NoAliasing(e, o, c.p, k);
    NoAliasing(o, a, c.p, k);
    NoAliasing(e, a, c.p, k);
    NoAliasing(Squares(e), o, c.p, k);
    NoAliasing(o, Squares(a), c.p, k);
  }

  lemma RoundCount(n: nat)
    ensures Round(n as real) == n as real
  {
    var f := (n as real + 0.5).Floor;
    assert f as real <= n as real + 0.5 < (f + 1) as real;
    assert n <= f <= n;
  }

  lemma OverlapIs(c: Correlator, k: nat)
    requires c.Valid() && Clear(c, k)
    ensures c.Overlap(k) == if Xs(c, k) == [] then c.eps else |Xs(c, k)| as real
  {
    hide Round;
    hide Circ;
    CircularSums(c, k);
    RoundCount(|Xs(c, k)|);
  }

  /** The numerator is the covariance of the jointly valid pairs, and the denominators are their
      variances, whatever the mask; without pairs all three are 0. */
  lemma EntryIs(c: Correlator, k: nat)
    requires c.Valid() && Clear(c, k)
    ensures c.Numerator(k) == Covariance(Xs(c, k), Ys(c, k))
    ensures c.ExpectedDenom(k) == Covariance(Xs(c, k), Xs(c, k)) >= 0.0
    ensures c.ActualDenom(k) == Covariance(Ys(c, k), Ys(c, k)) >= 0.0
  {
    hide Circ;
    hide Correlator.Overlap;
    hide Correlator.SumActual;
    hide Correlator.SumExpected;
    hide Covariance;
    hide Dot;
    hide Total;
    hide Reduced;
    var xs, ys, n := Xs(c, k), Ys(c, k), c.Overlap(k);
    CircularSums(c, k);
    OverlapIs(c, k);
    VarianceSign(xs);
    VarianceSign(ys);
    if xs == [] {
      NoSamples();
      NoCovariance();
      NothingReduced(n);
    } else {
      CovarianceReduced(xs, ys);
      CovarianceReduced(xs, xs);
      CovarianceReduced(ys, ys);
    }
  }

  lemma CovarianceReduced(xs: seq<real>, ys: seq<real>)
    requires |xs| == |ys| > 0
    ensures Reduced(Dot(xs, ys), Total(ys), Total(xs), |xs| as real) == Covariance(xs, ys)
  {
    hide Covariance;
    hide Dot;
    hide Total;
    CovarianceIs(xs, ys);
    SwapProduct(Total(xs), Total(ys));
  }

  lemma SwapProduct(x: real, y: real)
    ensures x * y == y * x
  {
  }

  lemma NothingReduced(n: real)
    ensures Reduced(0.0, 0.0, 0.0, n) == 0.0
  {
  }

  lemma NoCovariance()
    ensures Covariance([], []) == 0.0
  {
    assert Shift([], Mean([])) == [];
  }

  lemma VarianceSign(xs: seq<real>)
    ensures Covariance(xs, xs) >= 0.0
  {
    DotSelf(Shift(xs, Mean(xs)));
  }

  lemma SqrtRoots(x: real)
    ensures Sqrt(x) >= 0.0 && (Sqrt(x) > 0.0 ==> IsRoot(Sqrt(x), x))
  {
  }

  /** The tolerance is a thousand times the spacing at 1, times the greatest denominator. */
  lemma ToleranceIs(c: Correlator)
    requires c.Valid()
    ensures exists k: nat | k < c.p ::
              && c.Tolerance() == 1000.0 * c.eps * c.Denom(k)
              && forall j: nat | j < c.p :: c.Denom(j) <= c.Denom(k)
  {
    hide Correlator.Denom;
    hide Correlator.Largest;
    hide Correlator.Tolerance;
    LargestBounds(c, c.p);
    var k := LargestReached(c, c.p);
    ToleranceOf(c, c.Denom(k));
  }

  lemma ToleranceOf(c: Correlator, x: real)
    requires c.Valid() && x == c.Largest(c.p)
    ensures c.Tolerance() == 1000.0 * c.eps * x
  {
    hide Correlator.Largest;
  }

  lemma {:induction false} LargestReached(c: Correlator, n: nat) returns (k: nat)
    requires c.Valid() && n > 0
    ensures k < n && c.Largest(n) == c.Denom(k)
  {
    hide Correlator.Denom;
    DenomSign(c, n - 1);
    k := n - 1;
    if n > 1 {
      var j := LargestReached(c, n - 1);
      DenomSign(c, j);
      if c.Denom(n - 1) < c.Denom(j) {
        k := j;
      }
    }
  }

  lemma DenomSign(c: Correlator, k: nat)
    requires c.Valid()
    ensures c.Denom(k) >= 0.0
  {
    hide Sqrt;
    SqrtRoots(Times(Fmax(c.ActualDenom(k), 0.0), Fmax(c.ExpectedDenom(k), 0.0)));
  }

  lemma {:induction false} LargestBounds(c: Correlator, n: nat)
    requires c.Valid()
    ensures c.Largest(n) >= 0.0 && forall k: nat | k < n :: c.Denom(k) <= c.Largest(n)
  {
    hide Correlator.Denom;
    if n > 0 {
      LargestBounds(c, n - 1);
    }
  }

  lemma ToleranceSign(c: Correlator)
    requires c.Valid()
    ensures c.Tolerance() >= 0.0
  {
    hide Correlator.Largest;
    LargestBounds(c, c.p);
    NonNegative(c.eps, c.Largest(c.p));
  }

  /** The Pearson correlation of two samples, where the product of their variances has a root. */
  ghost function Spread(xs: seq<real>, ys: seq<real>): real
    requires |xs| == |ys|
  {
    RootOfProduct(Covariance(ys, ys), Covariance(xs, xs))
  }

  lemma DenomIs(c: Correlator, k: nat)
    requires c.Valid() && Clear(c, k)
    ensures c.Denom(k) == Spread(Xs(c, k), Ys(c, k))
  {
    hide Covariance;
    hide Sqrt;
    hide Correlator.ActualDenom;
    hide Correlator.ExpectedDenom;
    hide RootOfProduct;
    EntryIs(c, k);
  }

  /** Every entry that aliasing cannot reach is the Pearson correlation of the jointly valid pairs,
      or 0 where their spread is within the tolerance. The clips in the code change nothing. */
  lemma NccIsPearson(c: Correlator, k: nat)
    requires c.Valid() && Clear(c, k)
    ensures var xs, ys := Xs(c, k), Ys(c, k);
            && (Spread(xs, ys) > c.Tolerance() ==>
                  && c.Ncc(k) == Covariance(xs, ys) / Spread(xs, ys)
                  && -Spread(xs, ys) <= Covariance(xs, ys) <= Spread(xs, ys))
            && (Spread(xs, ys) <= c.Tolerance() ==> c.Ncc(k) == 0.0)
  {
    hide Correlator.Numerator;
    hide Correlator.Denom;
    hide Correlator.Tolerance;
    hide Covariance;
    hide Spread;
    hide Xs;
    hide Ys;
    var xs, ys := Xs(c, k), Ys(c, k);
    DenomIs(c, k);
    EntryIs(c, k);
    ToleranceSign(c);
    if Spread(xs, ys) > c.Tolerance() {
      Bounded(xs, ys);
      Within(Covariance(xs, ys), Spread(xs, ys));
    }
  }

  lemma Within(x: real, d: real)
    requires d > 0.0 && -d <= x <= d
    ensures Div(x, d) == x / d && -1.0 <= x / d <= 1.0
  {
  }

  /** A covariance is within the spread of the two samples. */
  lemma Bounded(xs: seq<real>, ys: seq<real>)
    requires |xs| == |ys| && Spread(xs, ys) > 0.0
    ensures -Spread(xs, ys) <= Covariance(xs, ys) <= Spread(xs, ys)
  {
    hide Dot;
    hide Sqrt;
    hide Shift;
    hide RootOfProduct;
    var v := Covariance(xs, ys);
    CauchySchwarz(Shift(xs, Mean(xs)), Shift(ys, Mean(ys)));
    RootBounds(v, Covariance(xs, xs), Covariance(ys, ys));
  }

  lemma RootBounds(v: real, x: real, y: real)
    requires v * v <= x * y && RootOfProduct(y, x) > 0.0
    ensures -RootOfProduct(y, x) <= v <= RootOfProduct(y, x)
  {
    hide Sqrt;
    SqrtRoots(Times(y, x));
    SquareBound(v, RootOfProduct(y, x));
  }

  lemma SquareBound(v: real, r: real)
    requires r > 0.0 && v * v <= r * r
    ensures -r <= v <= r
  {
    if v > r {
      LessSquare(r, v);
    } else if v < -r {
      LessSquare(r, -v);
    }
  }

  // ---------------------------------------------------------------- the score 1

  predicate Affine(xs: seq<real>, ys: seq<real>, alpha: real, beta: real)
    requires |xs| == |ys|
  {
    forall i | 0 <= i < |xs| :: ys[i] == alpha * xs[i] + beta
  }

  /** The sum of the squares of a * y - b * x. */
  lemma {:induction false} DotMix(xs: seq<real>, ys: seq<real>, zs: seq<real>, a: real, b: real)
    requires |xs| == |ys| == |zs| && forall i | 0 <= i < |xs| :: zs[i] == a * ys[i] - b * xs[i]
    ensures Dot(zs, zs) == a * a * Dot(ys, ys) - 2.0 * (a * b * Dot(xs, ys)) + b * b * Dot(xs, xs)
  {
    if xs != [] {
      var n := |xs| - 1;
      DotMix(xs[..n], ys[..n], zs[..n], a, b);
      MixTerms(a, b, xs[n], ys[n], Dot(xs[..n], xs[..n]), Dot(xs[..n], ys[..n]), Dot(ys[..n], ys[..n]));
    }
  }

  lemma MixTerms(a: real, b: real, x: real, y: real, s: real, t: real, u: real)
    ensures (a * y - b * x) * (a * y - b * x) + (a * a * u - 2.0 * (a * b * t) + b * b * s)
            == a * a * (u + y * y) - 2.0 * (a * b * (t + x * y)) + b * b * (s + x * x)
  {
  }

  lemma {:induction false} AllZero(zs: seq<real>)
    requires Dot(zs, zs) <= 0.0
    ensures forall i | 0 <= i < |zs| :: zs[i] == 0.0
  {
    if zs != [] {
      var n := |zs| - 1;
      DotSelf(zs[..n]);
      assert zs[n] * zs[n] >= 0.0;
      SquareIsZero(zs[n]);
      AllZero(zs[..n]);
      forall i | 0 <= i < n ensures zs[i] == 0.0 { assert zs[i] == zs[..n][i]; }
    }
  }

  lemma {:induction false} DotScale(xs: seq<real>, ys: seq<real>, alpha: real)
    requires |xs| == |ys| && forall i | 0 <= i < |xs| :: ys[i] == alpha * xs[i]
    ensures Dot(xs, ys) == alpha * Dot(xs, xs) && Dot(ys, ys) == alpha * alpha * Dot(xs, xs)
  {
    if xs != [] {
      var n := |xs| - 1;
      DotScale(xs[..n], ys[..n], alpha);
      ScaleTerms(alpha, xs[n], Dot(xs[..n], xs[..n]));
    }
  }

  lemma ScaleTerms(alpha: real, x: real, s: real)
    ensures alpha * s + x * (alpha * x) == alpha * (s + x * x)
    ensures alpha * alpha * s + alpha * x * (alpha * x) == alpha * alpha * (s + x * x)
  {
  }

  lemma {:induction false} TotalAffine(xs: seq<real>, ys: seq<real>, alpha: real, beta: real)
    requires |xs| == |ys| && Affine(xs, ys, alpha, beta)
    ensures Total(ys) == alpha * Total(xs) + |xs| as real * beta
  {
    if xs != [] {
      var n := |xs| - 1;
      TotalAffine(xs[..n], ys[..n], alpha, beta);
      AffineStep(Total(xs[..n]), xs[n], n as real, alpha, beta);
    }
  }

  lemma AffineStep(t: real, x: real, n: real, alpha: real, beta: real)
    ensures alpha * (t + x) + (n + 1.0) * beta == alpha * t + n * beta + (alpha * x + beta)
  {
  }

  /** The deviations of an affine copy are the scaled deviations. */
  lemma AffineCovariance(xs: seq<real>, ys: seq<real>, alpha: real, beta: real)
    requires |xs| == |ys| && Affine(xs, ys, alpha, beta)
    ensures Covariance(xs, ys) == alpha * Covariance(xs, xs) && Covariance(ys, ys) == alpha * alpha * Covariance(xs, xs)
  {
    hide Dot;
    hide Total;
    var mx, my := Mean(xs), Mean(ys);
    if xs != [] {
      TotalAffine(xs, ys, alpha, beta);
      AffineMean(Total(xs), Total(ys), |xs| as real, alpha, beta);
      forall i | 0 <= i < |xs|
        ensures Shift(ys, my)[i] == alpha * Shift(xs, mx)[i]
      {
        Distribute(alpha, xs[i], mx, beta, ys[i], my);
      }
    }
    DotScale(Shift(xs, mx), Shift(ys, my), alpha);
  }

  lemma AffineMean(s: real, t: real, n: real, alpha: real, beta: real)
    requires n > 0.0 && t == alpha * s + n * beta
    ensures Div(t, n) == alpha * Div(s, n) + beta
  {
    var m := s / n;
    assert s == m * n;
    assert t == (alpha * m + beta) * n;
    DivIs(t, n, alpha * m + beta);
  }

  lemma Distribute(alpha: real, x: real, mx: real, beta: real, y: real, my: real)
    requires y == alpha * x + beta && my == alpha * mx + beta
    ensures y - my == alpha * (x - mx)
  {
  }

  /** Where the covariance equals the spread, one sample is an increasing affine copy of the other. */
  lemma PerfectIsAffine(xs: seq<real>, ys: seq<real>)
    requires |xs| == |ys| && Covariance(xs, ys) == Spread(xs, ys) > 0.0
    ensures exists alpha, beta :: alpha > 0.0 && Affine(xs, ys, alpha, beta)
  {
    hide Dot;
    hide Mean;
    hide Sqrt;
    var dx, dy := Shift(xs, Mean(xs)), Shift(ys, Mean(ys));
    var a, b := Dot(dx, dx), Dot(dx, dy);
    SqrtRoots(Times(Covariance(ys, ys), Covariance(xs, xs)));
    VarianceSign(xs);
    var zs := seq(|xs|, i requires 0 <= i < |xs| => a * dy[i] - b * dx[i]);
    DotMix(dx, dy, zs, a, b);
    PerfectTerms(a, b, Dot(dy, dy));
    AllZero(zs);
    var alpha := b / a;
    forall i | 0 <= i < |xs|
      ensures ys[i] == alpha * xs[i] + (Mean(ys) - alpha * Mean(xs))
    {
      assert zs[i] == 0.0;
      Solve(a, b, xs[i] - Mean(xs), ys[i] - Mean(ys));
      Distribute2(alpha, xs[i], Mean(xs));
    }
    assert Affine(xs, ys, alpha, Mean(ys) - alpha * Mean(xs));
  }

  lemma PerfectTerms(a: real, b: real, d: real)
    requires a >= 0.0 && b > 0.0 && b * b == d * a
    ensures a > 0.0 && a * a * d - 2.0 * (a * b * b) + b * b * a == 0.0 && b / a > 0.0
  {
    NotZero(a, b, d);
    assert a * a * d == a * (d * a);
    Quotient(b, a);
  }

  lemma NotZero(a: real, b: real, d: real)
    requires b > 0.0 && b * b == d * a
    ensures a != 0.0
  {
    LessSquare(0.0, b);
  }

  lemma Quotient(b: real, a: real)
    requires a > 0.0 && b > 0.0
    ensures b / a > 0.0
  {
  }

  lemma Solve(a: real, b: real, x: real, y: real)
    requires a > 0.0 && a * y - b * x == 0.0
    ensures y == b / a * x
  {
    var q := b / a;
    assert b == q * a;
    assert a * (y - q * x) == 0.0;
  }

  lemma Distribute2(alpha: real, x: real, m: real)
    ensures alpha * (x - m) == alpha * x - alpha * m
  {
  }

  /** An entry that aliasing cannot reach and whose spread is above the tolerance scores 1 exactly
      where the actual signal, read that far later, is an increasing affine copy of the expected one
      on the jointly valid samples. */
  lemma ScoreOne(c: Correlator, k: nat)
    requires c.Valid() && Clear(c, k) && Spread(Xs(c, k), Ys(c, k)) > c.Tolerance()
    ensures c.Ncc(k) == 1.0 <==> exists alpha, beta :: alpha > 0.0 && Affine(Xs(c, k), Ys(c, k), alpha, beta)
  {
    hide Correlator.Ncc;
    hide Correlator.Tolerance;
    hide Covariance;
    hide Spread;
    hide Affine;
    hide Xs;
    hide Ys;
    var xs, ys := Xs(c, k), Ys(c, k);
    NccIsPearson(c, k);
    ToleranceSign(c);
    if c.Ncc(k) == 1.0 {
      OneMeansEqual(Covariance(xs, ys), Spread(xs, ys));
      PerfectIsAffine(xs, ys);
    }
    if alpha, beta :| alpha > 0.0 && Affine(xs, ys, alpha, beta) {
      AffineIsPerfect(xs, ys, alpha, beta);
    }
  }

  lemma OneMeansEqual(v: real, r: real)
    requires r > 0.0 && v / r == 1.0
    ensures v == r
  {
  }

  lemma AffineIsPerfect(xs: seq<real>, ys: seq<real>, alpha: real, beta: real)
    requires |xs| == |ys| && alpha > 0.0 && Affine(xs, ys, alpha, beta)
    ensures Covariance(xs, ys) == Spread(xs, ys)
  {
    hide Covariance;
    hide Affine;
    hide RootOfProduct;
    AffineCovariance(xs, ys, alpha, beta);
    VarianceSign(xs);
    RootOfScaled(Covariance(ys, ys), Covariance(xs, xs), alpha);
  }

  lemma RootOfScaled(u: real, v: real, alpha: real)
    requires v >= 0.0 && alpha > 0.0 && u == alpha * alpha * v
    ensures RootOfProduct(u, v) == alpha * v
  {
    hide Sqrt;
    NonNegative(alpha, v);
    assert u * v == alpha * v * (alpha * v);
    SqrtIs(Times(u, v), alpha * v);
  }

  lemma {:induction false} PairsAffine(w: Window, lag: int, n: nat, alpha: real, beta: real)
    requires w.Valid() && n <= |w.mask|
    ensures Affine(w.Left(lag, n), w.Right(lag, n), alpha, beta) <==>
            forall m | 0 <= m < n && w.Joint(lag, m) :: w.actual[m + lag] == alpha * w.expected[m] + beta
  {
    if n > 0 {
      PairsAffine(w, lag, n - 1, alpha, beta);
      if w.Joint(lag, n - 1) {
        AffinePush(w.Left(lag, n - 1), w.Right(lag, n - 1), w.expected[n - 1], w.actual[n - 1 + lag], alpha, beta);
      } else {
        assert w.Left(lag, n) == w.Left(lag, n - 1) && w.Right(lag, n) == w.Right(lag, n - 1);
      }
    }
  }

  lemma AffinePush(xs: seq<real>, ys: seq<real>, x: real, y: real, alpha: real, beta: real)
    requires |xs| == |ys|
    ensures Affine(xs + [x], ys + [y], alpha, beta) <==> Affine(xs, ys, alpha, beta) && y == alpha * x + beta
  {
    if Affine(xs + [x], ys + [y], alpha, beta) {
      forall i | 0 <= i < |xs| ensures ys[i] == alpha * xs[i] + beta {
        assert (ys + [y])[i] == alpha * (xs + [x])[i] + beta;
      }
      assert (ys + [y])[|xs|] == alpha * (xs + [x])[|xs|] + beta;
    }
  }

  /** A signal that is the expected one, scaled up, shifted and delayed, scores 1 at its delay. */
  lemma DelayScoresOne(c: Correlator, lag: nat, alpha: real, beta: real)
    requires c.Valid() && |c.w.mask| > 0 && |c.w.mask| + lag <= c.p && alpha > 0.0
    requires forall m | c.w.Joint(lag, m) :: c.w.actual[m + lag] == alpha * c.w.expected[m] + beta
    requires c.Denom(|c.w.mask| - 1 + lag) > c.Tolerance()
    ensures c.Ncc(|c.w.mask| - 1 + lag) == 1.0
  {
    hide Correlator.Denom;
    hide Correlator.Tolerance;
    hide Correlator.Ncc;
    hide Affine;
    hide Spread;
    hide Window.Left;
    hide Window.Right;
    var k := |c.w.mask| - 1 + lag;
    PairsAffine(c.w, lag, |c.w.mask|, alpha, beta);
    DenomIs(c, k);
    ScoreOne(c, k);
  }
}
