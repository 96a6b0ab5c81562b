/**
 The masked cross-correlation of selfdrive/locationd/lagd.py, over the reals.

 Multiplying two Fourier transforms of a padded size and transforming back is a circular
 convolution of that size. Every entry of it is a direct sum over the overlap of the two
 signals, plus the direct sum one padded size further on; where the second overlap is empty
 the result is the correlation of the samples that are valid on both sides.
 */
module Correlation {
  import opened Reals

  // ---------------------------------------------------------------- finite sums

  function Sum(n: nat, f: int -> real): real
  {
    if n == 0 then 0.0 else Sum(n - 1, f) + f(n - 1)
  }

  lemma {:induction false} SumPlus(n: nat, f: int -> real, g: int -> real, h: int -> real)
    requires forall i | 0 <= i < n :: h(i) == f(i) + g(i)
    ensures Sum(n, h) == Sum(n, f) + Sum(n, g)
  {
    if n > 0 {
      SumPlus(n - 1, f, g, h);
    }
  }

  /** Terms that are 0 from n on add nothing. */
  lemma {:induction false} SumTail(n: nat, m: nat, f: int -> real)
    requires n <= m && forall i | n <= i < m :: f(i) == 0.0
    ensures Sum(m, f) == Sum(n, f)
  {
    if n < m {
      SumTail(n, m - 1, f);
    }
  }

  lemma {:induction false} SumFirst(n: nat, f: int -> real, g: int -> real)
    requires n > 0 && forall i | 0 <= i < n - 1 :: g(i) == f(i + 1)
    ensures Sum(n, f) == f(0) + Sum(n - 1, g)
  {
    if n > 1 {
      SumFirst(n - 1, f, g);
    } else {
      assert Sum(0, f) == 0.0;
    }
  }

  lemma {:induction false} SumReverse(n: nat, f: int -> real, g: int -> real)
    requires forall i | 0 <= i < n :: g(i) == f(n - 1 - i)
    ensures Sum(n, f) == Sum(n, g)
  {
    if n > 0 {
      var h := (i: int) => f(i + 1);
      SumFirst(n, f, h);
      SumReverse(n - 1, h, g);
    }
  }

  // ---------------------------------------------------------------- circular convolution

  /** The signal, padded with zeros. */
  function At(s: seq<real>, i: int): real { if 0 <= i < |s| then s[i] else 0.0 }

  function Rev(s: seq<real>): seq<real> { seq(|s|, i requires 0 <= i < |s| => s[|s| - 1 - i]) }

  function CircTerm(u: seq<real>, v: seq<real>, p: nat, k: int, j: int): real
    requires p > 0
  {
    At(u, j) * At(v, (k - j) % p)
  }

  function CircTerms(u: seq<real>, v: seq<real>, p: nat, k: int): int -> real
    requires p > 0
  {
    j => CircTerm(u, v, p, k, j)
  }

  /** Entry k of the inverse transform of the product of the transforms of u and v, all of size p. */
  function Circ(u: seq<real>, v: seq<real>, p: nat, k: int): real
    requires p > 0
  {
    Sum(p, CircTerms(u, v, p, k))
  }

  function DirectTerm(e: seq<real>, a: seq<real>, lag: int, m: int): real { At(e, m) * At(a, m + lag) }

  function DirectTerms(e: seq<real>, a: seq<real>, lag: int): int -> real { m => DirectTerm(e, a, lag, m) }

  /** The sum of e[m] * a[m + lag] over the overlap of the two signals. */
  function Direct(e: seq<real>, a: seq<real>, lag: int): real
  {
    Sum(|e|, DirectTerms(e, a, lag))
  }

  lemma WrapOnce(i: int, p: int)
    requires -p <= i < p
    ensures i % p == if i < 0 then i + p else i
  {
    if i < 0 {
      assert i == -1 * p + (i + p);
    }
  }

  /** One sample meets a sample of the other signal at this lag, or a padded size further on, but
      not both. */
  lemma TermSplits(e: seq<real>, a: seq<real>, p: nat, k: nat, m: nat)
    requires m < |e| == |a| <= p && k < p
    ensures CircTerm(Rev(e), a, p, k, |e| - 1 - m) ==
            DirectTerm(e, a, k - (|e| - 1), m) + DirectTerm(e, a, k - (|e| - 1) + p, m)
  {
    var i := k - (|e| - 1) + m;
    WrapOnce(i, p);
    assert k - (|e| - 1 - m) == i;
    assert At(Rev(e), |e| - 1 - m) == At(e, m);
  }

  /** Aliasing: entry k of the circular sum is the direct sum for lag k - (n - 1), plus the one a
      whole padded size further on. */
  lemma CircIsDirect(e: seq<real>, a: seq<real>, p: nat, k: nat)
    requires |e| == |a| <= p && k < p
    ensures Circ(Rev(e), a, p, k) == Direct(e, a, k - (|e| - 1)) + Direct(e, a, k - (|e| - 1) + p)
  {
    hide CircTerm;
    hide DirectTerm;
    hide Sum;
    hide Rev;
    var n, lag := |e|, k - (|e| - 1);
    var f := CircTerms(Rev(e), a, p, k);
    var g := (m: int) => f(n - 1 - m);
    RevLength(e);
    forall j | n <= j < p
      ensures f(j) == 0.0
    {
      PastTheEnd(Rev(e), a, p, k, j);
    }
    SumTail(n, p, f);
    SumReverse(n, f, g);
    forall m | 0 <= m < n
      ensures g(m) == DirectTerms(e, a, lag)(m) + DirectTerms(e, a, lag + p)(m)
    {
      TermSplits(e, a, p, k, m);
    }
    SumPlus(n, DirectTerms(e, a, lag), DirectTerms(e, a, lag + p), g);
  }

  lemma RevLength(s: seq<real>)
    ensures |Rev(s)| == |s|
  {
  }

  lemma PastTheEnd(u: seq<real>, v: seq<real>, p: nat, k: int, j: int)
    requires j >= |u| && p > 0
    ensures CircTerm(u, v, p, k, j) == 0.0
  {
  }

  /** Where the second overlap is empty there is no aliasing. With n samples and a padded size of at
      least n + L these are all the lags from 0 to L. */
  lemma NoAliasing(e: seq<real>, a: seq<real>, p: nat, k: nat)
    requires |e| == |a| <= p && k < p && k + p >= 2 * |e| - 1
    ensures Circ(Rev(e), a, p, k) == Direct(e, a, k - (|e| - 1))
  {
    hide Circ;
    var lag := k - (|e| - 1) + p;
    CircIsDirect(e, a, p, k);
    SumTail(0, |e|, DirectTerms(e, a, lag));
  }
}
