/**
 fft_next_good_size of selfdrive/locationd/helpers.py: the least number, not below n, whose
 only prime factors are 2, 3, 5, 7 and 11.
 */
module FftSize {
  import opened Arith

  // ---------------------------------------------------------------- smooth numbers

  predicate Divides(d: nat, m: nat)
  {
    d > 0 && m % d == 0
  }

  predicate Prime(p: nat)
  {
    p > 1 && forall d | 1 < d < p :: !Divides(d, p)
  }

  /** No prime factor beyond 11. */
  ghost predicate Smooth(m: nat)
  {
    m > 0 && forall p | Prime(p) && Divides(p, m) :: p <= 11
  }

  // The values of the loop variables f2, f23, f235, f2357 and f235711 at given exponents.

  function F2(a: nat): nat { Pow(2, a) }

  function F23(a: nat, b: nat): nat { F2(a) * Pow(3, b) }

  function F235(a: nat, b: nat, c: nat): nat { F23(a, b) * Pow(5, c) }

  function F2357(a: nat, b: nat, c: nat, d: nat): nat { F235(a, b, c) * Pow(7, d) }

  /** 2^a * 3^b * 5^c * 7^d * 11^e. */
  function Product(a: nat, b: nat, c: nat, d: nat, e: nat): nat { F2357(a, b, c, d) * Pow(11, e) }

  // ---------------------------------------------------------------- divisibility

  lemma DividesBy(d: nat, m: nat, k: nat)
    requires d > 0 && m == d * k
    ensures Divides(d, m)
  {
    MulMod(d, k);
  }

  lemma {:induction false} MulMod(d: nat, k: nat)
    requires d > 0
    ensures (d * k) % d == 0
  {
    if k > 0 {
      MulMod(d, k - 1);
      MulAdd(d, k - 1, 1);
      AddMod(d * (k - 1), d);
    }
  }

  lemma AddMod(x: nat, d: nat)
    requires d > 0
    ensures (x + d) % d == x % d
  {
    var q, r := x / d, x % d;
    assert x == q * d + r;
    MulAdd(d, q, 1);
    ModIs(x + d, d, q + 1, r);
  }

  function Quotient(d: nat, m: nat): (k: nat)
    requires Divides(d, m)
    ensures m == d * k && (m > 0 ==> 0 < k <= m) && (d > 1 && m > 0 ==> k < m)
  {
    var k := m / d;
    QuotientBound(d, m, k);
    k
  }

  lemma QuotientBound(d: nat, m: nat, k: nat)
    requires d > 0 && m % d == 0 && k == m / d
    ensures m == d * k && (m > 0 ==> 0 < k <= m) && (d > 1 && m > 0 ==> k < m)
  {
    assert m == d * k;
    if m > 0 {
      MulLe(k, 1, d);
      if d > 1 {
        MulLe(k, 2, d);
      }
    }
  }

  lemma DividesTrans(d: nat, p: nat, m: nat)
    requires Divides(d, p) && Divides(p, m)
    ensures Divides(d, m)
  {
    var j, k := Quotient(d, p), Quotient(p, m);
    MulAssoc(d, j, k);
    DividesBy(d, m, j * k);
  }

  lemma DivisorBound(d: nat, m: nat)
    requires Divides(d, m) && m > 0
    ensures d <= m
  {
    MulLe(d, 1, Quotient(d, m));
  }

  /** Every number above 1 has a prime factor: its least divisor. */
  lemma LeastFactor(m: nat, d: nat) returns (p: nat)
    requires 1 < d <= m && forall j | 1 < j < d :: !Divides(j, m)
    ensures Prime(p) && Divides(p, m)
    decreases m - d
  {
    DividesBy(m, m, 1);
    if Divides(d, m) {
      p := d;
      forall j | 1 < j < p
        ensures !Divides(j, p)
      {
        if Divides(j, p) {
          DividesTrans(j, p, m);
        }
      }
    } else {
      p := LeastFactor(m, d + 1);
    }
  }

  // ---------------------------------------------------------------- smooth numbers are products

  /** A prime p beyond 11 is invertible modulo 2, 3, 5, 7 and 11. */
  lemma Inverse(p: nat, q: nat) returns (s: nat)
    requires Prime(p) && p > 11 && q in {2, 3, 5, 7, 11}
    ensures (s * p) % q == 1
  {
    var r := p % q;
    assert !Divides(q, p);
    s := if r == 1 then 1 else InverseOf(r, q);
    var k := p / q;
    assert p == k * q + r;
    var t := s * r / q;
    assert s * r == t * q + 1;
    InverseTerms(s, p, q, r, k, t);
    ModIs(s * p, q, s * k + t, 1);
  }

  lemma InverseTerms(s: nat, p: nat, q: nat, r: nat, k: nat, t: nat)
    requires p == k * q + r && s * r == t * q + 1
    ensures s * p == (s * k + t) * q + 1
  {
    MulAdd(s, k * q, r);
    MulAssoc(s, k, q);
    MulAdd(q, s * k, t);
  }

  /** The inverse of r modulo q. */
  function InverseOf(r: nat, q: nat): (s: nat)
    requires q in {2, 3, 5, 7, 11} && 0 < r < q
    ensures (s * r) % q == 1
  {
    if r == 1 then 1
    else if q == 3 then 2
    else if q == 5 then [0, 1, 3, 2, 4][r]
    else if q == 7 then [0, 1, 4, 5, 2, 3, 6][r]
    else [0, 1, 6, 4, 3, 9, 2, 8, 7, 5, 10][r]
  }

  /** Such a prime divides q * x only if it divides x. */
  lemma CancelFactor(p: nat, q: nat, x: nat)
    requires Prime(p) && p > 11 && q in {2, 3, 5, 7, 11} && Divides(p, q * x)
    ensures Divides(p, x)
  {
    var s := Inverse(p, q);
    var k := s * p / q;
    assert s * p == k * q + 1;
    var z := Quotient(p, q * x);
    // x == (s * p - k * q) * x == p * (s * x - k * z)
    MulAdd(x, k * q, 1);
    MulAssoc(k, q, x);
    MulAssoc(k, p, z);
    MulComm(k, p);
    MulAssoc(p, k, z);
    MulComm(s, p);
    MulAssoc(p, s, x);
    assert x == p * (s * x) - p * (k * z);
    MulAdd(p, s * x - k * z, k * z);
    assert x == p * (s * x - k * z);
    if s * x - k * z < 0 {
      MulLe(p, s * x - k * z, -1);
      assert false;
    }
    DividesBy(p, x, s * x - k * z);
  }

  /** One more factor 2, 3, 5, 7 or 11 keeps a number smooth, and only adds that factor. */
  lemma SmoothTimes(q: nat, x: nat)
    requires q in {2, 3, 5, 7, 11} && Smooth(x)
    ensures Smooth(q * x)
  {
    MulLe(x, 1, q);
    assert q * x > 0;
    forall p: nat | Prime(p) && Divides(p, q * x)
      ensures p <= 11
    {
      if p > 11 {
        CancelFactor(p, q, x);
      }
    }
  }

  lemma SmallIsSmooth(m: nat)
    requires 0 < m <= 11
    ensures Smooth(m)
  {
    forall p | Prime(p) && Divides(p, m)
      ensures p <= 11
    {
      DivisorBound(p, m);
    }
  }

  lemma {:induction false} SmoothPow(q: nat, k: nat, x: nat)
    requires q in {2, 3, 5, 7, 11} && Smooth(x)
    ensures Smooth(x * Pow(q, k))
  {
    if k > 0 {
      SmoothPow(q, k - 1, x);
      SmoothTimes(q, x * Pow(q, k - 1));
      MulAssoc(q, x, Pow(q, k - 1));
      MulComm(q, x);
      MulAssoc(x, q, Pow(q, k - 1));
    }
  }

  lemma ProductIsSmooth(a: nat, b: nat, c: nat, d: nat, e: nat)
    ensures Smooth(Product(a, b, c, d, e))
  {
    SmallIsSmooth(1);
    SmoothPow(2, a, 1);
    SmoothPow(3, b, F2(a));
    SmoothPow(5, c, F23(a, b));
    SmoothPow(7, d, F235(a, b, c));
    SmoothPow(11, e, F2357(a, b, c, d));
  }

  /** Moving a factor to the front. */
  lemma MulFront(x: nat, q: nat, y: nat)
    ensures x * (q * y) == q * (x * y)
  {
    MulAssoc(x, q, y);
    MulComm(x, q);
    MulAssoc(q, x, y);
  }

  lemma ProductTimes(q: nat, a: nat, b: nat, c: nat, d: nat, e: nat)
    requires q in {2, 3, 5, 7, 11}
    ensures q * Product(a, b, c, d, e) ==
            Product(if q == 2 then a + 1 else a, if q == 3 then b + 1 else b, if q == 5 then c + 1 else c,
                    if q == 7 then d + 1 else d, if q == 11 then e + 1 else e)
  {
    var two, three, five, seven, eleven := Pow(2, a), Pow(3, b), Pow(5, c), Pow(7, d), Pow(11, e);
    MulAssoc(q, two * three * five * seven, eleven);
    MulAssoc(q, two * three * five, seven);
    MulAssoc(q, two * three, five);
    MulAssoc(q, two, three);
    MulFront(two, 3, three);
    MulFront(two * three, 5, five);
    MulFront(two * three * five, 7, seven);
    MulFront(two * three * five * seven, 11, eleven);
  }

  /** A smooth number is a product of powers of 2, 3, 5, 7 and 11. */
  lemma SmoothIsProduct(m: nat) returns (a: nat, b: nat, c: nat, d: nat, e: nat)
    requires Smooth(m)
    ensures m == Product(a, b, c, d, e)
  {
    a, b, c, d, e := 0, 0, 0, 0, 0;
    if m > 1 {
      var q := LeastFactor(m, 2);
      SmallPrimes(q);
      var k := Quotient(q, m);
      forall p | Prime(p) && Divides(p, k)
        ensures p <= 11
      {
        MulComm(q, k);
        DividesBy(k, m, q);
        DividesTrans(p, k, m);
      }
      a, b, c, d, e := SmoothIsProduct(k);
      ProductTimes(q, a, b, c, d, e);
      if q == 2 { a := a + 1; }
      if q == 3 { b := b + 1; }
      if q == 5 { c := c + 1; }
      if q == 7 { d := d + 1; }
      if q == 11 { e := e + 1; }
    }
  }

  lemma SmallPrimes(q: nat)
    requires Prime(q) && q <= 11
    ensures q in {2, 3, 5, 7, 11}
  {
    assert Divides(2, 4) && Divides(2, 6) && Divides(2, 8) && Divides(3, 9) && Divides(2, 10);
  }

  // ---------------------------------------------------------------- the search

  // `best` is not above any x * 11^e >= n, any x * 7^d * 11^e >= n, and so on.

  ghost predicate Below11(x: nat, n: nat, best: nat)
  {
    forall e: nat :: x * Pow(11, e) >= n ==> best <= x * Pow(11, e)
  }

  ghost predicate Below7(x: nat, n: nat, best: nat)
  {
    forall d: nat :: Below11(x * Pow(7, d), n, best)
  }

  ghost predicate Below5(x: nat, n: nat, best: nat)
  {
    forall c: nat :: Below7(x * Pow(5, c), n, best)
  }

  ghost predicate Below3(x: nat, n: nat, best: nat)
  {
    forall b: nat :: Below5(x * Pow(3, b), n, best)
  }

  ghost predicate Below2(n: nat, best: nat)
  {
    forall a: nat :: Below3(F2(a), n, best)
  }

  lemma {:induction false} PowGrows(q: nat, i: nat, j: nat)
    requires q > 0 && i <= j
    ensures Pow(q, i) <= Pow(q, j)
    decreases j
  {
    if i < j {
      PowGrows(q, i, j - 1);
      MulLe(Pow(q, j - 1), 1, q);
    }
  }

  lemma TimesPow(x: nat, q: nat, i: nat, j: nat)
    requires q > 0 && i <= j
    ensures x * Pow(q, i) <= x * Pow(q, j) && x <= x * Pow(q, j)
  {
    PowGrows(q, i, j);
    PowGrows(q, 0, j);
    MulLe(x, Pow(q, i), Pow(q, j));
    MulLe(x, 1, Pow(q, j));
  }

  /** Where the search starts beyond `best`, there is nothing left to find. */
  lemma Beyond(x: nat, n: nat, best: nat)
    requires x >= best
    ensures Below11(x, n, best) && Below7(x, n, best) && Below5(x, n, best) && Below3(x, n, best)
  {
    forall y: nat | y >= best
      ensures Below11(y, n, best)
    {
      forall e: nat ensures y * Pow(11, e) >= best { TimesPow(y, 11, 0, e); }
    }
    forall y: nat | y >= best
      ensures Below7(y, n, best)
    {
      forall d: nat ensures y * Pow(7, d) >= best { TimesPow(y, 7, 0, d); }
    }
    forall y: nat | y >= best
      ensures Below5(y, n, best)
    {
      forall c: nat ensures y * Pow(5, c) >= best { TimesPow(y, 5, 0, c); }
    }
    forall b: nat ensures x * Pow(3, b) >= best { TimesPow(x, 3, 0, b); }
  }

  /** Everything the five loops have visited, when they stand at these exponents. */
  ghost predicate Visited(a: nat, b: nat, c: nat, d: nat, e: nat, n: nat, best: nat)
  {
    && (forall i: nat | i < a :: Below3(F2(i), n, best))
    && (forall i: nat | i < b :: Below5(F23(a, i), n, best))
    && (forall i: nat | i < c :: Below7(F235(a, b, i), n, best))
    && (forall i: nat | i < d :: Below11(F2357(a, b, c, i), n, best))
    && (forall i: nat | i < e && Product(a, b, c, d, i) >= n :: best <= Product(a, b, c, d, i))
  }

  lemma LowerBest(a: nat, b: nat, c: nat, d: nat, e: nat, n: nat, best: nat, best': nat)
    requires Visited(a, b, c, d, e, n, best) && best' <= best
    ensures Visited(a, b, c, d, e, n, best')
  {
    hide F2;
    hide F23;
    hide F235;
    hide F2357;
    forall x: nat | Below11(x, n, best) ensures Below11(x, n, best') {}
    forall x: nat | Below7(x, n, best) ensures Below7(x, n, best') {}
    forall x: nat | Below5(x, n, best) ensures Below5(x, n, best') {}
    forall x: nat | Below3(x, n, best) ensures Below3(x, n, best') {}
  }

  // Leaving a loop: its exponents below the bound have been visited, and from the bound on
  // every product is at least `best`.

  lemma Done11(x: nat, e: nat, n: nat, best: nat)
    requires forall i: nat | i < e && x * Pow(11, i) >= n :: best <= x * Pow(11, i)
    requires x * Pow(11, e) >= best
    ensures Below11(x, n, best)
  {
    forall i: nat | x * Pow(11, i) >= n
      ensures best <= x * Pow(11, i)
    {
      if i >= e {
        TimesPow(x, 11, e, i);
      }
    }
  }

  lemma Done7(x: nat, d: nat, n: nat, best: nat)
    requires forall i: nat | i < d :: Below11(x * Pow(7, i), n, best)
    requires x * Pow(7, d) >= best
    ensures Below7(x, n, best)
  {
    hide Below11;
    forall i: nat
      ensures Below11(x * Pow(7, i), n, best)
    {
      if i >= d {
        TimesPow(x, 7, d, i);
        Beyond(x * Pow(7, i), n, best);
      }
    }
  }

  lemma Done5(x: nat, c: nat, n: nat, best: nat)
    requires forall i: nat | i < c :: Below7(x * Pow(5, i), n, best)
    requires x * Pow(5, c) >= best
    ensures Below5(x, n, best)
  {
    hide Below7;
    hide Below11;
    forall i: nat
      ensures Below7(x * Pow(5, i), n, best)
    {
      if i >= c {
        TimesPow(x, 5, c, i);
        Beyond(x * Pow(5, i), n, best);
      }
    }
  }

  lemma Done3(x: nat, b: nat, n: nat, best: nat)
    requires forall i: nat | i < b :: Below5(x * Pow(3, i), n, best)
    requires x * Pow(3, b) >= best
    ensures Below3(x, n, best)
  {
    hide Below5;
    hide Below7;
    hide Below11;
    forall i: nat
      ensures Below5(x * Pow(3, i), n, best)
    {
      if i >= b {
        TimesPow(x, 3, b, i);
        Beyond(x * Pow(3, i), n, best);
      }
    }
  }

  lemma Exit11(a: nat, b: nat, c: nat, d: nat, e: nat, n: nat, best: nat)
    requires Visited(a, b, c, d, e, n, best) && Product(a, b, c, d, e) >= best
    ensures Visited(a, b, c, d + 1, 0, n, best)
  {
    hide Below11;
    hide Below7;
    hide Below5;
    hide Below3;
    hide F2357;
    forall i: nat | i < e && F2357(a, b, c, d) * Pow(11, i) >= n
      ensures best <= F2357(a, b, c, d) * Pow(11, i)
    {
      assert best <= Product(a, b, c, d, i);
    }
    Done11(F2357(a, b, c, d), e, n, best);
  }

  lemma Exit7(a: nat, b: nat, c: nat, d: nat, n: nat, best: nat)
    requires Visited(a, b, c, d, 0, n, best) && F2357(a, b, c, d) >= best
    ensures Visited(a, b, c + 1, 0, 0, n, best)
  {
    hide Below11;
    hide Below7;
    hide Below5;
    hide Below3;
    hide F235;
    forall i: nat | i < d
      ensures Below11(F235(a, b, c) * Pow(7, i), n, best)
    {
      assert Below11(F2357(a, b, c, i), n, best);
    }
    Done7(F235(a, b, c), d, n, best);
  }

  lemma Exit5(a: nat, b: nat, c: nat, n: nat, best: nat)
    requires Visited(a, b, c, 0, 0, n, best) && F235(a, b, c) >= best
    ensures Visited(a, b + 1, 0, 0, 0, n, best)
  {
    hide Below11;
    hide Below7;
    hide Below5;
    hide Below3;
    hide F23;
    forall i: nat | i < c
      ensures Below7(F23(a, b) * Pow(5, i), n, best)
    {
      assert Below7(F235(a, b, i), n, best);
    }
    Done5(F23(a, b), c, n, best);
  }

  lemma Exit3(a: nat, b: nat, n: nat, best: nat)
    requires Visited(a, b, 0, 0, 0, n, best) && F23(a, b) >= best
    ensures Visited(a + 1, 0, 0, 0, 0, n, best)
  {
    hide Below11;
    hide Below7;
    hide Below5;
    hide Below3;
    hide F2;
    forall i: nat | i < b
      ensures Below5(F2(a) * Pow(3, i), n, best)
    {
      assert Below5(F23(a, i), n, best);
    }
    Done3(F2(a), b, n, best);
  }

  lemma Exit2(a: nat, n: nat, best: nat)
    requires Visited(a, 0, 0, 0, 0, n, best) && F2(a) >= best
    ensures Below2(n, best)
  {
    hide Below11;
    hide Below7;
    hide Below5;
    hide Below3;
    forall i: nat
      ensures Below3(F2(i), n, best)
    {
      if i >= a {
        PowGrows(2, a, i);
        Beyond(F2(i), n, best);
      }
    }
  }

  lemma NextPow(x: nat, q: nat, k: nat)
    ensures x * Pow(q, k) * q == x * Pow(q, k + 1) && x * Pow(q, 0) == x
  {
    MulComm(Pow(q, k), q);
    MulAssoc(x, Pow(q, k), q);
  }

  /** Some power of two lies in [n, 2n), so the initial bound never survives. */
  lemma PowerOfTwo(n: nat, k: nat) returns (j: nat)
    requires 0 < n && Pow(2, k) < 2 * n
    ensures n <= Pow(2, j) < 2 * n
    decreases 2 * n - Pow(2, k)
  {
    if Pow(2, k) >= n {
      j := k;
    } else {
      j := PowerOfTwo(n, k + 1);
    }
  }

  lemma LeastSmooth(n: nat, best: nat)
    requires 0 < n <= best && Below2(n, best) && (best == 2 * n || Smooth(best))
    ensures Smooth(best) && forall m: nat | Smooth(m) && m >= n :: best <= m
  {
    forall a: nat, b: nat, c: nat, d: nat, e: nat | Product(a, b, c, d, e) >= n
      ensures best <= Product(a, b, c, d, e)
    {
      assert Below3(F2(a), n, best);
      assert Below5(F23(a, b), n, best);
      assert Below7(F235(a, b, c), n, best);
      assert Below11(F2357(a, b, c, d), n, best);
    }
    var j := PowerOfTwo(n, 0);
    assert Product(j, 0, 0, 0, 0) == Pow(2, j);
    forall m: nat | Smooth(m) && m >= n
      ensures best <= m
    {
      var a, b, c, d, e := SmoothIsProduct(m);
    }
  }

  /** fft_next_good_size, for sizes above 0. */
  method FftNextGoodSize(n: int) returns (best: int)
    ensures n > 0 ==> best >= n && Smooth(best) && forall m: nat | Smooth(m) && m >= n :: best <= m
    ensures n <= 6 ==> best == n
  {
    hide Visited;
    hide Smooth;
    if n <= 6 {
      if n > 0 {
        SmallIsSmooth(n);
      }
      return n;
    }
    best := 2 * n;
    var f2 := 1;
    ghost var a := 0;
    VisitedNothing(n, best);
    while f2 < best
      invariant f2 == F2(a) && n <= best <= 2 * n && (best == 2 * n || Smooth(best))
      invariant Visited(a, 0, 0, 0, 0, n, best)
      decreases best - f2
    {
      var f23 := f2;
      ghost var b := 0;
      NextPow(f2, 3, 0);
      ghost var best2 := best;
      while f23 < best
        invariant f23 == F23(a, b)
        invariant n <= best <= best2 && (best == 2 * n || Smooth(best))
        invariant Visited(a, b, 0, 0, 0, n, best)
        decreases best - f23
      {
        ghost var best3 := best;
        var f235 := f23;
        ghost var c := 0;
        NextPow(f23, 5, 0);
        while f235 < best
          invariant f235 == F235(a, b, c) && 0 < f235
          invariant n <= best <= best3 && (best == 2 * n || Smooth(best))
          invariant Visited(a, b, c, 0, 0, n, best)
          decreases best - f235
        {
          var f2357 := f235;
          ghost var d := 0;
          NextPow(f235, 7, 0);
          ghost var best1 := best;
          while f2357 < best
            invariant f2357 == F2357(a, b, c, d) && 0 < f2357
            invariant n <= best <= best1 && (best == 2 * n || Smooth(best))
            invariant Visited(a, b, c, d, 0, n, best)
            decreases best - f2357
          {
            var f235711 := f2357;
            ghost var e := 0;
            NextPow(f2357, 11, 0);
            ghost var best2 := best;
            while f235711 < best
              invariant f235711 == Product(a, b, c, d, e) && 0 < f235711
              invariant n <= best <= best2 && (best == 2 * n || Smooth(best))
              invariant Visited(a, b, c, d, e, n, best)
              decreases best - f235711
            {
              ghost var before := best;
              best := if f235711 >= n then f235711 else best;
              OneVisited(a, b, c, d, e, n, before, best, f235711);
              f235711 := f235711 * 11;
              NextPow(f2357, 11, e);
              e := e + 1;
            }
            Exit11(a, b, c, d, e, n, best);
            f2357 := f2357 * 7;
            NextPow(f235, 7, d);
            d := d + 1;
          }
          Exit7(a, b, c, d, n, best);
          f235 := f235 * 5;
          NextPow(f23, 5, c);
          c := c + 1;
        }
        Exit5(a, b, c, n, best);
        f23 := f23 * 3;
        NextPow(f2, 3, b);
        b := b + 1;
      }
      Exit3(a, b, n, best);
      f2 := f2 * 2;
      a := a + 1;
    }
    Exit2(a, n, best);
    LeastSmooth(n, best);
  }

  lemma VisitedNothing(n: nat, best: nat)
    ensures Visited(0, 0, 0, 0, 0, n, best)
  {
  }

  lemma OneVisited(a: nat, b: nat, c: nat, d: nat, e: nat, n: nat, before: nat, best: nat, f: nat)
    requires Visited(a, b, c, d, e, n, before) && f < before
    requires f == Product(a, b, c, d, e)
    requires best == if f >= n then f else before
    ensures Visited(a, b, c, d, e + 1, n, best) && (best != before ==> Smooth(best))
  {
    LowerBest(a, b, c, d, e, n, before, best);
    ProductIsSmooth(a, b, c, d, e);
  }
}
