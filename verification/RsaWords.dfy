/**
 Multi-word arithmetic of panda/crypto/rsa.c: subtraction, comparison, and Montgomery
 multiplication on little-endian arrays of 32-bit words, for any number of words.
 */
module RsaWords {
  import opened Arith

  const BASE: nat := 0x1_0000_0000

  type word = x: int | 0 <= x < BASE

  /** The number a little-endian word sequence stands for. */
  function Value(s: seq<word>): (v: nat)
  {
    if s == [] then 0 else s[0] + BASE * Value(s[1..])
  }

  lemma {:induction false} ValueSnoc(s: seq<word>, x: word)
    ensures Value(s + [x]) == Value(s) + Pow(BASE, |s|) * x
  {
    if s == [] {
    } else {
      ValueSnoc(s[1..], x);
      assert (s + [x])[1..] == s[1..] + [x];
      var p := Pow(BASE, |s| - 1);
      assert BASE * (p * x) == (BASE * p) * x;
    }
  }

  lemma {:induction false} ValueBound(s: seq<word>)
    ensures Value(s) < Pow(BASE, |s|)
  {
    if s != [] {
      ValueBound(s[1..]);
    }
  }

  lemma PrefixSnoc(s: seq<word>, i: nat)
    requires i < |s|
    ensures Value(s[..i + 1]) == Value(s[..i]) + Pow(BASE, i) * s[i]
  {
    ValueSnoc(s[..i], s[i]);
    assert s[..i + 1] == s[..i] + [s[i]];
  }

  lemma MulGap(p: nat, x: int, y: int)
    requires x < y
    ensures p * x + p <= p * y
  {
    MulLe(p, x + 1, y);
    MulAdd(p, x, 1);
  }

  /** The larger of two equally long numbers is decided by the highest word that differs. */
  lemma HighWordDecides(a: seq<word>, b: seq<word>, i: nat)
    requires |a| == |b| && i < |a| && a[i + 1..] == b[i + 1..] && a[i] < b[i]
    ensures Value(a) < Value(b)
  {
    PrefixSnoc(a, i);
    PrefixSnoc(b, i);
    ValueBound(a[..i]);
    MulGap(Pow(BASE, i), a[i], b[i]);
    SameTail(a, b, i + 1);
  }

  lemma {:induction false} SameTail(a: seq<word>, b: seq<word>, i: nat)
    requires |a| == |b| && i <= |a| && a[i..] == b[i..]
    ensures Value(a) - Value(b) == Value(a[..i]) - Value(b[..i])
    decreases |a| - i
  {
    if i == |a| {
      assert a[..i] == a && b[..i] == b;
    } else {
      assert a[i..][1..] == a[i + 1..] && b[i..][1..] == b[i + 1..];
      assert a[i..][0] == a[i] && b[i..][0] == b[i];
      SameTail(a, b, i + 1);
      PrefixSnoc(a, i);
      PrefixSnoc(b, i);
    }
  }

  // ---------------------------------------------------------------- subM and geM

  /** One word of the subtraction: the borrow moves up one place. */
  lemma SubStep(va: int, vn: int, v: int, borrow: int, p: nat, a: word, n: word, t: int)
    requires v == va - vn - borrow * p && t == borrow + a - n
    ensures v + p * (t % BASE) == (va + p * a) - (vn + p * n) - (t / BASE) * (BASE * p)
  {
    var h := t / BASE;
    assert t == BASE * h + t % BASE;
    MulAdd(p, BASE * h, t % BASE);
    MulAssoc(p, BASE, h);
    MulComm(p * BASE, h);
    MulAdd(p, t, n);
    MulAdd(p, borrow, a);
  }

  /** a[] -= n[], modulo BASE^len. */
  method SubM(n: seq<word>, a: array<word>)
    requires a.Length == |n|
    modifies a
    ensures Value(a[..]) == old(Value(a[..])) - Value(n) + (if old(Value(a[..])) < Value(n) then Pow(BASE, |n|) else 0)
  {
    var borrow: int := 0;
    for i := 0 to |n|
      invariant -1 <= borrow <= 0
      invariant a[i..] == old(a[i..])
      invariant Value(a[..i]) == Value(old(a[..i])) - Value(n[..i]) - borrow * Pow(BASE, i)
    {
      ghost var before := a[..i];
      var t := borrow + a[i] - n[i];
      PrefixSnoc(old(a[..]), i);
      PrefixSnoc(n, i);
      assert old(a[..])[..i] == old(a[..i]) && old(a[..])[..i + 1] == old(a[..i + 1]);
      assert a[i] == a[i..][0] == old(a[i..])[0] == old(a[i]);
      SubStep(Value(old(a[..i])), Value(n[..i]), Value(before), borrow, Pow(BASE, i), a[i], n[i], t);
      a[i] := t % BASE;
      borrow := t / BASE;
      assert a[..i] == before;
      PrefixSnoc(a[..], i);
      assert a[..][..i] == a[..i] && a[..][..i + 1] == a[..i + 1];
    }
    assert a[..|n|] == a[..] && old(a[..|n|]) == old(a[..]) && n[..|n|] == n;
    ValueBound(a[..]);
    ValueBound(old(a[..]));
    ValueBound(n);
  }

  /** a[] >= n[]. */
  method GeM(n: seq<word>, a: array<word>) returns (r: bool)
    requires a.Length == |n|
    ensures r <==> Value(a[..]) >= Value(n)
  {
    var i := |n|;
    while i > 0
      invariant 0 <= i <= |n| && a[i..] == n[i..]
    {
      i := i - 1;
      assert a[..][i + 1..] == a[i + 1..];
      if a[i] < n[i] {
        HighWordDecides(a[..], n, i);
        return false;
      }
      if a[i] > n[i] {
        HighWordDecides(n, a[..], i);
        return true;
      }
    }
    assert a[..] == n;
    return true;
  }

  // ---------------------------------------------------------------- montMulAdd

  /** The numbers a Montgomery step works on, and what must hold of them: the lowest word of
      the modulus times n0inv is -1 modulo BASE. */
  predicate InverseOk(n: seq<word>, n0inv: word)
  {
    |n| > 0 && (n0inv * n[0] + 1) % BASE == 0
  }

  /** The multiple of n that clears the lowest word. */
  lemma LowWordClears(x: word, n0: word, n0inv: word, d: word)
    requires (n0inv * n0 + 1) % BASE == 0 && d == (x * n0inv) % BASE
    ensures (d * n0 + x) % BASE == 0
  {
    var q, k := (x * n0inv) / BASE, (n0inv * n0 + 1) / BASE;
    assert d == x * n0inv - q * BASE;
    assert n0inv * n0 == k * BASE - 1;
    calc {
      d * n0 + x;
    ==
      (x * n0inv - q * BASE) * n0 + x;
    == { MulSub(x * n0inv, q * BASE, n0); }
      (x * n0inv) * n0 - (q * BASE) * n0 + x;
    == { assert (x * n0inv) * n0 == x * (n0inv * n0); }
      x * (k * BASE - 1) - (q * BASE) * n0 + x;
    == { assert x * (k * BASE - 1) == (x * k) * BASE - x; assert (q * BASE) * n0 == (q * n0) * BASE; }
      (x * k - q * n0) * BASE;
    }
    MultipleMod(x * k - q * n0);
  }

  lemma MulSub(a: int, b: int, c: int)
    ensures (a - b) * c == a * c - b * c
  {
  }

  lemma MultipleMod(q: int)
    ensures (q * BASE) % BASE == 0
  {
  }

  /** Two 64-bit accumulators never overflow. */
  lemma NoOverflow(hi: int, x: word, y: word, z: word)
    requires 0 <= hi < BASE
    ensures 0 <= hi + x * y + z < BASE * BASE
  {
    var m := BASE - 1;
    assert x * y <= m * m by {
      assert x * y <= m * y by { MulLe(y, x, m); }
      assert m * y <= m * m;
    }
    assert 0 <= x * y;
  }

  /** One word of montMulAdd. */
  lemma MontStep(v: int, hi: int, sum: int, p: nat, c: word, a: word, b: word, d: word, n: word, x: int, y: int)
    requires BASE * v + hi * (BASE * p) == sum
    requires x + y - x % BASE == hi + a * b + c + d * n
    ensures BASE * (v + p * (y % BASE)) + (x / BASE + y / BASE) * (BASE * (BASE * p))
         == sum + (BASE * p) * c + a * ((BASE * p) * b) + d * ((BASE * p) * n)
  {
    var q := BASE * p;
    var s := x / BASE + y / BASE;
    assert x == BASE * (x / BASE) + x % BASE && y == BASE * (y / BASE) + y % BASE;
    calc {
      BASE * (v + p * (y % BASE)) + s * (BASE * q);
    == { assert BASE * (p * (y % BASE)) == q * (y % BASE); assert s * (BASE * q) == q * (BASE * s); }
      BASE * v + q * (y % BASE) + q * (BASE * s);
    == { assert q * (y % BASE) + q * (BASE * s) == q * (y % BASE + BASE * s); }
      BASE * v + q * (hi + a * b + c + d * n);
    == { Distribute4(q, hi, a * b, c, d * n); }
      BASE * v + q * hi + q * (a * b) + q * c + q * (d * n);
    == { assert q * (a * b) == a * (q * b); assert q * (d * n) == d * (q * n); }
      sum + q * c + a * (q * b) + d * (q * n);
    }
  }

  lemma Distribute4(q: int, w: int, x: int, y: int, z: int)
    ensures q * (w + x + y + z) == q * w + q * x + q * y + q * z
  {
  }

  /** What is left after the last word: the sum, divided by BASE, and a carry of 0 or 1. */
  lemma LastWord(v: int, t: int, p: nat, r: nat, sum: int)
    requires r == BASE * p && BASE * v + t * r == sum
    ensures BASE * (v + p * (t % BASE) + (t / BASE) * r) == sum
  {
    assert t == BASE * (t / BASE) + t % BASE;
    assert t * r == (BASE * (t / BASE)) * r + (t % BASE) * r;
    assert (BASE * (t / BASE)) * r == BASE * ((t / BASE) * r);
    assert (t % BASE) * r == BASE * (p * (t % BASE));
  }

  /** The sum of one Montgomery step stays below BASE * (b + n). */
  lemma StepBound(c: int, a: word, b: nat, d: word, n: nat)
    requires c < b + n
    ensures c + a * b + d * n < BASE * (b + n)
  {
    MulLe(b, a, BASE - 1);
    MulLe(n, d, BASE - 1);
    assert (BASE - 1) * b + (BASE - 1) * n + (b + n) == BASE * (b + n);
  }

  lemma BelowQuotient(x: int, y: int)
    requires BASE * x < BASE * y
    ensures x < y
  {
  }

  /** The carry is 0 or 1, and with it the result is the whole sum divided by BASE. */
  lemma FinishBound(v: int, t: nat, p: nat, r: nat, c: int, a: word, b: nat, d: word, n: nat, top: int)
    requires t < 2 * BASE && r == BASE * p && c < b + n && top == v + p * (t % BASE)
    requires BASE * v + t * r == c + a * b + d * n
    ensures t / BASE == 0 || t / BASE == 1
    ensures var all := top + (if t / BASE == 0 then 0 else r);
            BASE * all == c + a * b + d * n && all < b + n
  {
    LastWord(v, t, p, r, c + a * b + d * n);
    StepBound(c, a, b, d, n);
    BelowQuotient(top + (t / BASE) * r, b + n);
  }

  /** What montMulAdd makes of c and b, with the multiple q of n added: (c + a * b) / BASE modulo n, with at
      most one n too many, and none taken away when nothing can overflow. */
  predicate IsRow(n: seq<word>, c: nat, a: word, b: nat, c': nat, q: int)
  {
    && BASE * c' == c + a * b + q * Value(n)
    && c' < b + Value(n) && q < BASE && (b + Value(n) <= Pow(BASE, |n|) ==> q >= 0)
  }

  /** After i words: the words of the result so far, and the carry into the next. */
  predicate IsPart(n: seq<word>, c0: seq<word>, a: word, b: seq<word>, d: word, i: nat, v: seq<word>, hi: int)
    requires |c0| == |b| == |n| && i <= |n|
  {
    BASE * Value(v) + hi * Pow(BASE, i) == Value(c0[..i]) + a * Value(b[..i]) + d * Value(n[..i])
  }

  /** c[] := (c[] + a * b[]) / BASE modulo n[], for any n[], n0inv and c[] that can come up. The ghost
      result is the multiple of n[] that was added. */
  method MontMulAdd(n: seq<word>, n0inv: word, c: array<word>, a: word, b: array<word>) returns (ghost q: int)
    requires |n| > 0 && c.Length == b.Length == |n| && b != c
    modifies c
    ensures InverseOk(n, n0inv) && old(Value(c[..])) < Value(b[..]) + Value(n) ==>
              IsRow(n, old(Value(c[..])), a, Value(b[..]), Value(c[..]), q)
  {
    hide Pow;
    hide Value;
    hide InverseOk;
    hide IsRow;
    hide IsPart;
    ghost var c0, bs := c[..], b[..];
    NoOverflow(0, a, b[0], c[0]);
    var x := a * b[0] + c[0];
    var d := (x % BASE * n0inv) % BASE;
    NoOverflow(0, d, n[0], x % BASE);
    var y := d * n[0] + x % BASE;
    var i := 1;
    if InverseOk(n, n0inv) {
      FirstPart(c0, bs, n, n0inv, a, d, x, y);
    }
    assert c[..0] == [];
    while i < |n|
      invariant 1 <= i <= |n|
      invariant 0 <= x < BASE * BASE && 0 <= y < BASE * BASE
      invariant c[i - 1..] == c0[i - 1..]
      invariant InverseOk(n, n0inv) ==> IsPart(n, c0, a, bs, d, i, c[..i - 1], x / BASE + y / BASE)
    {
      ghost var v, hi := c[..i - 1], x / BASE + y / BASE;
      assert c[i] == c[i - 1..][1] == c0[i - 1..][1] == c0[i];
      NoOverflow(x / BASE, a, b[i], c[i]);
      x := x / BASE + a * b[i] + c[i];
      NoOverflow(y / BASE, d, n[i], x % BASE);
      y := y / BASE + d * n[i] + x % BASE;
      if InverseOk(n, n0inv) {
        NextPart(c0, bs, n, i, a, d, v, hi, x, y);
      }
      c[i - 1] := y % BASE;
      assert c[..i] == v + [y % BASE];
      i := i + 1;
    }
    q := MontFinish(n, c, x / BASE + y / BASE, c0, a, bs, d, InverseOk(n, n0inv) && Value(c0) < Value(bs) + Value(n));
  }

  lemma FirstPart(c: seq<word>, b: seq<word>, n: seq<word>, n0inv: word, a: word, d: word, x: int, y: int)
    requires |c| == |b| == |n| && InverseOk(n, n0inv)
    requires x == a * b[0] + c[0] && d == (x % BASE * n0inv) % BASE && y == d * n[0] + x % BASE
    ensures IsPart(n, c, a, b, d, 1, [], x / BASE + y / BASE)
  {
    LowWordClears(x % BASE, n[0], n0inv, d);
    FirstStep(c, b, n, a, d, x, y);
  }

  lemma NextPart(c: seq<word>, b: seq<word>, n: seq<word>, i: nat, a: word, d: word, v: seq<word>, hi: int, x: int,
                 y: int)
    requires |c| == |b| == |n| && 1 <= i < |n| && |v| == i - 1 && IsPart(n, c, a, b, d, i, v, hi)
    requires x + y - x % BASE == hi + a * b[i] + c[i] + d * n[i]
    ensures IsPart(n, c, a, b, d, i + 1, v + [y % BASE], x / BASE + y / BASE)
  {
    hide Pow;
    hide Value;
    MiddleStep(c, b, n, i, a, d, Value(v), hi, x, y);
    ValueSnoc(v, y % BASE);
  }

  /** The end of montMulAdd: store the last word, and subtract n[] once if there is a carry. */
  method MontFinish(n: seq<word>, c: array<word>, t: nat, ghost c0: seq<word>, ghost a: word, ghost b: seq<word>,
                    ghost d: word, ghost good: bool)
    returns (ghost q: int)
    requires c.Length == |n| == |c0| == |b| > 0 && t < 2 * BASE
    requires good ==> IsPart(n, c0, a, b, d, |n|, c[..|n| - 1], t) && Value(c0) < Value(b) + Value(n)
    modifies c
    ensures good ==> IsRow(n, Value(c0), a, Value(b), Value(c[..]), q)
  {
    ghost var v, r := c[..|n| - 1], Pow(BASE, |n|);
    ghost var sum := Value(c0) + a * Value(b) + d * Value(n);
    c[|n| - 1] := t % BASE;
    ValueSnoc(v, t % BASE);
    assert c[..] == v + [t % BASE];
    ghost var top := Value(c[..]);
    if good {
      assert c0[..|n|] == c0 && b[..|n|] == b && n[..|n|] == n;
      FinishBound(Value(v), t, Pow(BASE, |n| - 1), r, Value(c0), a, Value(b), d, Value(n), top);
    }
    q := d;
    if t / BASE != 0 {
      ValueBound(b);
      SubM(n, c);
      q := d - BASE;
      if good {
        OneTooMany(top + r, Value(c[..]), sum, d, Value(n));
      }
    }
  }

  lemma FirstStep(c: seq<word>, b: seq<word>, n: seq<word>, a: word, d: word, x: int, y: int)
    requires |c| == |b| == |n| > 0
    requires x == a * b[0] + c[0] && y == d * n[0] + x % BASE && y % BASE == 0
    ensures BASE * Value([]) + (x / BASE + y / BASE) * Pow(BASE, 1)
            == Value(c[..1]) + a * Value(b[..1]) + d * Value(n[..1])
  {
    assert c[..1] == [c[0]] && b[..1] == [b[0]] && n[..1] == [n[0]];
  }

  lemma MiddleStep(c: seq<word>, b: seq<word>, n: seq<word>, i: nat, a: word, d: word, v: int, hi: int, x: int, y: int)
    requires |c| == |b| == |n| && 1 <= i < |n|
    requires BASE * v + hi * Pow(BASE, i) == Value(c[..i]) + a * Value(b[..i]) + d * Value(n[..i])
    requires x + y - x % BASE == hi + a * b[i] + c[i] + d * n[i]
    ensures BASE * (v + Pow(BASE, i - 1) * (y % BASE)) + (x / BASE + y / BASE) * Pow(BASE, i + 1)
         == Value(c[..i + 1]) + a * Value(b[..i + 1]) + d * Value(n[..i + 1])
  {
    var q := Pow(BASE, i);
    PrefixSnoc(c, i);
    PrefixSnoc(b, i);
    PrefixSnoc(n, i);
    MontStep(v, hi, Value(c[..i]) + a * Value(b[..i]) + d * Value(n[..i]), Pow(BASE, i - 1), c[i], a, b[i], d, n[i], x,
        y);
    assert a * (Value(b[..i]) + q * b[i]) == a * Value(b[..i]) + a * (q * b[i]);
    assert d * (Value(n[..i]) + q * n[i]) == d * Value(n[..i]) + d * (q * n[i]);
  }

  lemma OneTooMany(high: int, low: int, sum: int, d: int, n: int)
    requires low == high - n && BASE * high == sum
    ensures BASE * low == sum - d * n + (d - BASE) * n
  {
    assert (d - BASE) * n == d * n - BASE * n;
  }

  // ---------------------------------------------------------------- montMul

  /** What montMul makes of a and b: a * b / R modulo n, for R = BASE^len, below R and with at most one b
      too many. The multiple of n that was added is below R, and not negative when nothing can overflow. */
  predicate IsProduct(n: seq<word>, a: nat, b: nat, c: nat, q: int)
  {
    && Pow(BASE, |n|) * c == a * b + q * Value(n)
    && c < Pow(BASE, |n|) && c < b + Value(n)
    && q < Pow(BASE, |n|) && (b + Value(n) <= Pow(BASE, |n|) ==> q >= 0)
  }

  /** c[] := a[] * b[] / BASE^len modulo n[], for any n[] and n0inv that can come up. */
  method MontMul(n: seq<word>, n0inv: word, c: array<word>, a: array<word>, b: array<word>) returns (ghost q: int)
    requires c.Length == a.Length == b.Length == |n| && a != c && b != c
    modifies c
    ensures InverseOk(n, n0inv) ==> IsProduct(n, Value(a[..]), Value(b[..]), Value(c[..]), q)
  {
    for i := 0 to |n|
      invariant forall j | 0 <= j < i :: c[j] == 0
    {
      c[i] := 0;
    }
    ZeroValue(c[..]);
    if InverseOk(n, n0inv) {
      OddIsPositive(n, n0inv);
    }
    q := 0;
    assert a[..0] == [];
    for i := 0 to |n|
      invariant InverseOk(n, n0inv) ==>
                  && Value(c[..]) < Value(b[..]) + Value(n)
                  && Pow(BASE, i) * Value(c[..]) == Value(a[..i]) * Value(b[..]) + q * Value(n)
                  && q < Pow(BASE, i) && (Value(b[..]) + Value(n) <= Pow(BASE, |n|) ==> q >= 0)
    {
      ghost var c0 := Value(c[..]);
      ghost var d := MontMulAdd(n, n0inv, c, a[i], b);
      if InverseOk(n, n0inv) {
        NextRow(n, a[..], i, Value(b[..]), c0, Value(c[..]), d, q);
      }
      q := q + Pow(BASE, i) * d;
    }
    assert a[..|n|] == a[..];
    ValueBound(c[..]);
  }

  lemma NextRow(n: seq<word>, a: seq<word>, i: nat, b: nat, c0: nat, c1: nat, d: int, q: int)
    requires i < |n| == |a| && IsRow(n, c0, a[i], b, c1, d)
    requires Pow(BASE, i) * c0 == Value(a[..i]) * b + q * Value(n)
    requires q < Pow(BASE, i) && (b + Value(n) <= Pow(BASE, |n|) ==> q >= 0)
    ensures var q' := q + Pow(BASE, i) * d;
            && Pow(BASE, i + 1) * c1 == Value(a[..i + 1]) * b + q' * Value(n)
            && q' < Pow(BASE, i + 1) && (b + Value(n) <= Pow(BASE, |n|) ==> q' >= 0)
  {
    PrefixSnoc(a, i);
    assert a[..i + 1] == a[..i] + [a[i]];
    RowStep(Pow(BASE, i), c0, c1, Value(a[..i]), a[i], b, d, q, Value(n));
    QuotientRange(Pow(BASE, i), q, d);
  }

  lemma {:induction false} ZeroValue(s: seq<word>)
    requires forall i | 0 <= i < |s| :: s[i] == 0
    ensures Value(s) == 0
  {
    if s != [] {
      ZeroValue(s[1..]);
    }
  }

  lemma OddIsPositive(n: seq<word>, n0inv: word)
    requires InverseOk(n, n0inv)
    ensures Value(n) > 0
  {
    if n[0] == 0 {
      assert false;
    }
  }

  lemma QuotientRange(p: nat, q: int, d: int)
    requires q < p && d < BASE
    ensures q + p * d < BASE * p && (q >= 0 && d >= 0 ==> q + p * d >= 0)
  {
    MulLe(p, d, BASE - 1);
    MulAdd(p, BASE - 1, 1);
    if d >= 0 {
      MulLe(p, 0, d);
    }
  }

  lemma RowStep(p: nat, c0: int, c1: int, va: int, a: word, vb: int, d: int, q: int, n: int)
    requires BASE * c1 == c0 + a * vb + d * n
    requires p * c0 == va * vb + q * n
    ensures (BASE * p) * c1 == (va + p * a) * vb + (q + p * d) * n
  {
    calc {
      (BASE * p) * c1;
    ==
      p * (BASE * c1);
    ==
      p * (c0 + a * vb + d * n);
    == { Distribute4(p, c0, a * vb, d * n, 0); }
      p * c0 + p * (a * vb) + p * (d * n);
    == { assert p * (a * vb) == (p * a) * vb; assert p * (d * n) == (p * d) * n; }
      va * vb + (p * a) * vb + q * n + (p * d) * n;
    == { assert (va + p * a) * vb == va * vb + (p * a) * vb; assert (q + p * d) * n == q * n + (p * d) * n; }
      (va + p * a) * vb + (q + p * d) * n;
    }
  }
}
