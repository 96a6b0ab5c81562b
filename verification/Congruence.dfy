/** Congruence modulo n, by explicit multiples. */
module Congruence {

  /** A product with a name, so that quantifiers can mention it. */
  function Times(k: int, n: int): int { k * n }

  ghost predicate Cong(x: int, y: int, n: int)
  {
    exists k :: x == y + Times(k, n)
  }

  /** `r` has an inverse modulo `n`. */
  ghost predicate Unit(r: int, n: int)
  {
    exists u :: Cong(Times(u, r), 1, n)
  }

  lemma CongBy(x: int, y: int, n: int, k: int)
    requires x == y + k * n
    ensures Cong(x, y, n)
  {
    assert x == y + Times(k, n);
  }

  lemma CongRefl(x: int, n: int)
    ensures Cong(x, x, n)
  {
    CongBy(x, x, n, 0);
  }

  lemma CongSym(x: int, y: int, n: int)
    requires Cong(x, y, n)
    ensures Cong(y, x, n)
  {
    var k :| x == y + Times(k, n);
    assert (-k) * n == -(k * n);
    CongBy(y, x, n, -k);
  }

  lemma CongTrans(x: int, y: int, z: int, n: int)
    requires Cong(x, y, n) && Cong(y, z, n)
    ensures Cong(x, z, n)
  {
    var k :| x == y + Times(k, n);
    var l :| y == z + Times(l, n);
    assert (k + l) * n == k * n + l * n;
    CongBy(x, z, n, k + l);
  }

  lemma CongScale(x: int, y: int, z: int, n: int)
    requires Cong(x, y, n)
    ensures Cong(x * z, y * z, n)
  {
    var k :| x == y + Times(k, n);
    assert (y + k * n) * z == y * z + (k * n) * z;
    assert (k * n) * z == (k * z) * n;
    CongBy(x * z, y * z, n, k * z);
  }

  lemma CongMul(x: int, y: int, x': int, y': int, n: int)
    requires Cong(x, y, n) && Cong(x', y', n)
    ensures Cong(x * x', y * y', n)
  {
    CongScale(x, y, x', n);
    CongScale(x', y', y, n);
    assert x' * y == y * x' && y' * y == y * y';
    CongTrans(x * x', y * x', y * y', n);
  }

  lemma UnitMul(r: int, s: int, n: int)
    requires Unit(r, n) && Unit(s, n)
    ensures Unit(r * s, n)
  {
    var u :| Cong(Times(u, r), 1, n);
    var v :| Cong(Times(v, s), 1, n);
    CongMul(u * r, 1, v * s, 1, n);
    assert (u * r) * (v * s) == (u * v) * (r * s);
    assert Cong(Times(u * v, r * s), 1, n);
  }

  /** A unit can be cancelled. */
  lemma CongCancel(x: int, y: int, r: int, n: int)
    requires Unit(r, n) && Cong(r * x, r * y, n)
    ensures Cong(x, y, n)
  {
    var u :| Cong(Times(u, r), 1, n);
    CongScale(r * x, r * y, u, n);
    CongScale(u * r, 1, x, n);
    CongScale(u * r, 1, y, n);
    assert (u * r) * x == (r * x) * u && (u * r) * y == (r * y) * u;
    CongSym((u * r) * x, 1 * x, n);
    CongTrans(x, (r * x) * u, (r * y) * u, n);
    CongTrans(x, (r * y) * u, y, n);
  }

  /** The least residue is the only one below n. */
  lemma CongMod(x: int, y: int, n: int)
    requires Cong(x, y, n) && 0 <= x < n
    ensures x == y % n
  {
    var k :| x == y + Times(k, n);
    var q := y / n + k;
    assert y == (y / n) * n + y % n;
    assert x - y % n == (y / n) * n + k * n == q * n;
    SmallMultiple(q, n);
  }

  lemma AtLeastOnce(q: int, n: int)
    requires q >= 1 && n > 0
    ensures q * n >= n
  {
    var p := q - 1;
    assert p * n >= 0;
    assert (p + 1) * n == p * n + n;
  }

  lemma SmallMultiple(q: int, n: int)
    requires n > 0 && -n < q * n < n
    ensures q == 0
  {
    if q >= 1 {
      AtLeastOnce(q, n);
    } else if q <= -1 {
      AtLeastOnce(-q, n);
    }
  }

  lemma ModCong(x: int, n: int)
    requires n > 0
    ensures Cong(x % n, x, n)
  {
    assert x == (x / n) * n + x % n;
    assert (-(x / n)) * n == -((x / n) * n);
    CongBy(x % n, x, n, -(x / n));
  }
}
