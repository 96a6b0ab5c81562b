/** Roots, quotients and squares of real numbers. */
module Reals {

  predicate IsRoot(r: real, x: real) { r >= 0.0 && r * r == x }

  /** The non-negative root, where there is one. */
  ghost function Sqrt(x: real): real
  {
    if exists r :: IsRoot(r, x) then (var r :| IsRoot(r, x); r) else 0.0
  }

  lemma SqrtIs(x: real, r: real)
    requires IsRoot(r, x)
    ensures Sqrt(x) == r
  {
    var q := Sqrt(x);
    assert IsRoot(q, x);
    if q < r {
      LessSquare(q, r);
    } else if r < q {
      LessSquare(r, q);
    }
  }

  lemma LessSquare(x: real, y: real)
    requires 0.0 <= x < y
    ensures x * x < y * y
  {
    var d := y - x;
    assert y * y == x * x + d * (2.0 * x + d);
  }

  lemma SquareIsZero(c: real)
    requires c * c <= 0.0
    ensures c == 0.0
  {
    if c < 0.0 {
      LessSquare(0.0, -c);
    } else if c > 0.0 {
      LessSquare(0.0, c);
    }
  }

  /** Division, with some value where the divisor is 0. */
  function Div(x: real, y: real): real { if y == 0.0 then 0.0 else x / y }

  function Abs(x: real): real { if x < 0.0 then -x else x }

  function Sq(x: real): (r: real)
    ensures r >= 0.0
  {
    x * x
  }

  lemma DivIs(n: real, d: real, r: real)
    requires d != 0.0 && n == r * d
    ensures n / d == r
  {
  }
}
