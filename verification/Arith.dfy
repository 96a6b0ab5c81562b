/** Powers, and the few facts of multiplication that the proofs name rather than leave to the solver. */
module Arith {

  const TWO_64: nat := 0x1_0000_0000_0000_0000

  function Pow(b: nat, k: nat): (r: nat)
    ensures b > 0 ==> r > 0
  {
    if k == 0 then 1 else b * Pow(b, k - 1)
  }

  lemma MulComm(x: int, y: int)
    ensures x * y == y * x
  {
  }

  lemma MulAssoc(x: int, y: int, z: int)
    ensures x * (y * z) == (x * y) * z
  {
  }

  lemma MulAdd(x: int, y: int, z: int)
    ensures x * (y + z) == x * y + x * z
    ensures (y + z) * x == y * x + z * x
  {
  }

  lemma MulLe(p: nat, x: int, y: int)
    requires x <= y
    ensures x * p <= y * p && p * x <= p * y
  {
    var d := y - x;
    assert d * p >= 0;
    MulAdd(p, x, d);
  }

  lemma ModIs(x: nat, d: nat, q: nat, r: nat)
    requires d > 0 && r < d && x == q * d + r
    ensures x % d == r && x / d == q
  {
    var q', r' := x / d, x % d;
    assert x == q' * d + r';
    if q' > q {
      MulLe(d, q + 1, q');
      MulAdd(d, q, 1);
    } else if q' < q {
      MulLe(d, q' + 1, q);
      MulAdd(d, q', 1);
    }
  }
}
