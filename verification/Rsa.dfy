/**
 RSA signature verification of panda/crypto/rsa.c: in-place public exponentiation by
 Montgomery multiplication, and the comparison against the padded digest.
 */
module Rsa {
  import opened Arith
  import opened Bytes
  import opened Congruence
  import opened RsaWords

  const RSANUMBYTES: nat := 128
  const RSANUMWORDS: nat := 32
  const SHA_DIGEST_SIZE: nat := 20

  /** RSAPublicKey; `len` is |n|. */
  datatype PublicKey = PublicKey(n0inv: word, n: seq<word>, rr: seq<word>, exponent: int) {
    function N(): nat { Value(n) }
    function R(): nat { Pow(BASE, |n|) }
  }

  /** A key as the comments in rsa.h describe it: n0inv is -1 / n[0], rr is R^2. */
  ghost predicate GoodKey(key: PublicKey)
  {
    && InverseOk(key.n, key.n0inv)
    && Cong(Value(key.rr), key.R() * key.R(), key.N())
  }

  // ---------------------------------------------------------------- big-endian bytes

  function FromBE(s: seq<byte>): (v: nat)
  {
    if s == [] then 0 else 256 * FromBE(s[..|s| - 1]) + s[|s| - 1]
  }

  lemma {:induction false} FromBEConcat(s: seq<byte>, t: seq<byte>)
    ensures FromBE(s + t) == FromBE(s) * Pow(256, |t|) + FromBE(t)
  {
    if t == [] {
      assert s + t == s;
    } else {
      var u, x := t[..|t| - 1], t[|t| - 1];
      assert (s + t)[..|s + t| - 1] == s + u;
      FromBEConcat(s, u);
      assert 256 * (FromBE(s) * Pow(256, |u|)) == FromBE(s) * (256 * Pow(256, |u|));
    }
  }

  lemma {:induction false} FromBEBound(s: seq<byte>)
    ensures FromBE(s) < Pow(256, |s|)
  {
    if s != [] {
      FromBEBound(s[..|s| - 1]);
    }
  }

  lemma {:induction false} FromBEInjective(s: seq<byte>, t: seq<byte>)
    requires |s| == |t| && FromBE(s) == FromBE(t)
    ensures s == t
  {
    if s != [] {
      var k := |s| - 1;
      assert s[k] == t[k];
      FromBEInjective(s[..k], t[..k]);
      assert s == s[..k] + [s[k]] && t == t[..k] + [t[k]];
    }
  }

  function ToBE(v: nat, n: nat): (s: seq<byte>)
    ensures |s| == n
  {
    if n == 0 then [] else ToBE(v / 256, n - 1) + [v % 256]
  }

  lemma {:induction false} FromToBE(v: nat, n: nat)
    requires v < Pow(256, n)
    ensures FromBE(ToBE(v, n)) == v
  {
    if n > 0 {
      FromToBE(v / 256, n - 1);
      assert ToBE(v, n)[..n - 1] == ToBE(v / 256, n - 1);
    }
  }

  function WordOf(b0: byte, b1: byte, b2: byte, b3: byte): word
  {
    b0 * 0x100_0000 + b1 * 0x1_0000 + b2 * 0x100 + b3
  }

  lemma FourBytes(b0: byte, b1: byte, b2: byte, b3: byte)
    ensures FromBE([b0, b1, b2, b3]) == WordOf(b0, b1, b2, b3)
  {
    assert [b0, b1, b2, b3][..3] == [b0, b1, b2];
    assert [b0, b1, b2][..2] == [b0, b1];
    assert [b0, b1][..1] == [b0] && [b0][..0] == [];
    assert FromBE([b0]) == b0;
    assert FromBE([b0, b1]) == 256 * b0 + b1;
    assert FromBE([b0, b1, b2]) == 256 * (256 * b0 + b1) + b2;
  }

  lemma {:induction false} PowBytes(k: nat)
    ensures Pow(256, 4 * k) == Pow(BASE, k)
  {
    if k > 0 {
      PowBytes(k - 1);
      var p := Pow(256, 4 * (k - 1));
      assert Pow(256, 4 * k - 3) == 256 * p;
      assert Pow(256, 4 * k - 2) == 256 * (256 * p);
      assert Pow(256, 4 * k - 1) == 256 * (256 * (256 * p));
    }
  }

  lemma TopWord(top: seq<byte>, rest: seq<byte>, low: seq<word>, x: word)
    requires |top| == 4 && |rest| == 4 * |low| && FromBE(rest) == Value(low)
    requires x == WordOf(top[0], top[1], top[2], top[3])
    ensures FromBE(top + rest) == Value(low + [x])
  {
    hide FromBE;
    hide Value;
    hide Pow;
    hide WordOf;
    FromBEConcat(top, rest);
    FourBytes(top[0], top[1], top[2], top[3]);
    assert top == [top[0], top[1], top[2], top[3]];
    PowBytes(|low|);
    ValueSnoc(low, x);
  }

  /** Prepending four bytes puts one more word on top. */
  lemma WordOnTop(b: seq<byte>, p: nat, low: seq<word>, x: word)
    requires p + 4 <= |b| && |b| - p - 4 == 4 * |low| && FromBE(b[p + 4..]) == Value(low)
    requires x == WordOf(b[p], b[p + 1], b[p + 2], b[p + 3])
    ensures FromBE(b[p..]) == Value(low + [x])
  {
    var top, rest := [b[p], b[p + 1], b[p + 2], b[p + 3]], b[p + 4..];
    assert b[p..] == top + rest;
    TopWord(top, rest, low, x);
  }

  /** The big-endian byte array as a little-endian word array. */
  method ToWords(inout: array<byte>, a: array<word>)
    requires inout.Length == 4 * a.Length
    modifies a
    ensures Value(a[..]) == FromBE(inout[..])
  {
    var len := a.Length;
    for i := 0 to len
      invariant FromBE(inout[(len - i) * 4..]) == Value(a[..i])
    {
      var p := (len - 1 - i) * 4;
      ghost var low := a[..i];
      a[i] := WordOf(inout[p], inout[p + 1], inout[p + 2], inout[p + 3]);
      assert inout[..][p + 4..] == inout[p + 4..] && inout[..][p..] == inout[p..];
      WordOnTop(inout[..], p, low, a[i]);
      assert a[..i + 1] == low + [a[i]];
    }
    assert a[..len] == a[..] && inout[0..] == inout[..];
  }

  lemma SplitWord(x: word)
    ensures WordOf(x / 0x100_0000, x / 0x1_0000 % 256, x / 0x100 % 256, x % 256) == x
    ensures x / 0x100_0000 < 256
  {
    assert x / 0x1_0000 == x / 0x100 / 0x100;
    assert x / 0x100_0000 == x / 0x1_0000 / 0x100;
  }

  /** The little-endian word array as a big-endian byte array. */
  method ToBytes(a: array<word>, inout: array<byte>)
    requires inout.Length == 4 * a.Length && inout as object != a
    modifies inout
    ensures FromBE(inout[..]) == Value(a[..])
  {
    var len := a.Length;
    var p := 0;
    var i := len;
    while i > 0
      invariant 0 <= i <= len && p == (len - i) * 4
      invariant forall k | i <= k < len :: var q := (len - 1 - k) * 4;
                  WordOf(inout[q], inout[q + 1], inout[q + 2], inout[q + 3]) == a[k]
    {
      i := i - 1;
      var x := a[i];
      SplitWord(x);
      inout[p] := x / 0x100_0000;
      inout[p + 1] := x / 0x1_0000 % 256;
      inout[p + 2] := x / 0x100 % 256;
      inout[p + 3] := x % 256;
      p := p + 4;
    }
    WordsMatch(a[..], inout[..], len);
    assert a[..][..len] == a[..] && inout[..][0..] == inout[..];
  }

  lemma {:induction false} WordsMatch(a: seq<word>, b: seq<byte>, i: nat)
    requires i <= |a| && |b| == 4 * |a|
    requires forall k | 0 <= k < |a| :: var q := (|a| - 1 - k) * 4; WordOf(b[q], b[q + 1], b[q + 2], b[q + 3]) == a[k]
    ensures FromBE(b[(|a| - i) * 4..]) == Value(a[..i])
  {
    if i > 0 {
      WordsMatch(a, b, i - 1);
      WordOnTop(b, (|a| - i) * 4, a[..i - 1], a[i - 1]);
      assert a[..i] == a[..i - 1] + [a[i - 1]];
    }
  }

  // ---------------------------------------------------------------- modpow

  lemma {:induction false} PowAdd(b: nat, i: nat, j: nat)
    ensures Pow(b, i + j) == Pow(b, i) * Pow(b, j)
  {
    if i > 0 {
      PowAdd(b, i - 1, j);
      MulAssoc(b, Pow(b, i - 1), Pow(b, j));
    }
  }

  /** BASE has an inverse modulo an odd number, and so have its powers. */
  lemma BaseIsUnit(n: seq<word>, n0inv: word)
    requires InverseOk(n, n0inv)
    ensures Unit(BASE, Value(n))
  {
    var k, rest, v := (n0inv * n[0] + 1) / BASE, Value(n[1..]), Value(n);
    assert n0inv * n[0] + 1 == k * BASE;
    assert n0inv * v == n0inv * n[0] + n0inv * (BASE * rest);
    assert n0inv * (BASE * rest) == (n0inv * rest) * BASE;
    var u := k + n0inv * rest;
    assert u * BASE == k * BASE + (n0inv * rest) * BASE;
    CongBy(u * BASE, 1, v, n0inv);
    assert Cong(Times(u, BASE), 1, v);
  }

  lemma {:induction false} PowIsUnit(n: int, k: nat)
    requires Unit(BASE, n)
    ensures Unit(Pow(BASE, k), n)
  {
    if k == 0 {
      CongRefl(1, n);
      assert Cong(Times(1, 1), 1, n);
    } else {
      PowIsUnit(n, k - 1);
      UnitMul(BASE, Pow(BASE, k - 1), n);
    }
  }

  /** The Montgomery product of x = u * r and y = v is u * v. */
  lemma MontProduct(r: int, n: int, x: int, y: int, z: int, q: int, u: int, v: int)
    requires Unit(r, n) && r * z == x * y + q * n
    requires Cong(x, u * r, n) && Cong(y, v, n)
    ensures Cong(z, u * v, n)
  {
    CongMul(x, u * r, y, v, n);
    CongBy(r * z, x * y, n, q);
    CongTrans(r * z, x * y, (u * r) * v, n);
    assert (u * r) * v == r * (u * v);
    CongCancel(z, u * v, r, n);
  }

  /** Two squarings, as in the loop for exponent 65537. */
  lemma SquaredPower(a: nat, e: nat, r: nat)
    ensures Pow(a, e) * (Pow(a, e) * r) == Pow(a, 2 * e) * r
  {
    hide Pow;
    PowAdd(a, e, e);
    assert e + e == 2 * e;
    MulAssoc(Pow(a, e), Pow(a, e), r);
  }

  /** What montMul leaves for x and y. */
  ghost predicate Leaves(key: PublicKey, x: nat, y: nat, z: nat)
  {
    exists q: int :: IsProduct(key.n, x, y, z, q)
  }

  /** The final reduction: one subtraction, which is enough exactly when at most one n[] is too many. */
  method Reduce(n: seq<word>, a: array<word>, ghost e: int)
    requires a.Length == |n|
    modifies a
    ensures Value(a[..]) == old(Value(a[..])) - (if old(Value(a[..])) >= Value(n) then Value(n) else 0)
    ensures Value(n) > 0 && Cong(old(Value(a[..])), e, Value(n)) ==>
              && Cong(Value(a[..]), e, Value(n))
              && (old(Value(a[..])) < 2 * Value(n) <==> Value(a[..]) == e % Value(n))
  {
    ghost var v := Value(a[..]);
    var ge := GeM(n, a);
    if ge {
      SubM(n, a);
    }
    if Value(n) > 0 && Cong(v, e, Value(n)) {
      if ge {
        CongBy(v - Value(n), v, Value(n), -1);
        CongTrans(v - Value(n), v, e, Value(n));
      }
      if v < 2 * Value(n) {
        CongMod(Value(a[..]), e, Value(n));
      }
    }
  }

  /** The congruence that a product keeps, and its bounds. */
  ghost predicate Multiplied(key: PublicKey, a: nat, b: nat, c: nat, uv: int)
  {
    Cong(c, uv, key.N()) && c < key.R() && c < b + key.N() && Leaves(key, a, b, c)
  }

  lemma ProductKeeps(key: PublicKey, a: nat, b: nat, c: nat, q: int, u: int, v: int)
    requires GoodKey(key) && IsProduct(key.n, a, b, c, q)
    requires Cong(a, u * key.R(), key.N()) && Cong(b, v, key.N())
    ensures Multiplied(key, a, b, c, u * v)
  {
    hide Pow;
    hide Value;
    BaseIsUnit(key.n, key.n0inv);
    PowIsUnit(key.N(), |key.n|);
    MontProduct(key.R(), key.N(), a, b, c, q, u, v);
  }

  /** One call of montMul inside modpow. */
  method Multiply(key: PublicKey, c: array<word>, a: array<word>, b: array<word>, ghost u: int, ghost v: int)
    requires c.Length == a.Length == b.Length == |key.n| && a != c && b != c
    modifies c
    ensures GoodKey(key) && Cong(Value(a[..]), u * key.R(), key.N()) && Cong(Value(b[..]), v, key.N()) ==>
              Multiplied(key, Value(a[..]), Value(b[..]), Value(c[..]), u * v)
  {
    hide Pow;
    hide Value;
    ghost var q := MontMul(key.n, key.n0inv, c, a, b);
    if GoodKey(key) && Cong(Value(a[..]), u * key.R(), key.N()) && Cong(Value(b[..]), v, key.N()) {
      ProductKeeps(key, Value(a[..]), Value(b[..]), Value(c[..]), q, u, v);
    }
  }

  /** Multiplying by rr, R^2 modulo n, takes a number into Montgomery form. */
  method EnterMontgomery(key: PublicKey, c: array<word>, a: array<word>, rr: array<word>)
    requires c.Length == a.Length == rr.Length == |key.n| && a != c && rr != c && rr[..] == key.rr
    modifies c
    ensures GoodKey(key) ==>
              && Cong(Value(c[..]), Value(a[..]) * key.R(), key.N())
              && Leaves(key, Value(a[..]), Value(key.rr), Value(c[..]))
  {
    hide Pow;
    hide Value;
    ghost var q := MontMul(key.n, key.n0inv, c, a, rr);
    if GoodKey(key) {
      Entered(key, Value(a[..]), Value(c[..]), q);
    }
  }

  lemma Entered(key: PublicKey, a: nat, c: nat, q: int)
    requires GoodKey(key) && IsProduct(key.n, a, Value(key.rr), c, q)
    ensures Cong(c, a * key.R(), key.N()) && Leaves(key, a, Value(key.rr), c)
  {
    hide Pow;
    hide Value;
    BaseIsUnit(key.n, key.n0inv);
    PowIsUnit(key.N(), |key.n|);
    CongRefl(a, key.N());
    MulComm(a, Value(key.rr));
    MontProduct(key.R(), key.N(), Value(key.rr), a, c, q, key.R(), a);
    MulComm(key.R(), a);
  }

  /** What the last product of modpow leaves: below R, and congruent to the power. */
  ghost predicate Powered(key: PublicKey, v: int, a: nat)
  {
    key.exponent >= 0 && Cong(v, Pow(a, key.exponent), key.N()) && v < key.R() && v < a + key.N()
  }

  method Power65537(key: PublicKey, a: array<word>, aR: array<word>, aaR: array<word>)
    requires key.exponent == 65537
    requires a.Length == aR.Length == aaR.Length == |key.n| && a != aR && a != aaR && aR != aaR
    modifies aR, aaR
    ensures GoodKey(key) && old(Cong(Value(aR[..]), Value(a[..]) * key.R(), key.N())) ==>
              Powered(key, Value(aaR[..]), Value(a[..]))
  {
    hide Pow;
    hide Value;
    hide GoodKey;
    ghost var base, r, n := Value(a[..]), key.R(), key.N();
    ghost var good := GoodKey(key) && Cong(Value(aR[..]), base * r, n);
    var i := 0;
    SmallPowers(2, base);
    while i < 16
      invariant 0 <= i <= 16 && i % 2 == 0
      invariant Value(a[..]) == base
      invariant good ==> Cong(Value(aR[..]), Pow(base, Pow(2, i)) * r, n)
    {
      PowStep(2, i);
      PowStep(2, i + 1);
      SquaredPower(base, Pow(2, i), r);
      Multiply(key, aaR, aR, aR, Pow(base, Pow(2, i)), Pow(base, Pow(2, i)) * r);
      SquaredPower(base, Pow(2, i + 1), r);
      Multiply(key, aR, aaR, aaR, Pow(base, Pow(2, i + 1)), Pow(base, Pow(2, i + 1)) * r);
      i := i + 2;
    }
    TwoTo16();
    CongRefl(base, n);
    Multiply(key, aaR, aR, a, Pow(base, 65536), base);
    PowStep(base, 65536);
  }

  /** z comes of x by a squaring and a multiplication by a. */
  ghost predicate TwoProducts(key: PublicKey, a: nat, x: nat, z: nat)
  {
    exists y: nat :: Leaves(key, x, x, y) && Leaves(key, y, a, z)
  }

  /** The result of the exponentiation with exponent 3, from the three products and one subtraction. */
  ghost predicate Cubed(key: PublicKey, a: nat, v: nat)
  {
    exists x: nat, z: nat :: CubedBy(key, a, v, x, z)
  }

  ghost predicate CubedBy(key: PublicKey, a: nat, v: nat, x: nat, z: nat)
  {
    Leaves(key, a, Value(key.rr), x) && TwoProducts(key, a, x, z) && v == z - (if z >= key.N() then key.N() else 0)
  }

  method Power3(key: PublicKey, a: array<word>, aR: array<word>, aaR: array<word>)
    requires key.exponent == 3
    requires a.Length == aR.Length == aaR.Length == |key.n| && a != aR && a != aaR && aR != aaR
    modifies aR, aaR
    ensures GoodKey(key) && old(Cong(Value(aR[..]), Value(a[..]) * key.R(), key.N())) ==>
              && Powered(key, Value(aR[..]), Value(a[..]))
              && TwoProducts(key, Value(a[..]), old(Value(aR[..])), Value(aR[..]))
  {
    hide Pow;
    hide Leaves;
    hide Value;
    hide GoodKey;
    ghost var base, r, n := Value(a[..]), key.R(), key.N();
    SmallPowers(2, base);
    SquaredPower(base, 1, r);
    Multiply(key, aaR, aR, aR, base, base * r);
    CongRefl(base, n);
    Multiply(key, aR, aaR, a, Pow(base, 2), base);
    PowStep(base, 2);
  }

  lemma PowStep(b: nat, k: nat)
    ensures Pow(b, k + 1) == b * Pow(b, k) == Pow(b, k) * b
  {
  }

  lemma SmallPowers(b: nat, a: nat)
    ensures Pow(b, 0) == 1 && Pow(a, 1) == a
  {
  }

  /** The keys and inputs for which one subtraction is certain to be enough: the modulus uses its top
      bit, or the input is not above it. */
  predicate Reduces(key: PublicKey, input: nat) { key.R() <= 2 * key.N() || input <= key.N() }

  /** In-place public exponentiation: for a well-formed key always the power modulo n[], and its least
      residue when one subtraction is enough. */
  method ModPow(key: PublicKey, inout: array<byte>)
    requires |key.rr| == |key.n| && (key.exponent == 3 || key.exponent == 65537) && inout.Length == 4 * |key.n|
    modifies inout
    ensures GoodKey(key) ==>
              && key.N() > 0 && Cong(FromBE(inout[..]), Pow(old(FromBE(inout[..])), key.exponent), key.N())
              && (Reduces(key, old(FromBE(inout[..]))) ==>
                    FromBE(inout[..]) == Pow(old(FromBE(inout[..])), key.exponent) % key.N())
              && (key.exponent == 3 ==> Cubed(key, old(FromBE(inout[..])), FromBE(inout[..])))
  {
    hide Pow;
    hide Leaves;
    hide TwoProducts;
    hide FromBE;
    hide Value;
    hide GoodKey;
    var len := |key.n|;
    var a, aR, aaR := new word[len], new word[len], new word[len];
    var rr := new word[len](i requires 0 <= i < len => key.rr[i]);
    assert rr[..] == key.rr;
    if GoodKey(key) {
      GoodIsPositive(key);
    }
    ToWords(inout, a);
    EnterMontgomery(key, aR, a, rr);
    ghost var base, x := Value(a[..]), Value(aR[..]);
    var aaa;
    if key.exponent == 65537 {
      aaa := aaR;
      Power65537(key, a, aR, aaR);
    } else {
      aaa := aR;
      Power3(key, a, aR, aaR);
    }
    ghost var z := Value(aaa[..]);
    Reduce(key.n, aaa, Pow(base, key.exponent));
    assert GoodKey(key) && key.exponent == 3 ==> CubedBy(key, base, Value(aaa[..]), x, z);
    ToBytes(aaa, inout);
  }

  lemma GoodIsPositive(key: PublicKey)
    requires GoodKey(key)
    ensures key.N() > 0
  {
    OddIsPositive(key.n, key.n0inv);
  }

  /** A key of one word whose top bit is clear. */
  const SHORT: PublicKey := PublicKey(1376854161, [1145659279], [961381859], 3)

  lemma ShortIsGood()
    ensures GoodKey(SHORT) && SHORT.N() == 1145659279 && SHORT.R() == BASE && Value(SHORT.rr) == 961381859
  {
    assert Value(SHORT.n) == 1145659279 + BASE * Value([]);
    assert Value(SHORT.rr) == 961381859 + BASE * Value([]);
    assert Pow(BASE, 1) == BASE * Pow(BASE, 0);
    CongBy(961381859, BASE * BASE, 1145659279, -16101422483);
    assert 1376854161 * 1145659279 == 367268395 * BASE - 1;
  }

  /** Only one multiple is in range. */
  lemma OneProduct(x: nat, y: nat, z: nat, z': nat, q': nat)
    requires Leaves(SHORT, x, y, z) && y + 1145659279 <= BASE
    requires BASE * z' == x * y + q' * 1145659279 && q' < BASE
    ensures z == z'
  {
    ShortIsGood();
    var q :| IsProduct(SHORT.n, x, y, z, q);
    OneMultiple(x * y, z, q, z', q');
  }

  lemma OneMultiple(p: nat, z: nat, q: int, z': nat, q': int)
    requires BASE * z == p + q * 1145659279 && BASE * z' == p + q' * 1145659279
    requires 0 <= q < BASE && 0 <= q' < BASE
    ensures z == z'
  {
    var d := q - q';
    assert BASE * (z - z') == d * 1145659279;
    assert d == BASE * (367268395 * d - 1376854161 * (z - z'));
  }

  /** Outside its condition the exponentiation does not always reach the least residue: here, one
      subtraction is not enough. The key has one word, so this is about modpow alone; the verification
      only ever hands on keys of 32 words. */
  method NotReduced(inout: array<byte>)
    requires inout.Length == 4 && FromBE(inout[..]) == 3004177772
    modifies inout
    ensures FromBE(inout[..]) == 1190960834 > SHORT.N()
  {
    hide FromBE;
    hide Leaves;
    ShortIsGood();
    ModPow(SHORT, inout);
    ghost var x: nat, z: nat :| CubedBy(SHORT, 3004177772, FromBE(inout[..]), x, z);
    ghost var y: nat :| Leaves(SHORT, x, x, y) && Leaves(SHORT, y, 3004177772, z);
    OneProduct(3004177772, 961381859, x, 1683719541, 3791143172);
    OneProduct(1683719541, 1683719541, y, 1757204616, 4113111945);
    OneProduct(1757204616, 3004177772, z, 2336620113, 4151977824);
  }

  lemma TwoTo16()
    ensures Pow(2, 16) == 65536
  {
    assert Pow(2, 4) == 16;
    assert Pow(2, 8) == 256;
    assert Pow(2, 12) == 4096;
  }

  // ---------------------------------------------------------------- RSA_verify

  /** The padded block for a digest: 00 01, 105 bytes of FF, 00, and the bare digest. */
  function Padded(hash: seq<byte>): (s: seq<byte>)
    ensures |s| == 108 + |hash|
  {
    [0, 1] + seq(105, _ => 0xff) + [0] + hash
  }

  /** The number of that block: 1, then 840 one bits, then 8 zero bits and the digest. */
  ghost function PaddedNumber(hash: seq<byte>): int
  {
    Pow(256, 126) + (Pow(256, 105) - 1) * Pow(256, 21) + FromBE(hash)
  }

  lemma LeadingZero(s: seq<byte>)
    requires |s| > 0 && s[0] == 0
    ensures FromBE(s) == FromBE(s[1..])
  {
    assert s == [0] + s[1..];
    FromBEConcat([0], s[1..]);
    assert [0][..0] == [];
    assert FromBE([0]) == 0;
  }

  lemma PaddedIs(hash: seq<byte>)
    requires |hash| == SHA_DIGEST_SIZE
    ensures FromBE(Padded(hash)) == PaddedNumber(hash)
  {
    hide Pow;
    hide FromBE;
    var ones := seq(105, _ => 0xff);
    var low := [0] + hash;
    var p, q := Pow(256, 105), Pow(256, 21);
    assert Padded(hash) == ([0, 1] + ones) + low;
    FromBEConcat([0, 1] + ones, low);
    FromBEConcat([0, 1], ones);
    OnesAre(105);
    LeadingZero(low);
    assert low[1..] == hash;
    assert FromBE([0, 1]) == 1 by { TwoBytes(); }
    PowAdd(256, 105, 21);
    MulAdd(q, p, p - 1);
  }

  lemma TwoBytes()
    ensures FromBE([0, 1]) == 1
  {
    assert [0, 1][..1] == [0] && [0][..0] == [];
    assert FromBE([0]) == 0;
  }

  lemma {:induction false} OnesAre(k: nat)
    ensures FromBE(seq(k, _ => 0xff)) == Pow(256, k) - 1
  {
    if k > 0 {
      OnesAre(k - 1);
      assert seq(k, _ => 0xff)[..k - 1] == seq(k - 1, _ => 0xff);
    }
  }

  /** The lengths and the exponent are those that are supported. */
  predicate Checked(key: PublicKey, signature: seq<byte>, hash: seq<byte>)
  {
    && |key.n| == RSANUMWORDS && |signature| == RSANUMBYTES && |hash| == SHA_DIGEST_SIZE
    && (key.exponent == 3 || key.exponent == 65537)
  }

  /** The signature exponentiates to the padded digest. */
  ghost predicate Accepts(key: PublicKey, signature: seq<byte>, hash: seq<byte>)
  {
    && Checked(key, signature, hash) && key.N() > 0
    && Pow(FromBE(signature), key.exponent) % key.N() == PaddedNumber(hash)
  }

  /** The signature exponentiates to the padded digest modulo n, if not to its least residue. */
  ghost predicate Matches(key: PublicKey, signature: seq<byte>, hash: seq<byte>)
  {
    Checked(key, signature, hash) && Cong(Pow(FromBE(signature), key.exponent), PaddedNumber(hash), key.N())
  }

  /** RSA_verify, for any key. With a well-formed one, whatever it accepts exponentiates to the padded
      digest modulo n; and where one subtraction is certain to be enough, it accepts exactly that. */
  method Verify(key: PublicKey, signature: seq<byte>, hash: seq<byte>) returns (ok: bool)
    requires |key.n| == RSANUMWORDS ==> |key.rr| == RSANUMWORDS
    ensures ok ==> Checked(key, signature, hash)
    ensures GoodKey(key) && ok ==> Matches(key, signature, hash)
    ensures GoodKey(key) && Reduces(key, FromBE(signature)) ==> (ok <==> Accepts(key, signature, hash))
  {
    hide GoodKey;
    hide FromBE;
    hide Pow;
    hide Padded;
    hide PaddedNumber;
    hide Reduces;
    if |key.n| != RSANUMWORDS {
      return false;
    }
    if |signature| != RSANUMBYTES {
      return false;
    }
    if |hash| != SHA_DIGEST_SIZE {
      return false;
    }
    if key.exponent != 3 && key.exponent != 65537 {
      return false;
    }
    var buf := new byte[RSANUMBYTES](i requires 0 <= i < RSANUMBYTES => signature[i]);
    assert buf[..] == signature;
    PaddedIs(hash);
    ModPow(key, buf);
    ghost var out := buf[..];
    ok := ComparePadded(buf, hash);
    if ok {
      assert out == Padded(hash);
      if GoodKey(key) {
        CongSym(FromBE(out), Pow(FromBE(signature), key.exponent), key.N());
      }
    } else if FromBE(out) == FromBE(Padded(hash)) {
      FromBEInjective(out, Padded(hash));
      assert false;
    }
  }

  /** The end of RSA_verify: xor the digest away, then compare with the padding block, whose
      last 20 bytes are zero. */
  method ComparePadded(buf: array<byte>, hash: seq<byte>) returns (ok: bool)
    requires buf.Length == RSANUMBYTES && |hash| == SHA_DIGEST_SIZE
    modifies buf
    ensures ok <==> old(buf[..]) == Padded(hash)
  {
    var padding := Padded(seq(SHA_DIGEST_SIZE, _ => 0));
    for i := 108 to RSANUMBYTES
      invariant forall k | 0 <= k < RSANUMBYTES ::
                  buf[k] == if 108 <= k < i then Xor8(old(buf[k]), hash[k - 108]) else old(buf[k])
    {
      buf[i] := Xor8(buf[i], hash[i - 108]);
    }
    forall k | 0 <= k < RSANUMBYTES
      ensures buf[k] == padding[k] <==> old(buf[k]) == Padded(hash)[k]
    {
      if k >= 108 {
        Xor8IsZero(old(buf[k]), hash[k - 108]);
      }
    }
    for i := 0 to RSANUMBYTES
      invariant forall k | 0 <= k < i :: old(buf[k]) == Padded(hash)[k]
    {
      if buf[i] != padding[i] {
        assert old(buf[..])[i] != Padded(hash)[i];
        return false;
      }
    }
    return true;
  }

  // ---------------------------------------------------------------- sign.py

  /** The signature block that sign.py appends for a digest, given the private exponent. */
  function Signature(hash: seq<byte>, d: nat, n: nat): seq<byte>
    requires n > 0
  {
    ToBE(Pow(FromBE(Padded(hash)), d) % n, RSANUMBYTES)
  }

  /** Whatever sign.py emits for a modulus above the padded digest is accepted, given that the exponents
      undo each other; and it is below the modulus, so one subtraction is enough to see it. */
  lemma SignedIsAccepted(key: PublicKey, hash: seq<byte>, d: nat)
    requires |key.n| == RSANUMWORDS && |hash| == SHA_DIGEST_SIZE
    requires key.exponent == 3 || key.exponent == 65537
    requires FromBE(Padded(hash)) < key.N() || key.R() <= 2 * key.N()
    requires var m := FromBE(Padded(hash)); Cong(Pow(Pow(m, d), key.exponent), m, key.N())
    ensures key.N() > 0 && Accepts(key, Signature(hash, d, key.N()), hash)
    ensures Reduces(key, FromBE(Signature(hash, d, key.N())))
  {
    PaddedIsSmall(hash);
    BelowModulus(key, hash, d);
  }

  lemma BelowModulus(key: PublicKey, hash: seq<byte>, d: nat)
    requires |key.n| == RSANUMWORDS && |hash| == SHA_DIGEST_SIZE && (key.exponent == 3 || key.exponent == 65537)
    requires FromBE(Padded(hash)) < key.N()
    requires var m := FromBE(Padded(hash)); Cong(Pow(Pow(m, d), key.exponent), m, key.N())
    ensures Accepts(key, Signature(hash, d, key.N()), hash) && FromBE(Signature(hash, d, key.N())) < key.N()
  {
    hide FromBE;
    hide Value;
    hide Pow;
    hide PaddedNumber;
    PaddedIs(hash);
    var m, n, e := FromBE(Padded(hash)), key.N(), key.exponent;
    var s := Pow(m, d) % n;
    PowBytes(RSANUMWORDS);
    ValueBound(key.n);
    FromToBE(s, RSANUMBYTES);
    ModCong(Pow(m, d), n);
    CongPow(s, Pow(m, d), e, n);
    CongTrans(Pow(s, e), Pow(Pow(m, d), e), m, n);
    CongSym(Pow(s, e), m, n);
    CongMod(m, Pow(s, e), n);
  }

  lemma {:induction false} CongPow(x: nat, y: nat, e: nat, n: int)
    requires Cong(x, y, n)
    ensures Cong(Pow(x, e), Pow(y, e), n)
  {
    if e == 0 {
      CongRefl(1, n);
    } else {
      CongPow(x, y, e - 1, n);
      CongMul(x, y, Pow(x, e - 1), Pow(y, e - 1), n);
    }
  }

  /** The padded block, as a number, is below half of BASE^32. */
  lemma PaddedIsSmall(hash: seq<byte>)
    requires |hash| == SHA_DIGEST_SIZE
    ensures 2 * FromBE(Padded(hash)) < Pow(BASE, RSANUMWORDS)
  {
    hide Pow;
    hide FromBE;
    var s := Padded(hash);
    LeadingZero(s);
    FromBEBound(s[1..]);
    PowBytes(RSANUMWORDS);
    PowStep(256, 127);
  }
}
