/** Bytes and the little-endian encodings the C code relies on. */
module Bytes {
  import opened Arith

  type byte = x: int | 0 <= x < 256

  const TWO_63: int := 0x8000_0000_0000_0000

  /** The number a little-endian byte string stands for. */
  function FromLE(b: seq<byte>): (r: nat)
  {
    if b == [] then 0 else b[0] + 256 * FromLE(b[1..])
  }

  /** The `n` low-order bytes of `v`, least significant first. */
  function ToLE(v: nat, n: nat): (b: seq<byte>)
    ensures |b| == n
  {
    if n == 0 then [] else [v % 256] + ToLE(v / 256, n - 1)
  }

  lemma {:induction false} FromToLE(v: nat, n: nat)
    requires v < Pow(256, n)
    ensures FromLE(ToLE(v, n)) == v
  {
    if n > 0 {
      FromToLE(v / 256, n - 1);
      assert ToLE(v, n)[1..] == ToLE(v / 256, n - 1);
    }
  }

  /** How an int64_t is laid out in memory: eight bytes, two's complement, little endian. */
  function EncodeInt64(v: int): (b: seq<byte>)
    ensures |b| == 8
  {
    ToLE(v % TWO_64, 8)
  }

  function DecodeInt64(b: seq<byte>): int
    requires |b| == 8
  {
    var u := FromLE(b);
    if u >= TWO_63 then u - TWO_64 else u
  }

  lemma PowOf8()
    ensures Pow(256, 8) == TWO_64
  {
    assert Pow(256, 2) == 0x1_0000;
    assert Pow(256, 4) == 0x1_0000_0000;
    assert Pow(256, 6) == 0x1_0000_0000_0000;
  }

  lemma Int64RoundTrip(v: int)
    requires -TWO_63 <= v < TWO_63
    ensures DecodeInt64(EncodeInt64(v)) == v
  {
    PowOf8();
    FromToLE(v % TWO_64, 8);
  }

  // ---------------------------------------------------------------- exclusive or

  lemma SmallPowers()
    ensures Pow(2, 1) == 2 && Pow(2, 4) == 16 && Pow(2, 8) == 256
    ensures Pow(2, 5) == 32 && Pow(2, 6) == 64 && Pow(2, 7) == 128
  {
    assert Pow(2, 4) == 16;
  }

  /** Exclusive or of two `k`-bit numbers. */
  function Xor(x: nat, y: nat, k: nat): (r: nat)
    requires x < Pow(2, k) && y < Pow(2, k)
    ensures r < Pow(2, k)
  {
    if k == 0 then 0 else 2 * Xor(x / 2, y / 2, k - 1) + (if x % 2 == y % 2 then 0 else 1)
  }

  lemma ByteFits(x: byte)
    ensures x < Pow(2, 8)
  {
    assert Pow(2, 4) == 16;
  }

  function Xor8(x: byte, y: byte): byte
  {
    ByteFits(x);
    ByteFits(y);
    ByteFits(255);
    assert Pow(2, 4) == 16;
    Xor(x, y, 8)
  }

  lemma {:induction false} XorIsZero(x: nat, y: nat, k: nat)
    requires x < Pow(2, k) && y < Pow(2, k)
    ensures Xor(x, y, k) == 0 <==> x == y
  {
    if k > 0 {
      XorIsZero(x / 2, y / 2, k - 1);
    }
  }

  lemma {:induction false} XorWithZero(x: nat, k: nat)
    requires x < Pow(2, k)
    ensures Xor(x, 0, k) == x == Xor(0, x, k)
  {
    if k > 0 {
      XorWithZero(x / 2, k - 1);
    }
  }

  lemma {:induction false} XorAssoc(x: nat, y: nat, z: nat, k: nat)
    requires x < Pow(2, k) && y < Pow(2, k) && z < Pow(2, k)
    ensures Xor(Xor(x, y, k), z, k) == Xor(x, Xor(y, z, k), k)
  {
    if k > 0 {
      XorAssoc(x / 2, y / 2, z / 2, k - 1);
      XorHalves(x, y, k);
      XorHalves(y, z, k);
    }
  }

  lemma XorHalves(x: nat, y: nat, k: nat)
    requires k > 0 && x < Pow(2, k) && y < Pow(2, k)
    ensures Xor(x, y, k) / 2 == Xor(x / 2, y / 2, k - 1)
    ensures Xor(x, y, k) % 2 == if x % 2 == y % 2 then 0 else 1
  {
  }

  lemma Xor8IsZero(x: byte, y: byte)
    ensures Xor8(x, y) == 0 <==> x == y
  {
    ByteFits(x);
    ByteFits(y);
    XorIsZero(x, y, 8);
  }

  /** Inclusive or of two `k`-bit numbers. */
  function Or(x: nat, y: nat, k: nat): (r: nat)
    requires x < Pow(2, k) && y < Pow(2, k)
    ensures r < Pow(2, k)
  {
    if k == 0 then 0 else 2 * Or(x / 2, y / 2, k - 1) + (if x % 2 == 0 && y % 2 == 0 then 0 else 1)
  }

  function Or8(x: byte, y: byte): byte
  {
    ByteFits(x);
    ByteFits(y);
    assert Pow(2, 4) == 16;
    Or(x, y, 8)
  }

  lemma {:induction false} OrWithZero(x: nat, k: nat)
    requires x < Pow(2, k)
    ensures Or(x, 0, k) == x
  {
    if k > 0 {
      OrWithZero(x / 2, k - 1);
    }
  }

  lemma OrHalves(x: nat, y: nat, k: nat)
    requires k > 0 && x < Pow(2, k) && y < Pow(2, k)
    ensures x / 2 < Pow(2, k - 1) && y / 2 < Pow(2, k - 1)
    ensures Or(x, y, k) / 2 == Or(x / 2, y / 2, k - 1)
    ensures Or(x, y, k) % 2 == if x % 2 == 0 && y % 2 == 0 then 0 else 1
  {
  }

  /** Numbers without a common bit: a multiple of 2^j, and a number below 2^j. */
  lemma {:induction false} OrDisjoint(a: nat, y: nat, j: nat, k: nat)
    requires a * Pow(2, j) < Pow(2, k) && y < Pow(2, j) <= Pow(2, k)
    ensures Or(a * Pow(2, j), y, k) == a * Pow(2, j) + y
  {
    if j == 0 {
      OrWithZero(a, k);
    } else if k > 0 {
      var p := a * Pow(2, j - 1);
      MulAssoc(a, 2, Pow(2, j - 1));
      MulAssoc(2, a, Pow(2, j - 1));
      MulComm(a, 2);
      assert a * Pow(2, j) == 2 * p;
      assert (2 * p) % 2 == 0 && (2 * p) / 2 == p;
      OrDisjoint(a, y / 2, j - 1, k - 1);
    }
  }
}
