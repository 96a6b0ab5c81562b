/**
 SHA-1 as FIPS 180-4 defines it, and the streaming implementation of panda/crypto/sha.c.
 */
module Sha1 {
  import opened Arith

  /** A byte as a bit vector, for the operations that work bit by bit. */
  type octet = bv8
  type word = bv32

  datatype Hash = Hash(a: word, b: word, c: word, d: word, e: word)

  const H0: Hash := Hash(0x67452301, 0xEFCDAB89, 0x98BADCFE, 0x10325476, 0xC3D2E1F0)

  // ---------------------------------------------------------------- FIPS 180-4

  function RotL(n: nat, x: word): word
    requires 0 < n < 32
  {
    (x << n) | (x >> (32 - n))
  }

  /** Section 4.1.1 of FIPS 180-4. */
  function Ch(x: word, y: word, z: word): word { (x & y) ^ (!x & z) }

  function Parity(x: word, y: word, z: word): word { x ^ y ^ z }

  function Maj(x: word, y: word, z: word): word { (x & y) ^ (x & z) ^ (y & z) }

  function F(t: nat, x: word, y: word, z: word): word
  {
    if t < 20 then Ch(x, y, z) else if t < 40 then Parity(x, y, z) else if t < 60 then Maj(x, y, z) else Parity(x, y, z)
  }

  /** Section 4.2.1. */
  function K(t: nat): word
  {
    if t < 20 then 0x5A827999 else if t < 40 then 0x6ED9EBA1 else if t < 60 then 0x8F1BBCDC else 0xCA62C1D6
  }

  function WordOf(b0: octet, b1: octet, b2: octet, b3: octet): word
  {
    ((b0 as word) << 24) | ((b1 as word) << 16) | ((b2 as word) << 8) | (b3 as word)
  }

  function Mix(x: word, y: word, z: word, w: word): word { RotL(1, x ^ y ^ z ^ w) }

  function Add(x: word, y: word): word { x + y }

  function Add5(x: word, f: word, e: word, k: word, w: word): word { x + f + e + k + w }

  /** Section 6.1.2, step 1: the message schedule of a 64-byte block. */
  function Schedule(block: seq<octet>, t: nat): word
    requires |block| == 64
  {
    if t < 16 then WordOf(block[4 * t], block[4 * t + 1], block[4 * t + 2], block[4 * t + 3])
    else Mix(Schedule(block, t - 3), Schedule(block, t - 8), Schedule(block, t - 14), Schedule(block, t - 16))
  }

  /** Step 3. */
  function Round(h: Hash, w: word, t: nat): Hash
  {
    Hash(Add5(RotL(5, h.a), F(t, h.b, h.c, h.d), h.e, K(t), w), h.a, RotL(30, h.b), h.c, h.d)
  }

  function Rounds(h: Hash, block: seq<octet>, t: nat): Hash
    requires |block| == 64
  {
    if t == 0 then h else Round(Rounds(h, block, t - 1), Schedule(block, t - 1), t - 1)
  }

  /** Step 4. */
  function Compress(h: Hash, block: seq<octet>): Hash
    requires |block| == 64
  {
    var r := Rounds(h, block, 80);
    Hash(Add(h.a, r.a), Add(h.b, r.b), Add(h.c, r.c), Add(h.d, r.d), Add(h.e, r.e))
  }

  /** The hash value after all complete blocks of a message. */
  function Fold(h: Hash, m: seq<octet>): Hash
    decreases |m|
  {
    if |m| < 64 then h else Fold(Compress(h, m[..64]), m[64..])
  }

  /** The last eight bytes of a padded message. */
  function Length64(bits: nat): (r: seq<octet>)
    ensures |r| == 8
  {
    seq(8, i requires 0 <= i < 8 => (bits / Pow(256, 7 - i) % 256) as octet)
  }

  /** How many zero bytes follow the 80 byte. */
  function Zeros(n: nat): nat { (119 - n % 64) % 64 }

  /** Section 5.1.1: the message, a one bit, the least number of zeros, and the length in bits.
      The length is taken modulo 2^64, as sha.c does; the standard only admits shorter messages. */
  function Pad(m: seq<octet>): seq<octet>
  {
    m + [0x80] + seq(Zeros(|m|), _ => 0) + Length64(8 * |m| % TWO_64)
  }

  function WordBytes(w: word): (b: seq<octet>)
    ensures |b| == 4
  {
    [(w >> 24) as octet, ((w >> 16) & 0xff) as octet, ((w >> 8) & 0xff) as octet, (w & 0xff) as octet]
  }

  function WordsBytes(ws: seq<word>): (b: seq<octet>)
    ensures |b| == 4 * |ws|
  {
    if ws == [] then [] else WordsBytes(ws[..|ws| - 1]) + WordBytes(ws[|ws| - 1])
  }

  function Digest(h: Hash): seq<octet>
  {
    WordsBytes([h.a, h.b, h.c, h.d, h.e])
  }

  function Sha1(m: seq<octet>): seq<octet>
  {
    Digest(Fold(H0, Pad(m)))
  }

  // ---------------------------------------------------------------- properties

  /** The optimised round functions of sha.c. */
  lemma ChIs(b: word, c: word, d: word)
    ensures d ^ (b & (c ^ d)) == Ch(b, c, d)
  {
  }

  lemma MajIs(b: word, c: word, d: word)
    ensures (b & c) | (d & (b | c)) == Maj(b, c, d)
  {
  }

  lemma PaddedLength(m: seq<octet>)
    ensures |Pad(m)| % 64 == 0 && |Pad(m)| < |m| + 73
    ensures m + [0x80] + seq(Zeros(|m|), _ => 0) + Length64(8 * |m| % TWO_64) == Pad(m)
  {
  }

  lemma {:induction false} FoldConcat(h: Hash, m: seq<octet>, n: seq<octet>)
    requires |m| % 64 == 0
    ensures Fold(h, m + n) == Fold(Fold(h, m), n)
    decreases |m|
  {
    if m == [] {
      assert m + n == n;
    } else {
      assert (m + n)[..64] == m[..64] && (m + n)[64..] == m[64..] + n;
      FoldConcat(Compress(h, m[..64]), m[64..], n);
    }
  }

  // ---------------------------------------------------------------- sha.c

  /** The round functions as sha.c writes them. */
  function OptF(t: nat, b: word, c: word, d: word): word
  {
    if t < 20 then d ^ (b & (c ^ d))
    else if t < 40 then b ^ c ^ d
    else if t < 60 then (b & c) | (d & (b | c))
    else b ^ c ^ d
  }

  lemma OptFIs(t: nat, b: word, c: word, d: word)
    ensures OptF(t, b, c, d) == F(t, b, c, d)
  {
    hide Ch;
    hide Maj;
    ChIs(b, c, d);
    MajIs(b, c, d);
  }

  /** One pass of the round loop. */
  function Tmp(t: nat, h: Hash, w: word): word
  {
    SumInTwo(RotL(5, h.a), OptF(t, h.b, h.c, h.d), h.e, K(t), w)
  }

  /** tmp = x + e + w; tmp += f + k. */
  function SumInTwo(x: word, f: word, e: word, k: word, w: word): word { x + e + w + (f + k) }

  lemma TmpIs(t: nat, h: Hash, w: word)
    ensures Hash(Tmp(t, h, w), h.a, RotL(30, h.b), h.c, h.d) == Round(h, w, t)
  {
    hide OptF;
    hide F;
    hide K;
    hide RotL;
    hide SumInTwo;
    hide Add5;
    OptFIs(t, h.b, h.c, h.d);
    Sum5(RotL(5, h.a), F(t, h.b, h.c, h.d), h.e, K(t), w);
  }

  lemma Sum5(x: word, f: word, e: word, k: word, w: word)
    ensures SumInTwo(x, f, e, k, w) == Add5(x, f, e, k, w)
  {
  }

  /** Storing a word in bytes loses no bit of it. */
  lemma WordRoundTrip(w: word)
    ensures var b := WordBytes(w); WordOf(b[0], b[1], b[2], b[3]) == w
  {
    var b := WordBytes(w);
    assert (b[0] as word) == w >> 24;
    assert (b[1] as word) == (w >> 16) & 0xff;
    assert (b[2] as word) == (w >> 8) & 0xff;
    assert (b[3] as word) == w & 0xff;
  }

  lemma {:induction false} WordsBytesAt(ws: seq<word>, i: nat)
    requires i < |ws|
    ensures WordsBytes(ws)[4 * i..4 * i + 4] == WordBytes(ws[i])
  {
    var n := |ws| - 1;
    if i < n {
      WordsBytesAt(ws[..n], i);
      assert WordsBytes(ws)[4 * i..4 * i + 4] == WordsBytes(ws[..n])[4 * i..4 * i + 4];
    }
  }

  /** The digest keeps the whole final state: two messages have the same digest only if their padded
      blocks compress to the same five words. */
  lemma DigestIsState(m: seq<octet>, n: seq<octet>)
    ensures Sha1(m) == Sha1(n) <==> Fold(H0, Pad(m)) == Fold(H0, Pad(n))
  {
    hide Fold;
    hide Pad;
    hide WordBytes;
    hide WordsBytes;
    var g, h := Fold(H0, Pad(m)), Fold(H0, Pad(n));
    if Digest(g) == Digest(h) {
      var s, t := [g.a, g.b, g.c, g.d, g.e], [h.a, h.b, h.c, h.d, h.e];
      forall i: nat | i < 5
        ensures s[i] == t[i]
      {
        WordsBytesAt(s, i);
        WordsBytesAt(t, i);
        WordRoundTrip(s[i]);
        WordRoundTrip(t[i]);
      }
      assert s[0] == t[0] && s[1] == t[1] && s[2] == t[2] && s[3] == t[3] && s[4] == t[4];
    }
  }

  /** The complete blocks of a message, and what is left over. */
  function Full(m: seq<octet>): seq<octet> { m[..|m| - |m| % 64] }

  function Rest(m: seq<octet>): (r: seq<octet>)
    ensures |r| == |m| % 64
  {
    m[|m| - |m| % 64..]
  }

  lemma NextRest(n: nat)
    ensures (n + 1) % 64 == if n % 64 == 63 then 0 else n % 64 + 1
  {
  }

  lemma OneMore(m: seq<octet>, x: octet)
    ensures |m| % 64 < 63 ==> Full(m + [x]) == Full(m) && Rest(m + [x]) == Rest(m) + [x]
    ensures |m| % 64 == 63 ==> Full(m + [x]) == m + [x] && Rest(m + [x]) == []
    ensures m == Full(m) + Rest(m)
  {
    NextRest(|m|);
    var k, m' := |m| - |m| % 64, m + [x];
    if |m| % 64 == 63 {
      assert |m'| % 64 == 0 && m'[..|m'|] == m' && m'[|m'|..] == [];
    } else {
      assert |m'| - |m'| % 64 == k;
      assert m'[..k] == m[..k] && m'[k..] == m[k..] + [x];
    }
  }

  lemma BlockDone(m: seq<octet>, x: octet)
    requires |m| % 64 == 63
    ensures Fold(H0, m + [x]) == Compress(Fold(H0, Full(m)), Rest(m) + [x])
  {
    hide Compress;
    hide Full;
    hide Rest;
    OneMore(m, x);
    var block := Rest(m) + [x];
    assert m + [x] == Full(m) + block;
    FoldConcat(H0, Full(m), block);
    assert block[..64] == block && block[64..] == [];
    assert Fold(Fold(H0, Full(m)), block) == Fold(Compress(Fold(H0, Full(m)), block), []);
  }

  lemma CountAdds(n: nat, k: nat)
    ensures (n % TWO_64 + k) % TWO_64 == (n + k) % TWO_64
  {
    var q := n / TWO_64;
    assert n + k == TWO_64 * q + (n % TWO_64 + k);
  }

  lemma CountWraps(n: nat)
    ensures n % TWO_64 % 64 == n % 64
  {
    var q := n / TWO_64;
    assert n == 64 * (0x400_0000_0000_0000 * q) + n % TWO_64;
  }

  /** The padding loop stops after exactly the least number of zeros. */
  lemma ZerosLeft(n: nat, k: nat)
    requires k <= Zeros(n)
    ensures (n + 1 + k) % TWO_64 % 64 == 56 <==> k == Zeros(n)
  {
    CountWraps(n + 1 + k);
  }

  lemma BitCount(n: nat)
    ensures n % TWO_64 * 8 % TWO_64 == 8 * n % TWO_64
  {
    var q, r := n / TWO_64, n % TWO_64;
    assert 8 * n == 8 * q * TWO_64 + 8 * r;
  }

  class Context {
    var count: nat
    const buf: array<octet>
    const state: array<word>

    /** History: everything fed to the context since SHA_init. */
    ghost var msg: seq<octet>

    ghost predicate Shape()
    {
      buf.Length == 64 && state.Length == 8
    }

    ghost function H(): Hash
      requires Shape()
      reads state
    {
      Hash(state[0], state[1], state[2], state[3], state[4])
    }

    /** The state covers the complete blocks of `m`, and the buffer starts with the rest. */
    ghost predicate Covers(m: seq<octet>)
      requires Shape()
      reads buf, state
    {
      H() == Fold(H0, Full(m)) && buf[..|Rest(m)|] == Rest(m)
    }

    ghost predicate Valid()
      reads this, buf, state
    {
      Shape() && count == |msg| % TWO_64 && Covers(msg)
    }

    /** SHA_init, on a context that has just been allocated. */
    constructor ()
      ensures Valid() && msg == [] && fresh(buf) && fresh(state)
    {
      buf := new octet[64];
      state := new word[8];
      count := 0;
      msg := [];
      new;
      Start();
    }

    method Start()
      requires Shape()
      modifies state
      ensures H() == H0
    {
      state[0] := 0x67452301;
      state[1] := 0xEFCDAB89;
      state[2] := 0x98BADCFE;
      state[3] := 0x10325476;
      state[4] := 0xC3D2E1F0;
    }

    /** SHA_init: whatever the context held is gone. */
    method Init()
      requires Shape()
      modifies this, state
      ensures Valid() && msg == []
    {
      Start();
      count := 0;
      msg := [];
    }

    /** The message schedule, the first two loops of SHA1_Transform. */
    method Expand() returns (w: array<word>)
      requires Shape()
      ensures fresh(w) && w.Length == 80 && forall j | 0 <= j < 80 :: w[j] == Schedule(buf[..], j)
    {
      hide Mix;
      hide WordOf;
      w := new word[80];
      for t := 0 to 16
        invariant forall j | 0 <= j < t :: w[j] == Schedule(buf[..], j)
      {
        w[t] := WordOf(buf[4 * t], buf[4 * t + 1], buf[4 * t + 2], buf[4 * t + 3]);
      }
      for t := 16 to 80
        invariant forall j | 0 <= j < t :: w[j] == Schedule(buf[..], j)
      {
        w[t] := Mix(w[t - 3], w[t - 8], w[t - 14], w[t - 16]);
      }
    }

    /** SHA1_Transform: one application of the compression function. */
    method Transform()
      requires Shape()
      modifies state
      ensures H() == old(Compress(H(), buf[..]))
    {
      hide RotL;
      hide Schedule;
      hide Round;
      hide Tmp;
      hide Add;
      ghost var block, h := buf[..], H();
      var w := Expand();
      var a, b, c, d, e := state[0], state[1], state[2], state[3], state[4];
      for t := 0 to 80
        invariant Hash(a, b, c, d, e) == Rounds(h, block, t)
        invariant H() == h && forall j | 0 <= j < 80 :: w[j] == Schedule(block, j)
      {
        TmpIs(t, Hash(a, b, c, d, e), w[t]);
        var tmp := Tmp(t, Hash(a, b, c, d, e), w[t]);
        e := d;
        d := c;
        c := RotL(30, b);
        b := a;
        a := tmp;
      }
      state[0] := Add(state[0], a);
      state[1] := Add(state[1], b);
      state[2] := Add(state[2], c);
      state[3] := Add(state[3], d);
      state[4] := Add(state[4], e);
    }

    /** One pass of the loop in SHA_update. */
    method Put(i: nat, x: octet) returns (j: nat)
      requires Shape() && Covers(msg) && i == |msg| % 64
      modifies this`msg, buf, state
      ensures Covers(msg) && msg == old(msg) + [x] && j == |msg| % 64
    {
      hide Compress;
      hide Fold;
      hide Full;
      hide Rest;
      OneMore(msg, x);
      if |msg| % 64 == 63 {
        BlockDone(msg, x);
      }
      buf[i] := x;
      assert buf[..i + 1] == Rest(msg) + [x];
      j := i + 1;
      if j == 64 {
        assert buf[..] == Rest(msg) + [x];
        Transform();
        j := 0;
      }
      msg := msg + [x];
    }

    /** SHA_update. */
    method Update(data: seq<octet>)
      requires Valid()
      modifies this`count, this`msg, buf, state
      ensures Valid() && msg == old(msg) + data
    {
      hide Compress;
      hide Fold;
      hide Full;
      hide Rest;
      hide Covers;
      CountAdds(|msg|, |data|);
      CountWraps(|msg|);
      var i := count % 64;
      count := (count + |data|) % TWO_64;
      for k := 0 to |data|
        invariant count == (|old(msg)| + |data|) % TWO_64
        invariant msg == old(msg) + data[..k] && i == |msg| % 64 && Covers(msg)
      {
        i := Put(i, data[k]);
      }
      assert data[..|data|] == data;
    }

    /** The padding of SHA_final: after the 80 byte, zeros until 56 bytes are buffered. */
    method PadZeros(ghost m: seq<octet>)
      requires Valid() && msg == m + [0x80]
      modifies this`count, this`msg, buf, state
      ensures Valid() && msg == m + [0x80] + seq(Zeros(|m|), _ => 0)
    {
      hide Covers;
      hide Zeros;
      ghost var k := 0;
      ZerosLeft(|m|, 0);
      while count % 64 != 56
        invariant Valid() && k <= Zeros(|m|) && msg == m + [0x80] + seq(k, _ => 0)
        invariant count % 64 == 56 <==> k == Zeros(|m|)
        decreases Zeros(|m|) - k
      {
        Update([0]);
        k := k + 1;
        ZerosLeft(|m|, k);
      }
    }

    /** SHA_final up to the digest: everything that Pad appends goes through SHA_update. */
    method Finish()
      requires Valid()
      modifies this`count, this`msg, buf, state
      ensures Shape() && H() == Fold(H0, Pad(old(msg)))
    {
      hide Fold;
      hide Covers;
      hide Zeros;
      hide Length64;
      ghost var m := msg;
      var cnt := count * 8 % TWO_64;
      BitCount(|m|);
      Update([0x80]);
      PadZeros(m);
      for i := 0 to 8
        invariant Valid() && msg == m + [0x80] + seq(Zeros(|m|), _ => 0) + Length64(cnt)[..i]
      {
        LengthByte(cnt, i);
        Update([(cnt / Pow(256, 7 - i) % 256) as octet]);
      }
      PaddedLength(m);
      assert Length64(cnt)[..8] == Length64(cnt);
      Whole();
    }

    lemma Whole()
      requires Valid() && |msg| % 64 == 0
      ensures H() == Fold(H0, msg)
    {
      assert Full(msg) == msg;
    }

    method StoreWord(p: nat, w: word)
      requires Shape() && p + 4 <= 64
      modifies buf
      ensures buf[..p + 4] == old(buf[..p]) + WordBytes(w)
    {
      hide WordBytes;
      var tmp := WordBytes(w);
      buf[p] := tmp[0];
      buf[p + 1] := tmp[1];
      buf[p + 2] := tmp[2];
      buf[p + 3] := tmp[3];
    }

    /** The last loop of SHA_final. */
    method StoreState()
      requires Shape()
      modifies buf
      ensures buf[..20] == WordsBytes(state[..5])
    {
      hide WordBytes;
      ghost var ws := state[..5];
      for i := 0 to 5
        invariant buf[..4 * i] == WordsBytes(ws[..i])
      {
        assert ws[..i + 1] == ws[..i] + [ws[i]];
        StoreWord(4 * i, state[i]);
      }
      assert ws[..5] == ws;
    }

    /** SHA_final: appends the padding and leaves the digest in the first 20 bytes of buf. */
    method Final() returns (digest: array<octet>)
      requires Valid()
      modifies this`count, this`msg, buf, state
      ensures digest == buf && buf[..20] == Sha1(old(msg))
    {
      hide Fold;
      hide WordsBytes;
      hide Pad;
      hide Valid;
      Finish();
      assert state[..5] == [H().a, H().b, H().c, H().d, H().e];
      StoreState();
      return buf;
    }
  }

  lemma LengthByte(bits: nat, i: nat)
    requires i < 8
    ensures Length64(bits)[..i + 1] == Length64(bits)[..i] + [(bits / Pow(256, 7 - i) % 256) as octet]
  {
    hide Pow;
    var s := Length64(bits);
    assert s[..i + 1] == s[..i] + [s[i]];
  }

  /** SHA_hash. */
  method HashOf(data: seq<octet>) returns (digest: seq<octet>)
    ensures digest == Sha1(data)
  {
    hide Sha1;
    var ctx := new Context();
    ctx.Update(data);
    assert [] + data == data;
    var out := ctx.Final();
    digest := out[..20];
  }

  function Concat(chunks: seq<seq<octet>>): seq<octet>
  {
    if chunks == [] then [] else Concat(chunks[..|chunks| - 1]) + chunks[|chunks| - 1]
  }

  /** However a message is split into updates, the digest is that of the whole. */
  method HashOfChunks(chunks: seq<seq<octet>>) returns (digest: seq<octet>)
    ensures digest == Sha1(Concat(chunks))
  {
    hide Sha1;
    var ctx := new Context();
    for i := 0 to |chunks|
      invariant ctx.Valid() && ctx.msg == Concat(chunks[..i]) && fresh(ctx) && fresh(ctx.buf) && fresh(ctx.state)
    {
      ctx.Update(chunks[i]);
      assert chunks[..i + 1][..i] == chunks[..i];
    }
    assert chunks[..|chunks|] == chunks;
    var out := ctx.Final();
    digest := out[..20];
  }
}
