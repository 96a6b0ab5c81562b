/**
 The check of a firmware image in panda/board/bootstub.c, from hashing to verification, and the
 images that panda/crypto/sign.py makes.
 */
module BootCheck {
  import opened Arith
  import opened Bytes
  import opened Congruence
  import opened RsaWords
  import opened Rsa
  import Sha1

  const VERS_TAG: nat := 0x53524556
  const MIN_VERSION: nat := 2
  const MAX_LEN: nat := 0x1000000 - 0x4000 - 4 - RSANUMBYTES

  // ---------------------------------------------------------------- hashing bytes

  function Octets(s: seq<byte>): (r: seq<Sha1.octet>)
    ensures |r| == |s|
  {
    seq(|s|, i requires 0 <= i < |s| => s[i] as Sha1.octet)
  }

  function FromOctets(s: seq<Sha1.octet>): (r: seq<byte>)
    ensures |r| == |s|
  {
    seq(|s|, i requires 0 <= i < |s| => s[i] as int)
  }

  function Hash(s: seq<byte>): seq<byte> { FromOctets(Sha1.Sha1(Octets(s))) }

  // ---------------------------------------------------------------- the image

  /** A 32-bit word in the flash, which is little-endian. */
  function WordAt(flash: seq<byte>, p: nat): (w: nat)
    requires p + 4 <= |flash|
  {
    FromLE(flash[p..p + 4])
  }

  /** The length in the first word is possible, and the signed part ends with a version that is. */
  predicate Versioned(flash: seq<byte>)
    requires |flash| >= MAX_LEN + RSANUMBYTES
  {
    var len := WordAt(flash, 0);
    8 <= len <= MAX_LEN && WordAt(flash, len - 8) == VERS_TAG && WordAt(flash, len - 4) >= MIN_VERSION
  }

  /** The same, byte by byte: the length is below 16 MB less the boot stub and the signature, and the part
      it spans ends with the letters VERS and a number of at least 2. */
  lemma VersionedIs(flash: seq<byte>)
    requires |flash| >= MAX_LEN + RSANUMBYTES
    ensures Versioned(flash) <==>
            var len := FromLE(flash[..4]);
            && 8 <= len <= 0xFFBF7C && flash[len - 8..len - 4] == [0x56, 0x45, 0x52, 0x53]
            && FromLE(flash[len - 4..len]) >= 2
  {
    hide FromLE;
    var len := FromLE(flash[..4]);
    assert flash[0..4] == flash[..4];
    if 8 <= len <= MAX_LEN {
      TagBytes(flash[len - 8..len - 4]);
    }
  }

  lemma TagBytes(b: seq<byte>)
    requires |b| == 4
    ensures FromLE(b) == VERS_TAG <==> b == [0x56, 0x45, 0x52, 0x53]
  {
    FourLE(b);
  }

  lemma FourLE(b: seq<byte>)
    requires |b| == 4
    ensures FromLE(b) == b[0] + 256 * (b[1] + 256 * (b[2] + 256 * (b[3] as int)))
  {
    assert b[1..][1..] == b[2..] && b[2..][1..] == b[3..] && b[3..][1..] == [];
    assert FromLE(b[3..]) == b[3];
    assert FromLE(b[2..]) == b[2] + 256 * FromLE(b[3..]);
    assert FromLE(b[1..]) == b[1] + 256 * FromLE(b[2..]);
  }

  function SignedPart(flash: seq<byte>): seq<byte>
    requires |flash| >= MAX_LEN + RSANUMBYTES && Versioned(flash)
  {
    flash[4..WordAt(flash, 0)]
  }

  function SignatureOf(flash: seq<byte>): (s: seq<byte>)
    requires |flash| >= MAX_LEN + RSANUMBYTES && Versioned(flash)
    ensures |s| == RSANUMBYTES
  {
    flash[WordAt(flash, 0)..WordAt(flash, 0) + RSANUMBYTES]
  }

  /** The image has a version, and the key accepts its signature for certain. */
  ghost predicate Passes(flash: seq<byte>, key: PublicKey)
    requires |flash| >= MAX_LEN + RSANUMBYTES
  {
    && Versioned(flash) && GoodKey(key) && Reduces(key, FromBE(SignatureOf(flash)))
    && Accepts(key, SignatureOf(flash), Hash(SignedPart(flash)))
  }

  /** What Boots says of the key is exact for this image. */
  ghost predicate Decides(flash: seq<byte>, key: PublicKey)
    requires |flash| >= MAX_LEN + RSANUMBYTES
  {
    Versioned(flash) ==> GoodKey(key) && Reduces(key, FromBE(SignatureOf(flash)))
  }

  /** One of the two calls of RSA_verify. */
  method VerifiedBy(key: PublicKey, flash: seq<byte>) returns (ok: bool)
    requires |flash| >= MAX_LEN + RSANUMBYTES && Versioned(flash)
    requires |key.n| == RSANUMWORDS ==> |key.rr| == RSANUMWORDS
    ensures GoodKey(key) && ok ==> Matches(key, SignatureOf(flash), Hash(SignedPart(flash)))
    ensures GoodKey(key) && Reduces(key, FromBE(SignatureOf(flash))) ==>
              (ok <==> Accepts(key, SignatureOf(flash), Hash(SignedPart(flash))))
  {
    hide GoodKey;
    hide Matches;
    hide Accepts;
    hide Reduces;
    hide FromLE;
    hide FromBE;
    var len := WordAt(flash, 0);
    var digest := Sha1.HashOf(Octets(flash[4..len]));
    ok := Verify(key, flash[len..len + RSANUMBYTES], FromOctets(digest));
  }

  /** The check before an image is started: the length, the version, then the release key and, if
      allowed, the debug key. */
  method Boots(flash: seq<byte>, release: PublicKey, debug: PublicKey, allowDebug: bool) returns (ok: bool)
    requires |flash| >= MAX_LEN + RSANUMBYTES
    requires |release.n| == RSANUMWORDS ==> |release.rr| == RSANUMWORDS
    requires |debug.n| == RSANUMWORDS ==> |debug.rr| == RSANUMWORDS
    ensures ok ==> Versioned(flash)
    ensures ok && GoodKey(release) && (allowDebug ==> GoodKey(debug)) ==>
              || Matches(release, SignatureOf(flash), Hash(SignedPart(flash)))
              || (allowDebug && Matches(debug, SignatureOf(flash), Hash(SignedPart(flash))))
    ensures Passes(flash, release) || (allowDebug && Passes(flash, debug)) ==> ok
    ensures Decides(flash, release) && (allowDebug ==> Decides(flash, debug)) ==>
              (ok <==> Passes(flash, release) || (allowDebug && Passes(flash, debug)))
  {
    hide GoodKey;
    hide Matches;
    hide Accepts;
    hide Reduces;
    hide FromLE;
    hide FromBE;
    hide Hash;
    var len := WordAt(flash, 0);
    if len < 8 || len > MAX_LEN {
      return false;
    }
    if WordAt(flash, len - 8) != VERS_TAG || WordAt(flash, len - 4) < MIN_VERSION {
      return false;
    }
    ok := VerifiedBy(release, flash);
    if ok {
      return true;
    }
    if allowDebug {
      ok := VerifiedBy(debug, flash);
    }
  }

  // ---------------------------------------------------------------- sign.py

  /** The data with the tag and the version behind it. */
  function Body(dat: seq<byte>): (b: seq<byte>)
    ensures |b| == |dat| + 8
  {
    dat + [0x56, 0x45, 0x52, 0x53] + [2, 0, 0, 0]
  }

  /** What sign.py writes when it sets the length: the length in place of the first four bytes, and the
      signature of all that follows it. */
  function SignedImage(dat: seq<byte>, d: nat, n: nat): (s: seq<byte>)
    requires n > 0
  {
    var body := Body(dat);
    ToLE(|body|, 4) + body[4..] + Signature(Hash(body[4..]), d, n)
  }

  lemma Slices(s: seq<byte>, x: seq<byte>, y: seq<byte>, z: seq<byte>)
    requires x + y + z <= s
    ensures s[..|x|] == x && s[|x|..|x| + |y|] == y && s[|x| + |y|..|x| + |y| + |z|] == z
  {
    assert s == x + y + z + s[|x| + |y| + |z|..];
  }

  lemma FourBytesOf(v: nat)
    requires v < 0x1_0000_0000
    ensures FromLE(ToLE(v, 4)) == v
  {
    assert Pow(256, 2) == 256 * Pow(256, 1) == 0x1_0000;
    assert Pow(256, 4) == 256 * (256 * Pow(256, 2));
    FromToLE(v, 4);
  }

  /** Where such an image is in the flash: its length, its version, its signed part, its signature. */
  lemma ImageParts(flash: seq<byte>, dat: seq<byte>, d: nat, n: nat)
    requires n > 0 && |flash| >= MAX_LEN + RSANUMBYTES && SignedImage(dat, d, n) <= flash
    requires 4 <= |dat| <= MAX_LEN - 8
    ensures Versioned(flash) && SignedPart(flash) == Body(dat)[4..]
    ensures SignatureOf(flash) == Signature(Hash(Body(dat)[4..]), d, n)
  {
    hide FromLE;
    hide ToLE;
    hide Hash;
    hide Signature;
    hide Body;
    var body := Body(dat);
    var sig := Signature(Hash(body[4..]), d, n);
    SignatureLength(Hash(body[4..]), d, n);
    Slices(flash, ToLE(|body|, 4), body[4..], sig);
    FourBytesOf(|body|);
    assert flash[0..4] == flash[..4];
    BodyEnds(dat);
    assert flash[|body| - 8..|body| - 4] == body[|body| - 8..|body| - 4] by { EndOf(flash, body); }
    assert flash[|body| - 4..|body|] == body[|body| - 4..] by { EndOf(flash, body); }
    TagBytes(body[|body| - 8..|body| - 4]);
    FourLE(flash[|body| - 4..|body|]);
  }

  lemma SignatureLength(hash: seq<byte>, d: nat, n: nat)
    requires n > 0
    ensures |Signature(hash, d, n)| == RSANUMBYTES
  {
  }

  lemma BodyEnds(dat: seq<byte>)
    ensures var b := Body(dat);
            b[|b| - 8..|b| - 4] == [0x56, 0x45, 0x52, 0x53] && b[|b| - 4..] == [2, 0, 0, 0]
  {
    hide ToLE;
  }

  lemma SliceOfSlice(s: seq<byte>, a: nat, b: nat, c: nat, d: nat)
    requires a <= c <= d <= b <= |s|
    ensures s[a..b][c - a..d - a] == s[c..d]
  {
    var t := s[a..b];
    assert forall k | 0 <= k < d - c :: t[c - a..d - a][k] == t[c - a + k] == s[c..d][k];
  }

  /** The last eight bytes of the body keep their place when the first four are replaced. */
  lemma EndOf(flash: seq<byte>, body: seq<byte>)
    requires 12 <= |body| <= |flash| && flash[4..|body|] == body[4..]
    ensures flash[|body| - 8..|body| - 4] == body[|body| - 8..|body| - 4]
    ensures flash[|body| - 4..|body|] == body[|body| - 4..]
  {
    var n := |body|;
    SliceOfSlice(flash, 4, n, n - 8, n - 4);
    SliceOfSlice(flash, 4, n, n - 4, n);
    SliceOfSlice(body, 4, n, n - 8, n - 4);
    SliceOfSlice(body, 4, n, n - 4, n);
    assert body[4..n] == body[4..] && body[n - 4..n] == body[n - 4..];
  }

  /** With less than four bytes of data the length is written over the tag. */
  lemma TagOverwritten(flash: seq<byte>, dat: seq<byte>, d: nat, n: nat)
    requires n > 0 && |flash| >= MAX_LEN + RSANUMBYTES && SignedImage(dat, d, n) <= flash
    requires |dat| < 4
    ensures !Versioned(flash)
  {
    hide Hash;
    hide Signature;
    hide FromLE;
    hide ToLE;
    var body := Body(dat);
    var len := |body|;
    Slices(flash, ToLE(len, 4), body[4..], Signature(Hash(body[4..]), d, n));
    FourBytesOf(len);
    assert flash[0..4] == flash[..4];
    ShortLength(len);
    assert flash[|dat|] == flash[..4][|dat|] != 0x56;
    TagBytes(flash[|dat|..|dat| + 4]);
  }

  lemma ShortLength(v: nat)
    requires v < 256
    ensures ToLE(v, 4) == [v, 0, 0, 0]
  {
    assert ToLE(v, 4) == [v] + ToLE(0, 3) && ToLE(0, 3) == [0] + ToLE(0, 2) && ToLE(0, 2) == [0] + ToLE(0, 1);
    assert ToLE(0, 1) == [0] + ToLE(0, 0);
  }

  /** Which of the images that sign.py makes for a key boot with it: those of at least four bytes of
      data. Hashing, padding, exponentiation and verification fit together, given that the exponents
      undo each other on the padded digest. */
  lemma SignedPasses(flash: seq<byte>, dat: seq<byte>, key: PublicKey, d: nat)
    requires GoodKey(key) && |key.n| == RSANUMWORDS && (key.exponent == 3 || key.exponent == 65537)
    requires |flash| >= MAX_LEN + RSANUMBYTES && |dat| + 8 <= MAX_LEN
    requires key.N() > 0 && SignedImage(dat, d, key.N()) <= flash
    requires var m := FromBE(Padded(Hash(Body(dat)[4..])));
             && (m < key.N() || key.R() <= 2 * key.N())
             && Cong(Pow(Pow(m, d), key.exponent), m, key.N())
    ensures Passes(flash, key) <==> |dat| >= 4
    ensures Versioned(flash) <==> |dat| >= 4
  {
    if |dat| >= 4 {
      ImageParts(flash, dat, d, key.N());
      SignedIsAccepted(key, Hash(Body(dat)[4..]), d);
    } else {
      TagOverwritten(flash, dat, d, key.N());
    }
  }
}
