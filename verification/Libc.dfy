/** memcpy of panda/board/libc.h: word by word when both addresses are aligned, else byte by byte. */
module Libc {
  import opened Bytes

  /** `k` bytes of `src`, from `s` on, have replaced those of `dst` from `d` on. */
  function Moved(dst: seq<byte>, d: nat, src: seq<byte>, s: nat, k: nat): (r: seq<byte>)
    requires d + k <= |dst| && s + k <= |src|
    ensures |r| == |dst|
  {
    dst[..d] + src[s..s + k] + dst[d + k..]
  }

  lemma MovedParts(dst: seq<byte>, d: nat, src: seq<byte>, s: nat, k: nat)
    requires d + k <= |dst| && s + k <= |src|
    ensures var r := Moved(dst, d, src, s, k);
            && r[..d] == dst[..d] && r[d..d + k] == src[s..s + k] && r[d + k..] == dst[d + k..]
            && r[..d + k] == dst[..d] + src[s..s + k]
  {
  }

  lemma MovedMore(dst: seq<byte>, d: nat, src: seq<byte>, s: nat, k: nat, n: nat)
    requires d + k + n <= |dst| && s + k + n <= |src|
    ensures Moved(Moved(dst, d, src, s, k), d + k, src, s + k, n) == Moved(dst, d, src, s, k + n)
  {
    assert src[s..s + k + n] == src[s..s + k] + src[s + k..s + k + n];
  }

  /** Copying forward never reads what it has written, when the destination does not lie
      inside the rest of the source. */
  ghost predicate Forward(dst: array<byte>, d: nat, src: array<byte>, s: nat, len: nat)
  {
    dst != src || d <= s || s + len <= d
  }

  /** `k` bytes are copied, and the rest of the source is still what it was. */
  ghost predicate Progress(dst: seq<byte>, src: seq<byte>, dst0: seq<byte>, d: nat, src0: seq<byte>, s: nat, len: nat,
                           k: nat)
  {
    && k <= len && d + len <= |dst0| && s + len <= |src0| == |src|
    && dst == Moved(dst0, d, src0, s, k) && src[s + k..s + len] == src0[s + k..s + len]
  }

  /** Nothing copied yet, and everything copied. */
  lemma ProgressEnds(dst: seq<byte>, src: seq<byte>, dst0: seq<byte>, d: nat, src0: seq<byte>, s: nat, len: nat)
    requires d + len <= |dst0| && s + len <= |src0|
    ensures Progress(dst0, src0, dst0, d, src0, s, len, 0)
    ensures Progress(dst, src, dst0, d, src0, s, len, len) ==> dst == Moved(dst0, d, src0, s, len)
  {
    assert Moved(dst0, d, src0, s, 0) == dst0;
  }

  /** One copy of `n` bytes in the middle of a memcpy. `src1` is the source afterwards. */
  lemma OneCopy(dst: seq<byte>, src: seq<byte>, src1: seq<byte>, dst0: seq<byte>, d: nat, src0: seq<byte>, s: nat,
                len: nat, k: nat, n: nat)
    requires Progress(dst, src, dst0, d, src0, s, len, k) && k + n <= len
    requires |src1| == |src| && src1[s + k + n..s + len] == src[s + k + n..s + len]
    ensures Progress(Moved(dst, d + k, src, s + k, n), src1, dst0, d, src0, s, len, k + n)
  {
    assert src[s + k..s + k + n] == src[s + k..s + len][..n];
    assert src0[s + k..s + k + n] == src0[s + k..s + len][..n];
    assert src[s + k + n..s + len] == src[s + k..s + len][n..];
    assert src0[s + k + n..s + len] == src0[s + k..s + len][n..];
    MovedMore(dst0, d, src0, s, k, n);
  }

  /** Loads four bytes, then stores them: one `*d32 = *s32`. */
  method CopyWord(dst: array<byte>, d: nat, src: array<byte>, s: nat)
    requires d + 4 <= dst.Length && s + 4 <= src.Length
    modifies dst
    ensures dst[..] == Moved(old(dst[..]), d, old(src[..]), s, 4)
  {
    hide Moved;
    ghost var dst0, src0 := dst[..], src[..];
    dst[d], dst[d + 1], dst[d + 2], dst[d + 3] := src[s], src[s + 1], src[s + 2], src[s + 3];
    FourMoved(dst0, d, src0, s, dst[..]);
  }

  lemma FourMoved(dst0: seq<byte>, d: nat, src0: seq<byte>, s: nat, dst1: seq<byte>)
    requires d + 4 <= |dst0| == |dst1| && s + 4 <= |src0|
    requires forall i | 0 <= i < |dst0| && !(d <= i < d + 4) :: dst1[i] == dst0[i]
    requires dst1[d] == src0[s] && dst1[d + 1] == src0[s + 1]
    requires dst1[d + 2] == src0[s + 2] && dst1[d + 3] == src0[s + 3]
    ensures dst1 == Moved(dst0, d, src0, s, 4)
  {
    assert dst1 == dst1[..d] + dst1[d..d + 4] + dst1[d + 4..];
    assert dst1[d..d + 4] == src0[s..s + 4];
  }

  /** memcpy, for arrays that start at the given addresses. Equal to a byte-by-byte copy for
      every length and alignment; like memmove, it may shift data down in one array. */
  method MemCpy(dst: array<byte>, dstAddr: nat, d: nat, src: array<byte>, srcAddr: nat, s: nat, len: nat)
    requires d + len <= dst.Length && s + len <= src.Length && Forward(dst, d, src, s, len)
    modifies dst
    ensures dst[..] == Moved(old(dst[..]), d, old(src[..]), s, len)
    ensures dst[..d + len] == old(dst[..d]) + old(src[s..s + len]) && dst[d + len..] == old(dst[d + len..])
  {
    hide Moved;
    hide Progress;
    var n := len;
    ghost var dst0, src0 := dst[..], src[..];
    ProgressEnds(dst0, src0, dst0, d, src0, s, len);
    if n >= 4 && (dstAddr + d) % 4 == 0 && (srcAddr + s) % 4 == 0 {
      while n >= 16
        invariant 0 <= n <= len && Progress(dst[..], src[..], dst0, d, src0, s, len, len - n)
      {
        WordStep(dst, d, src, s, len, len - n, dst0, src0);
        WordStep(dst, d, src, s, len, len - n + 4, dst0, src0);
        WordStep(dst, d, src, s, len, len - n + 8, dst0, src0);
        WordStep(dst, d, src, s, len, len - n + 12, dst0, src0);
        n := n - 16;
      }
      while n >= 4
        invariant 0 <= n <= len && Progress(dst[..], src[..], dst0, d, src0, s, len, len - n)
      {
        WordStep(dst, d, src, s, len, len - n, dst0, src0);
        n := n - 4;
      }
    }
    while n > 0
      invariant 0 <= n <= len && Progress(dst[..], src[..], dst0, d, src0, s, len, len - n)
    {
      ByteStep(dst, d, src, s, len, len - n, dst0, src0);
      n := n - 1;
    }
    ProgressEnds(dst[..], src[..], dst0, d, src0, s, len);
    MovedParts(dst0, d, src0, s, len);
    SlicesOf(dst, dst[..], d + len);
  }

  lemma SlicesOf(a: array<byte>, m: seq<byte>, k: nat)
    requires m == a[..] && k <= |m|
    ensures a[..k] == m[..k] && a[k..] == m[k..]
  {
  }

  method WordStep(dst: array<byte>, d: nat, src: array<byte>, s: nat, len: nat, k: nat,
                  ghost dst0: seq<byte>, ghost src0: seq<byte>)
    requires dst.Length == |dst0| && Forward(dst, d, src, s, len) && k + 4 <= len
    requires Progress(dst[..], src[..], dst0, d, src0, s, len, k)
    modifies dst
    ensures Progress(dst[..], src[..], dst0, d, src0, s, len, k + 4)
  {
    ghost var dst1, src1 := dst[..], src[..];
    CopyWord(dst, d + k, src, s + k);
    assert src[..][s + k + 4..s + len] == src1[s + k + 4..s + len];
    OneCopy(dst1, src1, src[..], dst0, d, src0, s, len, k, 4);
  }

  method ByteStep(dst: array<byte>, d: nat, src: array<byte>, s: nat, len: nat, k: nat,
                  ghost dst0: seq<byte>, ghost src0: seq<byte>)
    requires dst.Length == |dst0| && Forward(dst, d, src, s, len) && k + 1 <= len
    requires Progress(dst[..], src[..], dst0, d, src0, s, len, k)
    modifies dst
    ensures Progress(dst[..], src[..], dst0, d, src0, s, len, k + 1)
  {
    ghost var dst1, src1 := dst[..], src[..];
    dst[d + k] := src[s + k];
    assert dst[..] == Moved(dst1, d + k, src1, s + k, 1);
    assert src[..][s + k + 1..s + len] == src1[s + k + 1..s + len];
    OneCopy(dst1, src1, src[..], dst0, d, src0, s, len, k, 1);
  }
}
