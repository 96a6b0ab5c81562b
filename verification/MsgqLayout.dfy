/**
 How the ring buffer of msgq.cc is laid out, and when a reader's position is sound.

 Everything here is about values: the bytes of the data segment, the packed write
 pointer, and the history of published messages. The step machine (MsgqMachine) and
 the sequential queue (MsgqQueue) both state their invariants with these predicates.
 */
module MsgqLayout {
  import opened Bytes

  const NUM_READERS: nat := 15

  type Msg = seq<byte>

  /** A 64-bit header word: the cycle in the high half, the offset in the low half.
      Neither half wraps around in this model. */
  datatype Ptr = Ptr(cycle: nat, off: nat)

  /** A published message, with the lap of the buffer it was written in and the offsets at
      which its frame starts and ends. */
  datatype Entry = Entry(msg: Msg, lap: nat, off: nat, end: nat)

  ghost predicate Framed(e: Entry)
  {
    e.off % 8 == 0 && e.end % 8 == 0 && e.off + 8 + |e.msg| <= e.end < e.off + 16 + |e.msg|
  }

  function Align(n: nat): (r: nat)
    ensures r % 8 == 0 && n <= r < n + 8
  {
    n + 7 - (n + 7) % 8
  }

  /** Bytes a message occupies: an eight-byte size, the payload, and padding. */
  function Total(m: Msg): nat { Align(|m| + 8) }

  /** The publisher asserts that three messages of this size fit. */
  predicate Fits(m: Msg, size: nat) { 3 * Total(m) <= size }

  /** Not enough room for the message and a wraparound tag behind it. */
  predicate MustWrap(m: Msg, off: nat, size: nat) { size - off - Total(m) - 8 <= 0 }

  lemma WrapRoom(m: Msg, off: nat, size: nat)
    requires Fits(m, size) && MustWrap(m, off, size)
    ensures off > 0 && off >= Total(m) && !MustWrap(m, 0, size)
  {
  }

  lemma AlignIs(n: nat, r: nat)
    requires r % 8 == 0 && n <= r < n + 8
    ensures Align(n) == r
  {
  }

  lemma AlignShift(off: nat, n: nat)
    requires off % 8 == 0
    ensures Align(off + 8 + n) == Align(off + n + 8) == off + Align(n + 8)
  {
  }

  // ---------------------------------------------------------------- memory

  // Loads and stores are total: one that would leave the segment reads 0 or is dropped.
  // The invariants show that neither a publisher nor a sound reader ever does one.

  function Load64(mem: seq<byte>, p: nat): int
  {
    if p + 8 <= |mem| then DecodeInt64(mem[p..p + 8]) else 0
  }

  function Load8(mem: seq<byte>, p: nat): byte
  {
    if p < |mem| then mem[p] else 0
  }

  function Store64(mem: seq<byte>, p: nat, v: int): (m: seq<byte>)
    ensures |m| == |mem|
  {
    if p + 8 <= |mem| then mem[..p] + EncodeInt64(v) + mem[p + 8..] else mem
  }

  function Store8(mem: seq<byte>, p: nat, b: byte): (m: seq<byte>)
    ensures |m| == |mem|
  {
    if p < |mem| then mem[p := b] else mem
  }

  lemma Store64Spec(mem: seq<byte>, p: nat, v: int)
    requires p + 8 <= |mem| && -TWO_63 <= v < TWO_63
    ensures var m := Store64(mem, p, v);
            Load64(m, p) == v && m[..p] == mem[..p] && m[p + 8..] == mem[p + 8..]
  {
    var m := Store64(mem, p, v);
    Int64RoundTrip(v);
    assert m[p..p + 8] == EncodeInt64(v);
  }

  ghost predicate PayloadAt(mem: seq<byte>, e: Entry)
  {
    e.off + 8 + |e.msg| <= |mem| && mem[e.off + 8..e.off + 8 + |e.msg|] == e.msg
  }

  ghost predicate FrameAt(mem: seq<byte>, e: Entry)
  {
    Load64(mem, e.off) == |e.msg| && PayloadAt(mem, e)
  }

  ghost predicate TagAt(mem: seq<byte>, p: nat)
  {
    Load64(mem, p) == -1
  }

  /** The two memories agree from `p` on. */
  ghost predicate SameFrom(m0: seq<byte>, m1: seq<byte>, p: nat)
  {
    |m0| == |m1| && p <= |m0| && m0[p..] == m1[p..]
  }

  /** The two memories agree below `p`. */
  ghost predicate SameBelow(m0: seq<byte>, m1: seq<byte>, p: nat)
  {
    |m0| == |m1| && p <= |m0| && m0[..p] == m1[..p]
  }

  lemma SliceOfDrop(m: seq<byte>, p: nat, a: nat, b: nat)
    requires p <= a <= b <= |m|
    ensures m[p..][a - p..b - p] == m[a..b]
  {
  }

  lemma SliceOfTake(m: seq<byte>, p: nat, a: nat, b: nat)
    requires a <= b <= p <= |m|
    ensures m[..p][a..b] == m[a..b]
  {
  }

  /** Where two memories agree, so do their slices. */
  lemma SliceSame(m0: seq<byte>, m1: seq<byte>, p: nat, a: nat, b: nat)
    requires a <= b <= |m0|
    requires (SameFrom(m0, m1, p) && p <= a) || (SameBelow(m0, m1, p) && b <= p)
    ensures m0[a..b] == m1[a..b]
  {
    if SameFrom(m0, m1, p) && p <= a {
      SliceOfDrop(m0, p, a, b);
      SliceOfDrop(m1, p, a, b);
    } else {
      SliceOfTake(m0, p, a, b);
      SliceOfTake(m1, p, a, b);
    }
  }

  lemma SameFurther(m0: seq<byte>, m1: seq<byte>, p: nat, q: nat)
    requires SameFrom(m0, m1, p) && p <= q <= |m0|
    ensures SameFrom(m0, m1, q)
  {
    SliceSame(m0, m1, p, q, |m0|);
  }

  lemma LoadSame(m0: seq<byte>, m1: seq<byte>, p: nat, q: nat)
    requires (SameFrom(m0, m1, p) && p <= q) || (SameBelow(m0, m1, p) && q + 8 <= p)
    ensures Load64(m0, q) == Load64(m1, q)
  {
    if q + 8 <= |m0| {
      SliceSame(m0, m1, p, q, q + 8);
    }
  }

  lemma PayloadSame(m0: seq<byte>, m1: seq<byte>, p: nat, e: Entry)
    requires PayloadAt(m0, e)
    requires (SameFrom(m0, m1, p) && p <= e.off + 8) || (SameBelow(m0, m1, p) && e.off + 8 + |e.msg| <= p)
    ensures PayloadAt(m1, e)
  {
    SliceSame(m0, m1, p, e.off + 8, e.off + 8 + |e.msg|);
  }

  lemma FrameSame(m0: seq<byte>, m1: seq<byte>, p: nat, e: Entry)
    requires FrameAt(m0, e)
    requires (SameFrom(m0, m1, p) && p <= e.off) || (SameBelow(m0, m1, p) && e.off + 8 + |e.msg| <= p)
    ensures FrameAt(m1, e)
  {
    LoadSame(m0, m1, p, e.off);
    PayloadSame(m0, m1, p, e);
  }

  // ---------------------------------------------------------------- history

  /** `f` directly follows `e`: behind it, or at the start of the next lap. */
  ghost predicate Follows(e: Entry, f: Entry)
  {
    (f.lap == e.lap && f.off == e.end) || (f.lap == e.lap + 1 && f.off == 0)
  }

  /** The published messages tile the laps of the buffer, up to the write pointer. */
  ghost predicate LogOk(log: seq<Entry>, w: Ptr, size: nat)
  {
    && w.off % 8 == 0 && (w.off != 0 ==> w.off + 8 < size)
    && (forall k | 0 <= k < |log| ::
          && Framed(log[k]) && log[k].lap <= w.cycle && log[k].end + 8 < size
          && (log[k].lap == w.cycle ==> log[k].end <= w.off))
    && (forall j, k | 0 <= j < k < |log| ::
          log[j].lap <= log[k].lap && (log[j].lap == log[k].lap ==> log[j].end <= log[k].off))
    && (forall k | 0 <= k < |log| - 1 :: Follows(log[k], log[k + 1]))
    && (if log == [] then w == Ptr(0, 0) else
          && log[0].lap == 0 && log[0].off == 0
          && var e := log[|log| - 1];
             (w.cycle == e.lap && w.off == e.end) || (w.cycle == e.lap + 1 && w.off == 0))
  }

  /** The index of the first message written in lap `c` or later. */
  function First(log: seq<Entry>, c: nat): (n: nat)
    ensures n <= |log|
    ensures n > 0 ==> log[n - 1].lap < c
  {
    if log == [] then 0
    else if log[|log| - 1].lap < c then |log|
    else First(log[..|log| - 1], c)
  }

  lemma {:induction false} FirstSplits(log: seq<Entry>, c: nat)
    requires forall j, k | 0 <= j < k < |log| :: log[j].lap <= log[k].lap
    ensures forall k | 0 <= k < |log| :: k < First(log, c) <==> log[k].lap < c
  {
    if log != [] && log[|log| - 1].lap >= c {
      FirstSplits(log[..|log| - 1], c);
    }
  }

  /** The position at offset 0 is where the current lap's messages begin. */
  lemma StartOfLap(log: seq<Entry>, w: Ptr, size: nat)
    requires LogOk(log, w, size)
    ensures var n := First(log, w.cycle);
            if n < |log| then log[n].lap == w.cycle && log[n].off == 0 else w.off == 0
  {
    FirstSplits(log, w.cycle);
    var n := First(log, w.cycle);
    if 0 < n < |log| {
      assert Follows(log[n - 1], log[n]);
    }
  }

  ghost predicate LastOfLap(log: seq<Entry>, k: nat)
    requires k < |log|
  {
    k + 1 == |log| || log[k + 1].lap != log[k].lap
  }

  /** Every message of the current lap is intact. */
  ghost predicate Current(mem: seq<byte>, log: seq<Entry>, w: Ptr)
  {
    forall k | 0 <= k < |log| && log[k].lap == w.cycle :: FrameAt(mem, log[k])
  }

  // ---------------------------------------------------------------- reader positions

  predicate AtFrame(log: seq<Entry>, lap: nat, next: nat, p: nat)
  {
    next < |log| && log[next].lap == lap && log[next].off == p
  }

  ghost predicate AtEnd(log: seq<Entry>, w: Ptr, lap: nat, next: nat, p: nat)
  {
    && next <= |log|
    && if lap == w.cycle then next == |log| && p == w.off
       else next > 0 && log[next - 1].lap == lap && LastOfLap(log, next - 1) && p == log[next - 1].end
  }

  /** From message `from` on, lap `lap` is intact up to and including its wraparound tag. */
  ghost predicate Tail(mem: seq<byte>, log: seq<Entry>, lap: nat, from: nat)
  {
    forall k | from <= k < |log| && log[k].lap == lap ::
      FrameAt(mem, log[k]) && (LastOfLap(log, k) ==> TagAt(mem, log[k].end))
  }

  /** A position in a finished lap whose rest is still intact. The size at the position
      itself may have become a wraparound tag: the writer stores that tag at its own
      position without evicting a reader that stands exactly there, and then begins a lap. */
  ghost predicate Old(mem: seq<byte>, log: seq<Entry>, w: Ptr, lap: nat, next: nat, p: nat)
  {
    || (&& AtFrame(log, lap, next, p)
        && PayloadAt(mem, log[next])
        && (Load64(mem, p) == |log[next].msg| || (TagAt(mem, p) && (lap + 1 < w.cycle || p == w.off)))
        && (LastOfLap(log, next) ==> TagAt(mem, log[next].end))
        && Tail(mem, log, lap, next + 1))
    || (AtEnd(log, w, lap, next, p) && TagAt(mem, p))
  }

  /** A reader may continue from offset `p`, expecting message `next` of lap `lap`, as long
      as the writer stays below `lo` in its own lap. */
  ghost predicate Placed(mem: seq<byte>, log: seq<Entry>, w: Ptr, lo: nat, lap: nat, next: nat, p: nat)
  {
    && lap <= w.cycle && p % 8 == 0
    && if lap == w.cycle then AtFrame(log, lap, next, p) || AtEnd(log, w, lap, next, p)
       else p >= lo && Old(mem, log, w, lap, next, p)
  }

  // ---------------------------------------------------------------- what keeps a position sound

  /** Positions and ends of frames fit in the segment. */
  lemma PlacedFits(mem: seq<byte>, log: seq<Entry>, w: Ptr, size: nat, lo: nat, lap: nat, next: nat, p: nat)
    requires LogOk(log, w, size) && Placed(mem, log, w, lo, lap, next, p)
    ensures p == 0 || p + 8 < size
  {
  }

  /** A write strictly below a position in a finished lap leaves it sound. */
  lemma OldUntouched(m0: seq<byte>, m1: seq<byte>, log: seq<Entry>, w: Ptr, size: nat, lap: nat, next: nat, p: nat)
    requires LogOk(log, w, size) && lap != w.cycle
    requires Old(m0, log, w, lap, next, p) && SameFrom(m0, m1, p)
    ensures Old(m1, log, w, lap, next, p)
  {
    LoadSame(m0, m1, p, p);
    if AtFrame(log, lap, next, p) && PayloadAt(m0, log[next]) {
      PayloadSame(m0, m1, p, log[next]);
      LoadSame(m0, m1, p, log[next].end);
      TailUntouched(m0, m1, log, w, size, lap, next, p);
    }
  }

  lemma TailUntouched(m0: seq<byte>, m1: seq<byte>, log: seq<Entry>, w: Ptr, size: nat, lap: nat, next: nat, p: nat)
    requires LogOk(log, w, size)
    requires AtFrame(log, lap, next, p) && Tail(m0, log, lap, next + 1) && SameFrom(m0, m1, log[next].end)
    ensures Tail(m1, log, lap, next + 1)
  {
    var q := log[next].end;
    forall k | next + 1 <= k < |log| && log[k].lap == lap
      ensures FrameAt(m1, log[k]) && (LastOfLap(log, k) ==> TagAt(m1, log[k].end))
    {
      assert log[next].end <= log[k].off;
      FrameSame(m0, m1, q, log[k]);
      LoadSame(m0, m1, q, log[k].end);
    }
  }

  /** A new wraparound tag on top of a position in a finished lap spares the payload there. */
  lemma OldUnderTag(m0: seq<byte>, m1: seq<byte>, log: seq<Entry>, w: Ptr, size: nat, lap: nat, next: nat, p: nat)
    requires LogOk(log, w, size) && lap != w.cycle
    requires Old(m0, log, w, lap, next, p) && p + 8 <= |m0| && p == w.off
    requires TagAt(m1, p) && SameFrom(m0, m1, p + 8)
    ensures Old(m1, log, w, lap, next, p)
  {
    if AtFrame(log, lap, next, p) && PayloadAt(m0, log[next]) {
      var q := log[next].end;
      PayloadSame(m0, m1, p + 8, log[next]);
      LoadSame(m0, m1, p + 8, q);
      if q <= |m0| {
        SameFurther(m0, m1, p + 8, q);
        TailUntouched(m0, m1, log, w, size, lap, next, p);
      }
    }
  }

  /** The wraparound tag, stored at the write pointer, leaves every position at or
      beyond the write pointer sound. */
  lemma PlacedAfterTag(m0: seq<byte>, log: seq<Entry>, w: Ptr, size: nat, lap: nat, next: nat, p: nat)
    requires LogOk(log, w, size) && |m0| == size && w.off + 8 <= size
    requires Placed(m0, log, w, w.off, lap, next, p)
    ensures Placed(Store64(m0, w.off, -1), log, w, w.off, lap, next, p)
  {
    hide Old;
    hide AtFrame;
    hide AtEnd;
    hide Store64;
    hide Load64;
    var m1 := Store64(m0, w.off, -1);
    PlacedFits(m0, log, w, size, w.off, lap, next, p);
    Store64Spec(m0, w.off, -1);
    if lap != w.cycle {
      assert SameFrom(m0, m1, w.off + 8);
      if p > w.off {
        assert w.off + 8 <= p <= size;
        SameFurther(m0, m1, w.off + 8, p);
        OldUntouched(m0, m1, log, w, size, lap, next, p);
      } else {
        OldUnderTag(m0, m1, log, w, size, lap, next, p);
      }
    }
  }

  /** Memory below the write pointer holds the current lap. */
  lemma CurrentUntouched(m0: seq<byte>, m1: seq<byte>, log: seq<Entry>, w: Ptr, size: nat)
    requires LogOk(log, w, size) && Current(m0, log, w) && SameBelow(m0, m1, w.off)
    ensures Current(m1, log, w)
  {
    forall k | 0 <= k < |log| && log[k].lap == w.cycle
      ensures FrameAt(m1, log[k])
    {
      FrameSame(m0, m1, w.off, log[k]);
    }
  }

  lemma LapIsTailed(mem: seq<byte>, log: seq<Entry>, w: Ptr, from: nat)
    requires Current(mem, log, w) && TagAt(mem, w.off)
    requires log != [] && log[|log| - 1].end == w.off
    requires forall j, k | 0 <= j < k < |log| :: log[j].lap <= log[k].lap
    requires log[|log| - 1].lap <= w.cycle
    ensures Tail(mem, log, w.cycle, from)
  {
  }

  /** Moving the write pointer to the next lap turns current positions into sound old ones. */
  lemma PlacedAfterWrap(mem: seq<byte>, log: seq<Entry>, w: Ptr, size: nat, lap: nat, next: nat, p: nat)
    requires LogOk(log, w, size) && |mem| == size && w.off > 0
    requires Current(mem, log, w) && TagAt(mem, w.off)
    requires Placed(mem, log, w, w.off, lap, next, p)
    ensures Placed(mem, log, Ptr(w.cycle + 1, 0), 0, lap, next, p)
  {
    if lap == w.cycle {
      assert log[|log| - 1].lap == w.cycle && w.off == log[|log| - 1].end;
      if AtFrame(log, lap, next, p) {
        LapIsTailed(mem, log, w, next + 1);
        LapIsTailed(mem, log, w, next);
      }
    }
  }

  /** The size and the first `k` payload bytes of a message have been stored at `p`. */
  ghost predicate Copied(mem: seq<byte>, p: nat, m: Msg, k: nat)
  {
    && k <= |m| && p + 8 + |m| <= |mem|
    && Load64(mem, p) == |m| && mem[p + 8..p + 8 + k] == m[..k]
  }

  lemma CopyByteSpec(mem: seq<byte>, p: nat, m: Msg, k: nat, end: nat)
    requires Copied(mem, p, m, k) && k < |m| && p + 8 + |m| <= end <= |mem|
    ensures var mem' := Store8(mem, p + 8 + k, m[k]);
            Copied(mem', p, m, k + 1) && SameBelow(mem, mem', p) && SameFrom(mem, mem', end)
  {
    var mem' := Store8(mem, p + 8 + k, m[k]);
    assert SameBelow(mem, mem', p + 8);
    LoadSame(mem, mem', p + 8, p);
    assert mem'[p + 8..p + 8 + k + 1] == mem[p + 8..p + 8 + k] + [m[k]];
  }

  lemma LogAfterWrap(log: seq<Entry>, w: Ptr, size: nat)
    requires LogOk(log, w, size) && w.off > 0
    ensures LogOk(log, Ptr(w.cycle + 1, 0), size)
  {
  }

  lemma LogAfterPublish(log: seq<Entry>, w: Ptr, size: nat, e: Entry)
    requires LogOk(log, w, size) && Framed(e) && e.lap == w.cycle && e.off == w.off && e.end + 8 < size
    ensures LogOk(log + [e], Ptr(w.cycle, e.end), size)
  {
  }

  /** Publishing a message keeps every sound position sound. */
  lemma PlacedAfterPublish(mem: seq<byte>, log: seq<Entry>, w: Ptr, size: nat, e: Entry, lap: nat, next: nat, p: nat)
    requires LogOk(log, w, size) && e.lap == w.cycle && e.off == w.off < e.end
    requires Placed(mem, log, w, e.end, lap, next, p)
    ensures Placed(mem, log + [e], Ptr(w.cycle, e.end), e.end, lap, next, p)
  {
    var log' := log + [e];
    if lap != w.cycle {
      forall k | 0 <= k < |log| && log[k].lap == lap
        ensures log'[k] == log[k] && (LastOfLap(log', k) <==> LastOfLap(log, k))
      {
      }
      if AtFrame(log, lap, next, p) && Tail(mem, log, lap, next + 1) {
        assert Tail(mem, log', lap, next + 1);
      }
    }
  }

  /** A reader that took the message at its position stands soundly at the next one. */
  lemma PlacedAfterRead(mem: seq<byte>, log: seq<Entry>, w: Ptr, size: nat, lo: nat, lap: nat, next: nat, p: nat)
    requires LogOk(log, w, size) && Placed(mem, log, w, lo, lap, next, p)
    requires AtFrame(log, lap, next, p)
    ensures Placed(mem, log, w, lo, lap, next + 1, log[next].end)
  {
    var q := log[next].end;
    if next + 1 < |log| {
      assert Follows(log[next], log[next + 1]);
    }
    if lap != w.cycle {
      assert !AtEnd(log, w, lap, next, p);
      if next + 1 < |log| && log[next + 1].lap == lap {
        assert FrameAt(mem, log[next + 1]);
        assert Tail(mem, log, lap, next + 2);
      } else {
        assert LastOfLap(log, next);
      }
    }
  }

  /** Following a wraparound tag lands at the start of the current lap, never backwards. */
  lemma PlacedAfterJump(mem: seq<byte>, log: seq<Entry>, w: Ptr, size: nat, lo: nat, lap: nat, next: nat, p: nat)
    requires LogOk(log, w, size) && Placed(mem, log, w, lo, lap, next, p) && lap < w.cycle
    ensures next <= First(log, w.cycle)
    ensures Placed(mem, log, w, lo, w.cycle, First(log, w.cycle), 0)
  {
    FirstSplits(log, w.cycle);
    StartOfLap(log, w, size);
  }

  /** What a reader finds at a sound position that the writer has moved past. */
  lemma SizeFound(mem: seq<byte>, log: seq<Entry>, w: Ptr, size: nat, lo: nat, lap: nat, next: nat, p: nat)
    requires LogOk(log, w, size) && Current(mem, log, w) && Placed(mem, log, w, lo, lap, next, p)
    requires lap < w.cycle || p < w.off
    ensures Load64(mem, p) == -1 ==> lap < w.cycle
    ensures Load64(mem, p) != -1 ==>
              AtFrame(log, lap, next, p) && Load64(mem, p) == |log[next].msg| && PayloadAt(mem, log[next])
  {
  }

  /** Stores inside [w.off, end) spare the positions at or beyond `end`, and the payloads there. */
  lemma PlacedAfterFrame(m0: seq<byte>, m1: seq<byte>, log: seq<Entry>, w: Ptr, size: nat, end: nat,
                         lap: nat, next: nat, p: nat)
    requires LogOk(log, w, size) && |m0| == size
    requires SameBelow(m0, m1, w.off) && SameFrom(m0, m1, end)
    requires Placed(m0, log, w, end, lap, next, p)
    ensures Placed(m1, log, w, end, lap, next, p)
    ensures AtFrame(log, lap, next, p) && PayloadAt(m0, log[next]) ==> PayloadAt(m1, log[next])
  {
    if lap == w.cycle {
      if AtFrame(log, lap, next, p) && PayloadAt(m0, log[next]) {
        PayloadSame(m0, m1, w.off, log[next]);
      }
    } else {
      SameFurther(m0, m1, end, p);
      OldUntouched(m0, m1, log, w, size, lap, next, p);
      if AtFrame(log, lap, next, p) && PayloadAt(m0, log[next]) {
        PayloadSame(m0, m1, p, log[next]);
      }
    }
  }

  /** A message stored at the write pointer becomes the next message of the history. */
  lemma BufferAfterPublish(m0: seq<byte>, m1: seq<byte>, log: seq<Entry>, w: Ptr, size: nat, e: Entry)
    requires LogOk(log, w, size) && Current(m0, log, w) && |m0| == size
    requires SameBelow(m0, m1, w.off) && Copied(m1, w.off, e.msg, |e.msg|)
    requires Framed(e) && e.lap == w.cycle && e.off == w.off && e.end + 8 < size
    ensures LogOk(log + [e], Ptr(e.lap, e.end), size)
    ensures Current(m1, log + [e], Ptr(e.lap, e.end)) && FrameAt(m1, e)
  {
    assert e.msg[..|e.msg|] == e.msg;
    CurrentUntouched(m0, m1, log, w, size);
    LogAfterPublish(log, w, size, e);
  }

  /** A position out of the way of a frame stays sound while the frame is stored and published. */
  lemma PlacedAfterSend(m0: seq<byte>, m1: seq<byte>, log: seq<Entry>, w: Ptr, size: nat, e: Entry,
                        lap: nat, next: nat, p: nat)
    requires LogOk(log, w, size) && |m0| == size && e.lap == w.cycle && e.off == w.off < e.end
    requires SameBelow(m0, m1, w.off) && SameFrom(m0, m1, e.end)
    requires Placed(m0, log, w, w.off, lap, next, p)
    requires w.off <= p < e.end ==> lap == w.cycle
    ensures Placed(m1, log + [e], Ptr(e.lap, e.end), e.end, lap, next, p)
  {
    PlacedAfterFrame(m0, m1, log, w, size, e.end, lap, next, p);
    PlacedAfterPublish(m1, log, w, size, e, lap, next, p);
  }

  /** A position at or beyond the write pointer stays sound while the buffer wraps around. */
  lemma PlacedAfterTagAndWrap(mem: seq<byte>, log: seq<Entry>, w: Ptr, size: nat, lap: nat, next: nat, p: nat)
    requires LogOk(log, w, size) && |mem| == size && 0 < w.off && w.off + 8 <= size && Current(mem, log, w)
    requires Placed(mem, log, w, w.off, lap, next, p)
    ensures Placed(Store64(mem, w.off, -1), log, Ptr(w.cycle + 1, 0), 0, lap, next, p)
  {
    var mem' := Store64(mem, w.off, -1);
    Store64Spec(mem, w.off, -1);
    CurrentUntouched(mem, mem', log, w, size);
    PlacedAfterTag(mem, log, w, size, lap, next, p);
    PlacedAfterWrap(mem', log, w, size, lap, next, p);
  }

  lemma BufferAfterWrap(mem: seq<byte>, log: seq<Entry>, w: Ptr, size: nat)
    requires LogOk(log, w, size) && |mem| == size && 0 < w.off && w.off + 8 <= size
    ensures LogOk(log, Ptr(w.cycle + 1, 0), size)
    ensures Current(Store64(mem, w.off, -1), log, Ptr(w.cycle + 1, 0))
  {
  }
}
