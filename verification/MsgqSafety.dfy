/**
 What every interleaving of MSGQ keeps: the invariant of the step machine, and from it that
 subscribers never return torn, invented, repeated or reordered messages.
 */
module MsgqSafety {
  import opened Bytes
  import opened MsgqLayout
  import opened MsgqMachine

  // ---------------------------------------------------------------- invariant

  /** The writer of this send will no longer look at reader `i` before it writes. */
  predicate Checked(s: State, i: nat)
  {
    match s.writer
    case WCheck(_, nr, _, k) => i < k || i >= nr
    case WClear(_, nr, _, k) => i < k || i >= nr
    case _ => true
  }

  /** Valid readers that are laps behind stand at or beyond this offset. */
  function Lo(s: State, i: nat): nat
  {
    if Checked(s, i) then WriteEnd(s) else s.w.off
  }

  predicate Settled(r: Reader) { !r.pc.RResetLoad? && !r.pc.RResetStore? }

  ghost predicate InPlace(s: State, i: nat, r: Reader)
  {
    && Placed(s.mem, s.log, s.w, Lo(s, i), r.lap, r.next, r.ptr.off)
    && r.ptr.cycle <= r.lap
  }

  ghost predicate Behind(s: State, r: Reader)
  {
    r.lap < s.w.cycle || r.ptr.off < s.w.off
  }

  ghost predicate OnFrame(s: State, r: Reader, size: int)
  {
    && AtFrame(s.log, r.lap, r.next, r.ptr.off)
    && PayloadAt(s.mem, s.log[r.next])
    && size == |s.log[r.next].msg|
  }

  /** What a valid reader's local variables stand for. */
  ghost predicate Locals(s: State, r: Reader)
  {
    match r.pc
    case RWrite(rp) => rp == r.ptr
    case RSize(rp, wp) => rp == r.ptr && Behind(s, r)
    case RRecheck(rp, wp, size) =>
      rp == r.ptr && Behind(s, r) && (if size == -1 then r.lap < s.w.cycle else OnFrame(s, r, size))
    case RJump(rp) => rp == r.ptr && r.lap < s.w.cycle
    case RSkip(rp, size) => rp == r.ptr && Behind(s, r) && OnFrame(s, r, size)
    case RCopy(rp, size, acc) =>
      && rp == r.ptr && Behind(s, r) && OnFrame(s, r, size)
      && |acc| <= size && acc == s.log[r.next].msg[..|acc|]
    case RFinal(acc) => r.next > 0 && r.next <= |s.log| && acc == s.log[r.next - 1].msg
    case _ => true
  }

  /** A write pointer held by a reader that is resetting. */
  ghost predicate Pending(s: State, wp: Ptr, n: nat)
  {
    && (wp.cycle < s.w.cycle || (wp.cycle == s.w.cycle && wp.off <= s.w.off))
    && n <= |s.log|
    && (Fresh(s, wp) ==> Placed(s.mem, s.log, s.w, WriteEnd(s), wp.cycle, n, wp.off))
  }

  /** A reader that subscribed after the running send counted the readers. */
  ghost predicate Late(s: State, i: nat)
  {
    match s.writer
    case WPtr(_, nr) => i >= nr
    case WTag(_, nr, _) => i >= nr
    case WWrapCheck(_, nr, _, _) => i >= nr
    case WWrapClear(_, nr, _, _) => i >= nr
    case _ => false
  }

  ghost predicate Increasing(idx: seq<nat>)
  {
    forall j, k | 0 <= j < k < |idx| :: idx[j] < idx[k]
  }

  /** What was returned outside a spell after a lapped reset. */
  function Outside(out: seq<Msg>, doubt: seq<bool>): (r: seq<Msg>)
    requires |out| == |doubt|
    ensures |r| <= |out|
  {
    if out == [] then []
    else Outside(out[..|out| - 1], doubt[..|out| - 1]) + if doubt[|out| - 1] then [] else [out[|out| - 1]]
  }

  /** Those messages are published messages, at strictly increasing indices; since the last reset there
      are no others, unless a spell is going on. */
  ghost predicate Recorded(log: seq<Entry>, out: seq<Msg>, doubt: seq<bool>, idx: seq<nat>, base: nat, mark: nat,
                           over: bool)
  {
    && |doubt| == |out| && |idx| == |Outside(out, doubt)| && Increasing(idx)
    && (forall k | 0 <= k < |idx| :: idx[k] < |log| && Outside(out, doubt)[k] == log[idx[k]].msg)
    && mark <= |out| && base == |Outside(out[..mark], doubt[..mark])|
    && (!over ==> forall k | mark <= k < |out| :: !doubt[k])
  }

  ghost predicate Below(idx: seq<nat>, b: int)
  {
    forall k | 0 <= k < |idx| :: idx[k] < b
  }

  ghost predicate History(log: seq<Entry>, r: Reader)
  {
    Recorded(log, r.out, r.doubt, r.idx, r.base, r.mark, r.over)
  }

  /** What is known of any reader that is resetting. */
  ghost predicate ResetOk(s: State, i: nat, r: Reader)
  {
    && (r.pc.RResetStore? ==> Pending(s, r.pc.wp, r.pc.n) && Below(r.idx, r.pc.n))
    && (r.pc.RResetStore? && Late(s, i) ==> r.pc.wp == s.w && r.pc.n == |s.log|)
  }

  /** What is known of a reader whose last reset was not lapped. */
  ghost predicate SoundOk(s: State, i: nat, r: Reader)
  {
    && (!r.pc.RResetStore? ==> Below(r.idx, if r.pc.RFinal? then r.next - 1 else r.next))
    && (r.valid && Settled(r) ==> InPlace(s, i, r) && Locals(s, r))
    && (r.valid && Settled(r) && Late(s, i) ==> r.lap == s.w.cycle && r.next == |s.log|)
    && (r.pc.RCrash? ==> exists k :: 0 <= k < |s.log| && s.log[k].msg == [])
  }

  ghost predicate ReaderOk(s: State, i: nat, r: Reader)
  {
    History(s.log, r) && ResetOk(s, i, r) && (!r.over ==> SoundOk(s, i, r))
  }

  // ---------------------------------------------------------------- what was returned

  lemma OutsidePush(out: seq<Msg>, doubt: seq<bool>, m: Msg, b: bool)
    requires |out| == |doubt|
    ensures Outside(out + [m], doubt + [b]) == Outside(out, doubt) + if b then [] else [m]
  {
    assert (out + [m])[..|out|] == out && (doubt + [b])[..|out|] == doubt;
  }

  /** Outside a spell all that was returned since a mark counts. */
  lemma {:induction false} OutsideSince(out: seq<Msg>, doubt: seq<bool>, mark: nat)
    requires mark <= |out| == |doubt| && forall k | mark <= k < |out| :: !doubt[k]
    ensures Outside(out, doubt) == Outside(out[..mark], doubt[..mark]) + out[mark..]
  {
    if mark == |out| {
      assert out[..mark] == out && doubt[..mark] == doubt;
    } else {
      var n := |out| - 1;
      OutsideSince(out[..n], doubt[..n], mark);
      assert out[..n][..mark] == out[..mark] && doubt[..n][..mark] == doubt[..mark];
      assert out[mark..] == out[..n][mark..] + [out[n]];
    }
  }

  /** A subscriber without a lapped reset has returned nothing else. */
  lemma NoSpells(out: seq<Msg>, doubt: seq<bool>)
    requires |out| == |doubt| && forall k | 0 <= k < |out| :: !doubt[k]
    ensures Outside(out, doubt) == out
  {
    OutsideSince(out, doubt, 0);
  }

  lemma RecordGrows(log: seq<Entry>, log': seq<Entry>, r: Reader)
    requires History(log, r) && |log| <= |log'| && forall k | 0 <= k < |log| :: log'[k] == log[k]
    ensures History(log', r)
  {
    hide Outside;
  }

  lemma RecordAppends(log: seq<Entry>, r: Reader, r': Reader, k: nat, m: Msg)
    requires History(log, r) && r'.base == r.base && r'.mark == r.mark && r'.over == r.over
    requires r'.out == r.out + [m] && r'.doubt == r.doubt + [r.over]
    requires r'.idx == if r.over then r.idx else r.idx + [k]
    requires !r.over ==> k < |log| && log[k].msg == m && Below(r.idx, k)
    ensures History(log, r')
  {
    hide Outside;
    OutsidePush(r.out, r.doubt, m, r.over);
    assert r'.out[..r.mark] == r.out[..r.mark] && r'.doubt[..r.mark] == r.doubt[..r.mark];
  }

  lemma RecordRestarts(log: seq<Entry>, r: Reader, r': Reader)
    requires History(log, r) && r'.out == r.out && r'.doubt == r.doubt && r'.idx == r.idx
    requires r'.base == |r.idx| && r'.mark == |r.out|
    ensures History(log, r')
  {
    hide Outside;
    assert r.out[..|r.out|] == r.out && r.doubt[..|r.out|] == r.doubt;
  }

  ghost predicate WriterOk(s: State)
  {
    match s.writer
    case WIdle => s.w.off == 0 ==> s.log == []
    case WDead => true
    case WNum(m) => Fits(m, s.size)
    case WPtr(m, nr) => Fits(m, s.size) && nr <= |s.readers|
    case WTag(m, nr, at) =>
      Fits(m, s.size) && nr <= |s.readers| && at == s.w && MustWrap(m, at.off, s.size)
    case WWrapCheck(m, nr, at, i) =>
      && Fits(m, s.size) && i <= nr <= |s.readers| && at == s.w && MustWrap(m, at.off, s.size)
      && TagAt(s.mem, at.off)
    case WWrapClear(m, nr, at, i) =>
      && Fits(m, s.size) && i < nr <= |s.readers| && at == s.w && MustWrap(m, at.off, s.size)
      && TagAt(s.mem, at.off)
    case WCheck(m, nr, at, i) =>
      Fits(m, s.size) && i <= nr <= |s.readers| && at == s.w && !MustWrap(m, at.off, s.size)
    case WClear(m, nr, at, i) =>
      Fits(m, s.size) && i < nr <= |s.readers| && at == s.w && !MustWrap(m, at.off, s.size)
    case WCopy(m, nr, at, k) =>
      && Fits(m, s.size) && nr <= |s.readers| && at == s.w && !MustWrap(m, at.off, s.size)
      && Copied(s.mem, at.off, m, k)
  }

  ghost predicate BufferOk(s: State)
  {
    && |s.mem| == s.size < 0xFFFF_FFFF
    && LogOk(s.log, s.w, s.size)
    && Current(s.mem, s.log, s.w)
  }

  ghost predicate Inv(s: State)
  {
    && BufferOk(s)
    && WriterOk(s)
    && forall i | 0 <= i < |s.readers| :: ReaderOk(s, i, s.readers[i])
  }

  // ---------------------------------------------------------------- publisher steps

  /** A reader does not notice a step of the publisher that only moves the region it is
      about to write, as long as the reader is not in that region. */
  lemma Unmoved(s: State, s': State, i: nat, r: Reader)
    requires ReaderOk(s, i, r)
    requires s'.mem == s.mem && s'.log == s.log && s'.w == s.w && s'.size == s.size
    requires !r.over && r.valid && Settled(r) ==> r.lap == s.w.cycle || r.ptr.off >= Lo(s', i)
    requires WriteEnd(s') >= WriteEnd(s)
    requires Late(s', i) ==> Late(s, i)
    ensures ReaderOk(s', i, r)
  {
    hide Recorded;
  }

  /** Nor does it matter to a reader's soundness that its slot is marked invalid. */
  lemma Invalidated(s: State, i: nat, r: Reader)
    requires ReaderOk(s, i, r)
    ensures ReaderOk(s, i, r.(valid := false))
  {
    hide Recorded;
  }

  lemma SearchStep(s: State)
    requires Inv(s)
    requires s.writer.WNum? || s.writer.WPtr?
    ensures Inv(StepWriter(s))
  {
    hide Recorded;
    var s' := StepWriter(s);
    if s.writer.WPtr? {
      AlignShift(s.w.off, |s.writer.m|);
    }
    forall i | 0 <= i < |s.readers|
      ensures ReaderOk(s', i, s'.readers[i])
    {
      Unmoved(s, s', i, s.readers[i]);
    }
  }

  lemma WrapCheckStep(s: State)
    requires Inv(s) && s.writer.WWrapCheck? && s.writer.i < s.writer.nr
    ensures Inv(StepWriter(s))
  {
    hide Recorded;
    var s' := StepWriter(s);
    forall i | 0 <= i < |s.readers|
      ensures ReaderOk(s', i, s'.readers[i])
    {
      Unmoved(s, s', i, s.readers[i]);
    }
  }

  lemma CheckReader(s: State, i: nat)
    requires Inv(s) && s.writer.WCheck? && s.writer.i < s.writer.nr && i < |s.readers|
    ensures ReaderOk(StepWriter(s), i, s.readers[i])
  {
    hide Old;
    hide LogOk;
    hide Current;
    hide Recorded;
    Unmoved(s, StepWriter(s), i, s.readers[i]);
  }

  lemma CheckStep(s: State)
    requires Inv(s) && s.writer.WCheck? && s.writer.i < s.writer.nr
    ensures Inv(StepWriter(s))
  {
    hide ReaderOk;
    hide LogOk;
    var s' := StepWriter(s);
    assert s'.readers == s.readers && WriterOk(s');
    forall i | 0 <= i < |s.readers|
      ensures ReaderOk(s', i, s.readers[i])
    {
      CheckReader(s, i);
    }
  }

  lemma ClearReader(s: State, i: nat)
    requires Inv(s) && (s.writer.WClear? || s.writer.WWrapClear?) && i < |s.readers|
    ensures ReaderOk(StepWriter(s), i, StepWriter(s).readers[i])
  {
    hide Recorded;
    var s' := StepWriter(s);
    var r := s.readers[i];
    if i == s.writer.i {
      Invalidated(s, i, r);
      Unmoved(s, s', i, r.(valid := false));
    } else {
      Unmoved(s, s', i, r);
    }
  }

  lemma ClearStep(s: State)
    requires Inv(s) && (s.writer.WClear? || s.writer.WWrapClear?)
    ensures Inv(StepWriter(s))
  {
    hide ReaderOk;
    hide LogOk;
    var s' := StepWriter(s);
    assert WriterOk(s');
    forall i | 0 <= i < |s'.readers|
      ensures ReaderOk(s', i, s'.readers[i])
    {
      ClearReader(s, i);
    }
  }

  // ---------------------------------------------------------------- publisher stores

  /** A store does not harm a reader when it keeps the positions the reader holds sound and
      spares the payload there. */
  lemma Stored(s: State, s': State, i: nat, r: Reader)
    requires ReaderOk(s, i, r)
    requires s'.log == s.log && s'.w == s.w && s'.size == s.size
    requires WriteEnd(s') == WriteEnd(s) && (Late(s', i) ==> Late(s, i))
    requires !r.over && r.valid && Settled(r) ==>
               && Placed(s'.mem, s.log, s.w, Lo(s', i), r.lap, r.next, r.ptr.off)
               && (AtFrame(s.log, r.lap, r.next, r.ptr.off) && PayloadAt(s.mem, s.log[r.next])
                   ==> PayloadAt(s'.mem, s.log[r.next]))
    requires r.pc.RResetStore? && Fresh(s, r.pc.wp) ==>
               Placed(s'.mem, s.log, s.w, WriteEnd(s), r.pc.wp.cycle, r.pc.n, r.pc.wp.off)
    ensures ReaderOk(s', i, r)
  {
    hide Recorded;
  }

  lemma StoredTag(s: State, i: nat)
    requires Inv(s) && s.writer.WTag? && i < |s.readers|
    ensures ReaderOk(StepWriter(s), i, StepWriter(s).readers[i])
  {
    hide Recorded;
    var r := s.readers[i];
    var s' := StepWriter(s);
    WrapRoom(s.writer.m, s.w.off, s.size);
    if !r.over && r.valid && Settled(r) {
      PlacedAfterTag(s.mem, s.log, s.w, s.size, r.lap, r.next, r.ptr.off);
      if AtFrame(s.log, r.lap, r.next, r.ptr.off) {
        OnFrameAfterTag(s, i);
      }
    }
    if r.pc.RResetStore? && Fresh(s, r.pc.wp) {
      PlacedAfterTag(s.mem, s.log, s.w, s.size, r.pc.wp.cycle, r.pc.n, r.pc.wp.off);
    }
    Stored(s, s', i, r);
  }

  /** A payload being copied survives the tag: the tag only covers the size before it. */
  lemma OnFrameAfterTag(s: State, i: nat)
    requires Inv(s) && s.writer.WTag? && i < |s.readers|
    requires !s.readers[i].over && s.readers[i].valid && Settled(s.readers[i])
    requires AtFrame(s.log, s.readers[i].lap, s.readers[i].next, s.readers[i].ptr.off)
    ensures PayloadAt(StepWriter(s).mem, s.log[s.readers[i].next])
  {
    hide Store64;
    hide Load64;
    hide Recorded;
    hide Tail;
    var r := s.readers[i];
    WrapRoom(s.writer.m, s.w.off, s.size);
    PayloadUnderTag(s.mem, s.w.off, s.log[r.next]);
  }

  lemma PayloadUnderTag(mem: seq<byte>, p: nat, e: Entry)
    requires PayloadAt(mem, e) && p + 8 <= |mem| && (p <= e.off || e.off + 8 + |e.msg| <= p)
    ensures PayloadAt(Store64(mem, p, -1), e)
  {
    hide Store64;
    hide Load64;
    Store64Spec(mem, p, -1);
    if p <= e.off {
      PayloadSame(mem, Store64(mem, p, -1), p + 8, e);
    } else {
      PayloadSame(mem, Store64(mem, p, -1), p, e);
    }
  }

  lemma TagStep(s: State)
    requires Inv(s) && s.writer.WTag?
    ensures Inv(StepWriter(s))
  {
    hide ReaderOk;
    WrapRoom(s.writer.m, s.w.off, s.size);
    Store64Spec(s.mem, s.w.off, -1);
    CurrentUntouched(s.mem, StepWriter(s).mem, s.log, s.w, s.size);
    forall i | 0 <= i < |s.readers|
      ensures ReaderOk(StepWriter(s), i, StepWriter(s).readers[i])
    {
      StoredTag(s, i);
    }
  }

  /** Stores inside the region the publisher has claimed harm nobody. */
  lemma StoredFrame(s: State, s': State, i: nat, r: Reader)
    requires Inv(s) && ReaderOk(s, i, r)
    requires s'.log == s.log && s'.w == s.w && s'.size == s.size && s'.writer.WCopy?
    requires WriteEnd(s') == WriteEnd(s) && Lo(s, i) == WriteEnd(s)
    requires SameBelow(s.mem, s'.mem, s.w.off) && SameFrom(s.mem, s'.mem, WriteEnd(s))
    ensures ReaderOk(s', i, r)
  {
    hide Recorded;
    if !r.over && r.valid && Settled(r) {
      PlacedAfterFrame(s.mem, s'.mem, s.log, s.w, s.size, WriteEnd(s), r.lap, r.next, r.ptr.off);
    }
    if r.pc.RResetStore? && Fresh(s, r.pc.wp) {
      PlacedAfterFrame(s.mem, s'.mem, s.log, s.w, s.size, WriteEnd(s), r.pc.wp.cycle, r.pc.n, r.pc.wp.off);
    }
    Stored(s, s', i, r);
  }

  /** What the store of the size, or of one payload byte, does to the buffer. */
  ghost predicate ClaimedStore(s: State, s': State)
  {
    && s'.log == s.log && s'.w == s.w && s'.size == s.size && s'.readers == s.readers
    && s'.writer.WCopy? && WriterOk(s') && WriteEnd(s') == WriteEnd(s)
    && SameBelow(s.mem, s'.mem, s.w.off) && SameFrom(s.mem, s'.mem, WriteEnd(s))
  }

  lemma SizeStore(s: State)
    requires BufferOk(s) && WriterOk(s) && s.writer.WCheck? && s.writer.i == s.writer.nr
    ensures ClaimedStore(s, StepWriter(s))
  {
    var s' := StepWriter(s);
    AlignShift(s.w.off, |s.writer.m|);
    Store64Spec(s.mem, s.w.off, |s.writer.m|);
    SameFurther(s.mem, s'.mem, s.w.off + 8, WriteEnd(s));
  }

  lemma CopyStore(s: State)
    requires |s.mem| == s.size && s.w.off % 8 == 0
    requires WriterOk(s) && s.writer.WCopy? && s.writer.k < |s.writer.m|
    ensures ClaimedStore(s, StepWriter(s))
  {
    hide Load64;
    AlignShift(s.w.off, |s.writer.m|);
    CopyByteSpec(s.mem, s.w.off, s.writer.m, s.writer.k, WriteEnd(s));
  }

  lemma StoreStep(s: State)
    requires Inv(s) && ClaimedStore(s, StepWriter(s))
    requires (s.writer.WCheck? && s.writer.i == s.writer.nr) || s.writer.WCopy?
    ensures Inv(StepWriter(s))
  {
    hide ReaderOk;
    var s' := StepWriter(s);
    CurrentUntouched(s.mem, s'.mem, s.log, s.w, s.size);
    forall i | 0 <= i < |s.readers|
      ensures ReaderOk(s', i, s.readers[i])
    {
      StoredFrame(s, s', i, s.readers[i]);
    }
  }

  // ---------------------------------------------------------------- moving the write pointer

  /** The publisher's last step, with the two header words it moves spelled out. */
  lemma PublishedState(s: State)
    requires Inv(s) && s.writer.WCopy? && s.writer.k == |s.writer.m|
    ensures var s' := StepWriter(s); var m := s.writer.m;
            var e := Entry(m, s.w.cycle, s.w.off, WriteEnd(s));
            && s'.w == Ptr(s.w.cycle, e.end) && s'.log == s.log + [e] && WriteEnd(s') == e.end
            && Framed(e) && e.end + 8 < s.size
            && s'.mem == s.mem && s'.readers == s.readers && s'.size == s.size && s'.writer == WIdle
            && s'.log[..|s.log|] == s.log
  {
    AlignShift(s.w.off, |s.writer.m|);
  }

  lemma PublishReader(s: State, i: nat)
    requires Inv(s) && s.writer.WCopy? && s.writer.k == |s.writer.m| && i < |s.readers|
    ensures ReaderOk(StepWriter(s), i, s.readers[i])
  {
    hide Recorded;
    var s' := StepWriter(s);
    var r := s.readers[i];
    PublishedState(s);
    var e := s'.log[|s.log|];
    LogGrows(s, s', i, r);
    if !r.over && r.valid && Settled(r) {
      PlacedAfterPublish(s.mem, s.log, s.w, s.size, e, r.lap, r.next, r.ptr.off);
      LocalsGrow(s, s', r);
    }
    if r.pc.RResetStore? {
      PublishPending(s, r.pc.wp, r.pc.n);
    }
  }

  lemma PublishPending(s: State, wp: Ptr, n: nat)
    requires Inv(s) && s.writer.WCopy? && s.writer.k == |s.writer.m| && Pending(s, wp, n)
    ensures Pending(StepWriter(s), wp, n)
  {
    PublishedState(s);
    var e := StepWriter(s).log[|s.log|];
    if Fresh(s, wp) {
      PlacedAfterPublish(s.mem, s.log, s.w, s.size, e, wp.cycle, n, wp.off);
    }
  }

  lemma PublishStep(s: State)
    requires Inv(s) && s.writer.WCopy? && s.writer.k == |s.writer.m|
    ensures Inv(StepWriter(s))
  {
    hide ReaderOk;
    hide LogOk;
    PublishedState(s);
    PublishLog(s);
    forall i | 0 <= i < |s.readers|
      ensures ReaderOk(StepWriter(s), i, s.readers[i])
    {
      PublishReader(s, i);
    }
  }

  lemma PublishLog(s: State)
    requires Inv(s) && s.writer.WCopy? && s.writer.k == |s.writer.m|
    ensures var s' := StepWriter(s); LogOk(s'.log, s'.w, s'.size) && Current(s'.mem, s'.log, s'.w)
  {
    var m := s.writer.m;
    PublishedState(s);
    var e := StepWriter(s).log[|s.log|];
    LogAfterPublish(s.log, s.w, s.size, e);
    assert m[..|m|] == m;
    assert FrameAt(s.mem, e);
  }

  lemma LocalsGrow(s: State, s': State, r: Reader)
    requires Locals(s, r) && |s.log| <= |s'.log|
    requires forall k | 0 <= k < |s.log| :: s'.log[k] == s.log[k]
    requires s'.mem == s.mem && s'.w.cycle == s.w.cycle && s'.w.off >= s.w.off
    ensures Locals(s', r)
  {
  }

  /** What was returned stays returned: the log only grows. */
  lemma LogGrows(s: State, s': State, i: nat, r: Reader)
    requires ReaderOk(s, i, r) && |s.log| <= |s'.log| && s'.log[..|s.log|] == s.log
    ensures forall k | 0 <= k < |s.log| :: s'.log[k] == s.log[k]
    ensures History(s'.log, r)
    ensures !r.over && r.pc.RCrash? ==> exists k :: 0 <= k < |s'.log| && s'.log[k].msg == []
  {
    forall k | 0 <= k < |s.log|
      ensures s'.log[k] == s.log[k]
    {
      assert s'.log[..|s.log|][k] == s.log[k];
    }
    RecordGrows(s.log, s'.log, r);
    if !r.over && r.pc.RCrash? {
      var k :| 0 <= k < |s.log| && s.log[k].msg == [];
      assert s'.log[k].msg == [];
    }
  }

  lemma WrapReader(s: State, i: nat)
    requires Inv(s) && s.writer.WWrapCheck? && s.writer.i == s.writer.nr && i < |s.readers|
    ensures ReaderOk(StepWriter(s), i, StepWriter(s).readers[i])
  {
    WrapSlot(s, i);
    Noted(StepWriter(s), i, s.readers[i], StepWriter(s).readers[i].lost);
  }

  lemma Noted(s: State, i: nat, r: Reader, lost: bool)
    requires ReaderOk(s, i, r)
    ensures ReaderOk(s, i, r.(lost := lost))
  {
    hide Recorded;
    hide Placed;
  }

  lemma WrapSlot(s: State, i: nat)
    requires Inv(s) && s.writer.WWrapCheck? && s.writer.i == s.writer.nr && i < |s.readers|
    ensures ReaderOk(StepWriter(s), i, s.readers[i])
  {
    hide Old;
    hide Current;
    hide Recorded;
    var r := s.readers[i];
    WrapRoom(s.writer.m, s.w.off, s.size);
    AlignShift(0, |s.writer.m|);
    if !r.over && r.valid && Settled(r) {
      PlacedAfterWrap(s.mem, s.log, s.w, s.size, r.lap, r.next, r.ptr.off);
    }
    if r.pc.RResetStore? {
      WrapPending(s, r.pc.wp, r.pc.n);
    }
  }

  lemma WrapPending(s: State, wp: Ptr, n: nat)
    requires Inv(s) && s.writer.WWrapCheck? && s.writer.i == s.writer.nr && Pending(s, wp, n)
    ensures Pending(StepWriter(s), wp, n)
  {
    WrapRoom(s.writer.m, s.w.off, s.size);
    AlignShift(0, |s.writer.m|);
    if Fresh(s, wp) {
      PlacedAfterWrap(s.mem, s.log, s.w, s.size, wp.cycle, n, wp.off);
    }
  }

  lemma WrapStep(s: State)
    requires Inv(s) && s.writer.WWrapCheck? && s.writer.i == s.writer.nr
    ensures Inv(StepWriter(s))
  {
    hide ReaderOk;
    var s' := StepWriter(s);
    WrapRoom(s.writer.m, s.w.off, s.size);
    LogAfterWrap(s.log, s.w, s.size);
    assert forall k | 0 <= k < |s.log| :: s.log[k].lap != s'.w.cycle;
    forall i | 0 <= i < |s.readers|
      ensures ReaderOk(s', i, s'.readers[i])
    {
      WrapReader(s, i);
    }
  }

  lemma WriterKeeps(s: State)
    requires Inv(s)
    ensures Inv(StepWriter(s))
  {
    match s.writer
    case WIdle =>
    case WDead =>
    case WNum(_) => SearchStep(s);
    case WPtr(_, _) => SearchStep(s);
    case WTag(_, _, _) => TagStep(s);
    case WWrapCheck(_, nr, _, i) => if i < nr { WrapCheckStep(s); } else { WrapStep(s); }
    case WWrapClear(_, _, _, _) => ClearStep(s);
    case WCheck(_, nr, _, i) => if i < nr { CheckStep(s); } else { SizeStore(s); StoreStep(s); }
    case WClear(_, _, _, _) => ClearStep(s);
    case WCopy(m, _, _, k) => if k < |m| { CopyStore(s); StoreStep(s); } else { PublishStep(s); }
  }

  // ---------------------------------------------------------------- subscriber steps

  lemma LookSteps(s: State, i: nat, r: Reader)
    requires BufferOk(s) && ReaderOk(s, i, r)
    requires r.pc.RStart? || r.pc.RPtr? || r.pc.RWrite? || r.pc.RIdle? || r.pc.RCrash?
    ensures ReaderOk(s, i, StepReader(s, r))
  {
    hide Recorded;
  }

  lemma SizeLoad(s: State, i: nat, r: Reader)
    requires BufferOk(s) && ReaderOk(s, i, r) && r.pc.RSize?
    ensures ReaderOk(s, i, StepReader(s, r))
  {
    hide Current;
    hide Recorded;
    if !r.over && r.valid {
      SizeFound(s.mem, s.log, s.w, s.size, Lo(s, i), r.lap, r.next, r.ptr.off);
    }
  }

  /** The size asserts of msgq_msg_recv can only fail on an empty message. */
  lemma Recheck(s: State, i: nat, r: Reader)
    requires BufferOk(s) && ReaderOk(s, i, r) && r.pc.RRecheck?
    ensures ReaderOk(s, i, StepReader(s, r))
  {
    hide Recorded;
    hide Placed;
    hide LogOk;
    hide Current;
    hide Late;
    hide Increasing;
    if !r.over && r.valid && r.pc.tag != -1 {
      FrameFits(s, r, r.pc.tag);
    }
    assert forall k | 0 <= k < |s.log| && |s.log[k].msg| == 0 :: s.log[k].msg == [];
  }

  lemma FrameFits(s: State, r: Reader, size: int)
    requires BufferOk(s) && OnFrame(s, r, size)
    ensures 0 <= size < s.size && size == |s.log[r.next].msg|
  {
    assert s.log[r.next].end + 8 < s.size;
  }

  lemma Jump(s: State, i: nat, r: Reader)
    requires BufferOk(s) && ReaderOk(s, i, r) && r.pc.RJump?
    ensures ReaderOk(s, i, StepReader(s, r))
  {
    hide Recorded;
    hide Placed;
    hide LogOk;
    if !r.over && r.valid {
      PlacedAfterJump(s.mem, s.log, s.w, s.size, Lo(s, i), r.lap, r.next, r.ptr.off);
    }
  }

  lemma NextFrame(s: State, i: nat, r: Reader, size: int)
    requires BufferOk(s) && InPlace(s, i, r) && OnFrame(s, r, size)
    ensures r.next + 1 <= |s.log|
    ensures Placed(s.mem, s.log, s.w, Lo(s, i), r.lap, r.next + 1, Align(r.ptr.off + 8 + size))
  {
    AlignIs(r.ptr.off + 8 + size, s.log[r.next].end);
    PlacedAfterRead(s.mem, s.log, s.w, s.size, Lo(s, i), r.lap, r.next, r.ptr.off);
  }

  lemma Skip(s: State, i: nat, r: Reader)
    requires BufferOk(s) && ReaderOk(s, i, r) && r.pc.RSkip?
    ensures ReaderOk(s, i, StepReader(s, r))
  {
    hide Recorded;
    hide Placed;
    hide LogOk;
    if !r.over && r.valid {
      NextFrame(s, i, r, r.pc.size);
    }
  }

  lemma CopyDone(s: State, i: nat, r: Reader)
    requires BufferOk(s) && ReaderOk(s, i, r) && r.pc.RCopy? && |r.pc.acc| >= r.pc.size
    ensures ReaderOk(s, i, StepReader(s, r))
  {
    hide Recorded;
    hide Placed;
    hide LogOk;
    if !r.over && r.valid {
      NextFrame(s, i, r, r.pc.size);
      var m := s.log[r.next].msg;
      assert m[..|m|] == m;
    }
  }

  lemma CopyLoad(s: State, i: nat, r: Reader)
    requires BufferOk(s) && ReaderOk(s, i, r) && r.pc.RCopy? && |r.pc.acc| < r.pc.size
    ensures ReaderOk(s, i, StepReader(s, r))
  {
    hide Recorded;
    hide Placed;
    hide LogOk;
    if !r.over && r.valid {
      var e := s.log[r.next];
      var k := |r.pc.acc|;
      assert s.mem[e.off + 8 + k] == s.mem[e.off + 8..e.off + 8 + |e.msg|][k];
      assert e.msg[..k + 1] == e.msg[..k] + [e.msg[k]];
    }
  }

  lemma Final(s: State, i: nat, r: Reader)
    requires BufferOk(s) && ReaderOk(s, i, r) && r.pc.RFinal?
    ensures ReaderOk(s, i, StepReader(s, r))
  {
    hide Placed;
    hide LogOk;
    hide Current;
    hide Recorded;
    if r.valid {
      RecordAppends(s.log, r, StepReader(s, r), if r.next == 0 then 0 else r.next - 1, r.pc.acc);
    }
  }

  lemma MarkValid(s: State, i: nat, r: Reader)
    requires BufferOk(s) && WriterOk(s) && ReaderOk(s, i, r) && r.pc.RResetValid?
    ensures ReaderOk(s, i, StepReader(s, r))
  {
    hide Recorded;
    hide Placed;
    hide LogOk;
    hide Current;
  }

  lemma LoadPointer(s: State, i: nat, r: Reader)
    requires BufferOk(s) && WriterOk(s) && ReaderOk(s, i, r) && r.pc.RResetLoad?
    ensures ReaderOk(s, i, StepReader(s, r))
  {
    hide Current;
    hide Old;
    hide Recorded;
    RecordBelow(s.log, r);
  }

  /** A reset goes beyond all that was returned. */
  lemma RecordBelow(log: seq<Entry>, r: Reader)
    requires History(log, r)
    ensures Below(r.idx, |log|)
  {
    hide Outside;
  }

  lemma StorePointer(s: State, i: nat, r: Reader)
    requires BufferOk(s) && WriterOk(s) && ReaderOk(s, i, r) && r.pc.RResetStore?
    ensures ReaderOk(s, i, StepReader(s, r))
  {
    hide Current;
    hide Recorded;
    RecordRestarts(s.log, r, StepReader(s, r));
  }

  lemma ReaderKeeps(s: State, i: nat, r: Reader)
    requires BufferOk(s) && WriterOk(s) && ReaderOk(s, i, r)
    ensures ReaderOk(s, i, StepReader(s, r))
  {
    match r.pc
    case RSize(_, _) => SizeLoad(s, i, r);
    case RRecheck(_, _, _) => Recheck(s, i, r);
    case RJump(_) => Jump(s, i, r);
    case RSkip(_, _) => Skip(s, i, r);
    case RCopy(_, size, acc) => if |acc| < size { CopyLoad(s, i, r); } else { CopyDone(s, i, r); }
    case RFinal(_) => Final(s, i, r);
    case RResetValid => MarkValid(s, i, r);
    case RResetLoad => LoadPointer(s, i, r);
    case RResetStore(_, _) => StorePointer(s, i, r);
    case _ => LookSteps(s, i, r);
  }

  lemma ReadersOnly(s: State, s': State, i: nat, r: Reader)
    requires ReaderOk(s, i, r)
    requires s' == s.(readers := s'.readers)
    ensures ReaderOk(s', i, r)
  {
    hide Recorded;
  }

  lemma SendKeeps(s: State, m: Msg)
    requires Inv(s)
    ensures Inv(Do(s, Send(m)))
  {
    hide Recorded;
    var s' := Do(s, Send(m));
    if s.writer.WIdle? {
      forall i | 0 <= i < |s.readers|
        ensures ReaderOk(s', i, s.readers[i])
      {
        Unmoved(s, s', i, s.readers[i]);
      }
    }
  }

  lemma StepKeeps(s: State, id: nat)
    requires Inv(s)
    ensures Inv(Do(s, Step(id)))
  {
    hide ReaderOk;
    hide LogOk;
    hide StepReader;
    var s' := Do(s, Step(id));
    if id < |s.readers| {
      ReaderKeeps(s, id, s.readers[id]);
      forall i | 0 <= i < |s.readers|
        ensures ReaderOk(s', i, s'.readers[i])
      {
        ReadersOnly(s, s', i, s'.readers[i]);
      }
    }
  }

  lemma RecvKeeps(s: State, id: nat)
    requires Inv(s)
    ensures Inv(Do(s, Recv(id)))
  {
    hide Recorded;
    hide Placed;
    hide LogOk;
    var s' := Do(s, Recv(id));
    assert s' == s.(readers := s'.readers);
    forall i | 0 <= i < |s.readers|
      ensures ReaderOk(s', i, s'.readers[i])
    {
      ReadersOnly(s, s', i, s.readers[i]);
    }
  }

  /** A subscriber may join at any moment, also in the middle of a send. */
  lemma SubscribeKeeps(s: State, conflate: bool)
    requires Inv(s)
    ensures Inv(Do(s, Subscribe(conflate)))
  {
    var s' := Do(s, Subscribe(conflate));
    assert s' == s.(readers := s'.readers);
    forall i | 0 <= i < |s'.readers|
      ensures ReaderOk(s', i, s'.readers[i])
    {
      if i < |s.readers| {
        ReadersOnly(s, s', i, s.readers[i]);
      }
    }
  }

  /** Every action of every process keeps the invariant. */
  lemma DoKeeps(s: State, a: Action)
    requires Inv(s)
    ensures Inv(Do(s, a))
  {
    match a
    case Writer => WriterKeeps(s);
    case Send(m) => SendKeeps(s, m);
    case Step(id) => StepKeeps(s, id);
    case Recv(id) => RecvKeeps(s, id);
    case Subscribe(conflate) => SubscribeKeeps(s, conflate);
  }

  // ---------------------------------------------------------------- all runs

  lemma InitOk(mem: seq<byte>)
    requires |mem| < 0xFFFF_FFFF
    ensures Inv(Init(mem))
  {
  }

  lemma {:induction false} RunKeeps(s: State, acts: seq<Action>)
    requires Inv(s)
    ensures Inv(Run(s, acts))
    decreases |acts|
  {
    hide Inv;
    if acts != [] {
      DoKeeps(s, acts[0]);
      RunKeeps(Do(s, acts[0]), acts[1..]);
    }
  }

  /** Exactly when a reset begins a spell: the writer has gone two laps on since the reader loaded its
      pointer, or one lap on and beyond that offset, counting the frame that it is about to store. */
  lemma SpellIff(s: State, i: nat)
    requires Inv(s) && i < |s.readers| && s.readers[i].pc.RResetStore?
    ensures var r := s.readers[i]; var wp := r.pc.wp;
            StepReader(s, r).over <==>
              r.valid && (wp.cycle + 1 < s.w.cycle || (wp.cycle + 1 == s.w.cycle && wp.off < WriteEnd(s)))
  {
    hide Recorded;
    assert ReaderOk(s, i, s.readers[i]);
  }

  /** There are never more than fifteen subscribers, and one more may come while there are fewer. */
  lemma {:induction false} AtMostFifteen(s: State, acts: seq<Action>)
    requires |s.readers| <= 15
    ensures |Run(s, acts).readers| <= 15
    ensures forall conflate :: |Do(s, Subscribe(conflate)).readers| > |s.readers| <==> |s.readers| < 15
    decreases |acts|
  {
    if acts != [] {
      CountAfter(s, acts[0]);
      AtMostFifteen(Do(s, acts[0]), acts[1..]);
    }
  }

  lemma CountAfter(s: State, a: Action)
    requires |s.readers| <= 15
    ensures |Do(s, a).readers| <= 15
  {
    hide StepReader;
  }

  /** `out` is `log` with messages left out, but none torn, invented, repeated or reordered. */
  ghost predicate Faithful(out: seq<Msg>, log: seq<Entry>)
  {
    exists idx: seq<nat> ::
      && |idx| == |out| && Increasing(idx)
      && forall k | 0 <= k < |idx| :: idx[k] < |log| && out[k] == log[idx[k]].msg
  }

  /** No torn reads: whatever the schedule, what each subscriber has returned is a subsequence of the
      messages published, byte for byte, but for what it returns in a spell: from a reset that the writer
      laps between the load of the write pointer and its store, with the flag still set, to the next
      reset. A subscriber without such a reset has returned nothing else. */
  lemma NoTornReads(mem: seq<byte>, acts: seq<Action>)
    requires |mem| < 0xFFFF_FFFF
    ensures var s := Run(Init(mem), acts);
            forall i | 0 <= i < |s.readers| ::
              var r := s.readers[i]; |r.doubt| == |r.out| && Faithful(Outside(r.out, r.doubt), s.log)
    ensures var s := Run(Init(mem), acts);
            forall i | 0 <= i < |s.readers| && (forall k | 0 <= k < |s.readers[i].doubt| :: !s.readers[i].doubt[k]) ::
              Faithful(s.readers[i].out, s.log)
  {
    hide Outside;
    hide Faithful;
    var s := Run(Init(mem), acts);
    InitOk(mem);
    RunKeeps(Init(mem), acts);
    forall i | 0 <= i < |s.readers|
      ensures |s.readers[i].doubt| == |s.readers[i].out|
      ensures Faithful(Outside(s.readers[i].out, s.readers[i].doubt), s.log)
    {
      FaithfulOut(s.log, s.readers[i]);
    }
    forall i | 0 <= i < |s.readers| && forall k | 0 <= k < |s.readers[i].doubt| :: !s.readers[i].doubt[k]
      ensures Faithful(s.readers[i].out, s.log)
    {
      NoSpells(s.readers[i].out, s.readers[i].doubt);
    }
  }

  lemma FaithfulOut(log: seq<Entry>, r: Reader)
    requires History(log, r)
    ensures |r.doubt| == |r.out| && Faithful(Outside(r.out, r.doubt), log)
  {
    hide Outside;
  }

  /** The size asserts of msgq_msg_recv hold, outside such a spell, in every run that publishes no
      empty message. */
  lemma NoCrash(mem: seq<byte>, acts: seq<Action>, i: nat)
    requires |mem| < 0xFFFF_FFFF
    ensures var s := Run(Init(mem), acts);
            i < |s.readers| && !s.readers[i].over && s.readers[i].pc.RCrash? ==>
              exists k :: 0 <= k < |s.log| && s.log[k].msg == []
  {
    var s := Run(Init(mem), acts);
    InitOk(mem);
    RunKeeps(Init(mem), acts);
    if i < |s.readers| && !s.readers[i].over {
      assert ReaderOk(s, i, s.readers[i]);
    }
  }
}
