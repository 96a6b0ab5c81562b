/**
 Gap-freedom: when does a subscriber that does not conflate return every message?

 The emptiness test of msgq_msg_recv compares offsets only, and the search for readers
 beyond the wraparound tag uses a strict comparison. So a reader can be left behind, still
 marked valid, when the writer enters a new lap, and it can follow a tag that stands on the
 size of its next message. This module shows that in every run these two events are exactly
 what loses messages without a reset.
 */
module MsgqOrder {
  import opened Bytes
  import opened MsgqLayout
  import opened MsgqMachine
  import opened MsgqSafety

  /** Valid, not in the middle of a reset, and neither of the two events since the last one. */
  predicate Tracked(r: Reader) { r.valid && Settled(r) && !r.lost }

  /** The reader's cycle counter is exact, and the writer, in lap `cycle`, is at most one ahead. */
  predicate Tracks(cycle: nat, r: Reader)
  {
    r.ptr.cycle == r.lap && cycle <= r.lap + 1
  }

  /** How many messages the reader has passed; one that it has copied but not returned does not count. */
  function Passed(r: Reader): int { if r.pc.RFinal? then r.next - 1 else r.next }

  /** Since the last reset, one message after the other, starting with the one that came next. */
  ghost predicate Contiguous(r: Reader)
  {
    && r.base <= |r.idx|
    && (forall k | r.base <= k < |r.idx| :: r.idx[k] == r.start + (k - r.base))
    && (Tracked(r) ==> Passed(r) == r.start + (|r.idx| - r.base))
  }

  /** Message m has been published since the last reset, has not been returned since, is not about to
      be, and the reader has passed it, or will pass over the lap it is in. */
  ghost predicate Missed(log: seq<Entry>, cycle: nat, r: Reader, m: nat)
  {
    && r.start <= m < |log| && r.base <= |r.idx|
    && (forall k | r.base <= k < |r.idx| :: r.idx[k] != m)
    && (r.pc.RFinal? && r.valid ==> m != r.next - 1)
    && (m < r.next || r.lap < log[m].lap < cycle)
  }

  ghost predicate MissesSome(log: seq<Entry>, cycle: nat, r: Reader)
  {
    exists m: nat :: Missed(log, cycle, r, m)
  }

  ghost predicate OrderOk(log: seq<Entry>, cycle: nat, r: Reader)
  {
    && (r.pc.RSkip? ==> r.conflate)
    && (Tracked(r) ==> Tracks(cycle, r))
    && (!r.conflate && !r.lost ==> Contiguous(r))
    && (!r.conflate && r.lost && r.valid && Settled(r) ==> MissesSome(log, cycle, r))
  }

  ghost predicate OrderInv(s: State)
  {
    forall i | 0 <= i < |s.readers| && !s.readers[i].over :: OrderOk(s.log, s.w.cycle, s.readers[i])
  }

  // ---------------------------------------------------------------- publisher

  ghost predicate Extends(log: seq<Entry>, log': seq<Entry>)
  {
    |log| <= |log'| && forall k | 0 <= k < |log| :: log'[k] == log[k]
  }

  lemma MissedKept(log: seq<Entry>, log': seq<Entry>, cycle: nat, cycle': nat, r: Reader)
    requires MissesSome(log, cycle, r) && Extends(log, log') && cycle <= cycle'
    ensures MissesSome(log', cycle', r)
  {
    var m: nat :| Missed(log, cycle, r, m);
    assert Missed(log', cycle', r, m);
  }

  /** Most steps of the publisher only matter to the readers whose flag they clear. */
  lemma Kept(log: seq<Entry>, log': seq<Entry>, cycle: nat, r: Reader, valid: bool)
    requires OrderOk(log, cycle, r) && (valid ==> r.valid) && Extends(log, log')
    ensures OrderOk(log', cycle, r.(valid := valid))
  {
    hide MissesSome;
    var r' := r.(valid := valid);
    if valid && !r.conflate && r.lost && Settled(r) {
      MissedKept(log, log', cycle, cycle, r);
      assert r' == r;
    }
  }

  /** A reader that is left behind misses the last message of the lap it has not entered. */
  lemma LeftBehind(s: State, i: nat, r: Reader)
    requires BufferOk(s) && ReaderOk(s, i, r) && !r.over && OrderOk(s.log, s.w.cycle, r) && s.w.off > 0
    requires Tracked(r) && !r.conflate && r.ptr.cycle != s.w.cycle
    ensures |s.log| > 0 && Missed(s.log, s.w.cycle + 1, r.(lost := true), |s.log| - 1)
  {
  }

  lemma OrderAfterWrap(s: State, i: nat, r: Reader)
    requires BufferOk(s) && ReaderOk(s, i, r) && !r.over && OrderOk(s.log, s.w.cycle, r) && s.w.off > 0
    ensures OrderOk(s.log, s.w.cycle + 1, r.(lost := r.lost || (r.valid && r.ptr.cycle != s.w.cycle)))
  {
    hide BufferOk;
    hide ReaderOk;
    var r' := r.(lost := r.lost || (r.valid && r.ptr.cycle != s.w.cycle));
    if r.valid && Settled(r) && !r.conflate {
      if r.lost {
        MissedKept(s.log, s.log, s.w.cycle, s.w.cycle + 1, r);
        assert r' == r;
      } else if r'.lost {
        LeftBehind(s, i, r);
      }
    }
  }

  lemma WriterKeepsOrder(s: State)
    requires Inv(s) && OrderInv(s)
    ensures OrderInv(StepWriter(s))
  {
    hide OrderOk;
    hide ReaderOk;
    hide BufferOk;
    var s' := StepWriter(s);
    forall i | 0 <= i < |s'.readers| && !s'.readers[i].over
      ensures OrderOk(s'.log, s'.w.cycle, s'.readers[i])
    {
      if s.writer.WWrapCheck? && s.writer.i >= s.writer.nr {
        WrapRoom(s.writer.m, s.w.off, s.size);
        OrderAfterWrap(s, i, s.readers[i]);
      } else {
        Kept(s.log, s'.log, s.w.cycle, s.readers[i], s'.readers[i].valid);
      }
    }
  }

  // ---------------------------------------------------------------- subscriber

  /** A tag that really closes the reader's lap leads to the next message. */
  lemma JumpLosesNothing(s: State, i: nat, r: Reader)
    requires BufferOk(s) && InPlace(s, i, r) && r.lap + 1 == s.w.cycle
    requires !AtFrame(s.log, r.lap, r.next, r.ptr.off)
    ensures First(s.log, s.w.cycle) == r.next
  {
    hide Old;
    FirstSplits(s.log, s.w.cycle);
    assert Old(s.mem, s.log, s.w, r.lap, r.next, r.ptr.off);
    AtEndOf(s, r);
  }

  lemma AtEndOf(s: State, r: Reader)
    requires Old(s.mem, s.log, s.w, r.lap, r.next, r.ptr.off)
    requires !AtFrame(s.log, r.lap, r.next, r.ptr.off)
    ensures AtEnd(s.log, s.w, r.lap, r.next, r.ptr.off)
  {
  }

  /** A tag on the size of the next message leads past that message. */
  lemma JumpLosesNext(s: State, r: Reader)
    requires BufferOk(s) && r.lap < s.w.cycle && AtFrame(s.log, r.lap, r.next, r.ptr.off)
    ensures r.next < First(s.log, s.w.cycle)
  {
    FirstSplits(s.log, s.w.cycle);
  }

  /** No step but a reset gives back a message that is missed. */
  lemma StaysMissed(s: State, i: nat, r: Reader, m: nat)
    requires BufferOk(s) && ReaderOk(s, i, r) && !r.over && Missed(s.log, s.w.cycle, r, m) && !r.pc.RResetStore?
    ensures Missed(s.log, s.w.cycle, StepReader(s, r), m)
  {
    hide Recorded;
    hide Fresh;
    hide Placed;
    hide LogOk;
    hide Current;
    hide Load64;
    hide Load8;
    hide Align;
    if r.pc.RJump? {
      FirstSplitsAt(s, m);
    }
  }

  lemma FirstSplitsAt(s: State, m: nat)
    requires BufferOk(s) && m < |s.log|
    ensures m < First(s.log, s.w.cycle) <==> s.log[m].lap < s.w.cycle
  {
    FirstSplits(s.log, s.w.cycle);
  }

  lemma StillMissesSome(s: State, i: nat, r: Reader)
    requires BufferOk(s) && ReaderOk(s, i, r) && !r.over && MissesSome(s.log, s.w.cycle, r) && !r.pc.RResetStore?
    ensures MissesSome(s.log, s.w.cycle, StepReader(s, r))
  {
    hide BufferOk;
    hide ReaderOk;
    hide StepReader;
    var m: nat :| Missed(s.log, s.w.cycle, r, m);
    StaysMissed(s, i, r, m);
  }

  /** What a step that is no reset does to a reader that has missed a message. */
  lemma LostKeepsOrder(s: State, i: nat, r: Reader)
    requires BufferOk(s) && ReaderOk(s, i, r) && !r.over && OrderOk(s.log, s.w.cycle, r)
    requires !r.pc.RResetStore? && r.lost
    ensures OrderOk(s.log, s.w.cycle, StepReader(s, r))
  {
    hide BufferOk;
    hide ReaderOk;
    hide MissesSome;
    hide Load64;
    hide Load8;
    hide Align;
    if r.valid && Settled(r) && !r.conflate {
      StillMissesSome(s, i, r);
    }
  }

  lemma JumpKeepsOrder(s: State, i: nat, r: Reader)
    requires BufferOk(s) && ReaderOk(s, i, r) && !r.over && OrderOk(s.log, s.w.cycle, r) && r.pc.RJump? && !r.lost
    ensures OrderOk(s.log, s.w.cycle, StepReader(s, r))
  {
    hide Recorded;
    hide Placed;
    hide LogOk;
    hide Current;
    var r' := StepReader(s, r);
    if r.valid {
      if AtFrame(s.log, r.lap, r.next, r.ptr.off) {
        JumpLosesNext(s, r);
        assert !r.conflate ==> Missed(s.log, s.w.cycle, r', r.next);
      } else {
        JumpLosesNothing(s, i, r);
      }
    }
  }

  /** A reset that is not lapped starts over, whatever came before. */
  lemma StoreStartsOver(s: State, r: Reader)
    requires r.pc.RResetStore? && !StepReader(s, r).over && Pending(s, r.pc.wp, r.pc.n)
    ensures OrderOk(s.log, s.w.cycle, StepReader(s, r))
  {
    hide Placed;
  }

  lemma OtherKeepsOrder(s: State, i: nat, r: Reader)
    requires ReaderOk(s, i, r) && !r.over && OrderOk(s.log, s.w.cycle, r) && !r.pc.RJump? && !r.pc.RResetStore?
             && !r.lost
    ensures OrderOk(s.log, s.w.cycle, StepReader(s, r))
  {
    hide Recorded;
    hide Placed;
    hide Load64;
    hide Load8;
    hide Align;
  }

  lemma ReaderKeepsOrder(s: State, i: nat, r: Reader)
    requires BufferOk(s) && ReaderOk(s, i, r) && !r.over && OrderOk(s.log, s.w.cycle, r) && !r.pc.RResetStore?
    ensures OrderOk(s.log, s.w.cycle, StepReader(s, r))
  {
    hide BufferOk;
    hide ReaderOk;
    hide OrderOk;
    hide StepReader;
    if r.lost {
      LostKeepsOrder(s, i, r);
    } else if r.pc.RJump? {
      JumpKeepsOrder(s, i, r);
    } else {
      OtherKeepsOrder(s, i, r);
    }
  }

  /** Only the last step of a reset counts as one, or ends a spell of unknown messages. */
  lemma StepResets(s: State, r: Reader)
    ensures StepReader(s, r).resets == if r.pc.RResetStore? then r.resets + 1 else r.resets
    ensures !r.pc.RResetStore? ==> StepReader(s, r).over == r.over
  {
    hide Fresh;
    hide First;
    hide Load64;
    hide Align;
  }

  lemma StepKeepsOrder(s: State, i: nat, r: Reader)
    requires BufferOk(s) && ReaderOk(s, i, r) && !StepReader(s, r).over
    requires r.over || OrderOk(s.log, s.w.cycle, r)
    ensures OrderOk(s.log, s.w.cycle, StepReader(s, r))
  {
    hide BufferOk;
    hide SoundOk;
    hide StepReader;
    hide OrderOk;
    StepResets(s, r);
    if r.pc.RResetStore? {
      StoreStartsOver(s, r);
    } else {
      ReaderKeepsOrder(s, i, r);
    }
  }

  // ---------------------------------------------------------------- all runs

  lemma StartReceiving(log: seq<Entry>, cycle: nat, r: Reader)
    requires OrderOk(log, cycle, r) && r.pc.RIdle?
    ensures OrderOk(log, cycle, r.(pc := RStart))
  {
    if r.valid && r.lost && !r.conflate {
      var m: nat :| Missed(log, cycle, r, m);
      assert Missed(log, cycle, r.(pc := RStart), m);
    }
  }

  lemma FreshReader(log: seq<Entry>, cycle: nat, conflate: bool)
    ensures OrderOk(log, cycle, NewReader(conflate))
  {
  }

  lemma DoKeepsOrder(s: State, a: Action)
    requires Inv(s) && OrderInv(s)
    ensures OrderInv(Do(s, a))
  {
    hide ReaderOk;
    hide OrderOk;
    hide BufferOk;
    hide StepReader;
    if a.Writer? {
      WriterKeepsOrder(s);
    } else {
      var s' := Do(s, a);
      forall i | 0 <= i < |s'.readers| && !s'.readers[i].over
        ensures OrderOk(s'.log, s'.w.cycle, s'.readers[i])
      {
        if i >= |s.readers| {
          FreshReader(s.log, s.w.cycle, a.conflate);
        } else if a == Step(i) {
          StepKeepsOrder(s, i, s.readers[i]);
        } else if a == Recv(i) && s.readers[i].pc.RIdle? {
          StartReceiving(s.log, s.w.cycle, s.readers[i]);
        }
      }
    }
  }

  lemma {:induction false} RunKeepsOrder(s: State, acts: seq<Action>)
    requires Inv(s) && OrderInv(s)
    ensures OrderInv(Run(s, acts)) && Inv(Run(s, acts))
    decreases |acts|
  {
    hide Inv;
    hide OrderInv;
    if acts != [] {
      DoKeeps(s, acts[0]);
      DoKeepsOrder(s, acts[0]);
      RunKeepsOrder(Do(s, acts[0]), acts[1..]);
    }
  }

  /** `out` is what was published from message `k` on, one message after the other. */
  ghost predicate FromMessage(out: seq<Msg>, log: seq<Entry>, k: nat)
  {
    k + |out| <= |log| && forall j | 0 <= j < |out| :: out[j] == log[k + j].msg
  }

  /** Gap-freedom: a subscriber that does not conflate has returned, since its last reset, exactly
      the messages published from then on, one after the other, unless it was left behind or has
      followed a tag on the size of a message. */
  lemma NoGaps(mem: seq<byte>, acts: seq<Action>, i: nat)
    requires |mem| < 0xFFFF_FFFF
    ensures var s := Run(Init(mem), acts);
            i < |s.readers| && !s.readers[i].over && !s.readers[i].conflate && !s.readers[i].lost ==>
              var r := s.readers[i];
              r.mark <= |r.out| && (r.mark < |r.out| ==> FromMessage(r.out[r.mark..], s.log, r.start))
  {
    hide FromMessage;
    hide Recorded;
    var s := Run(Init(mem), acts);
    InitOk(mem);
    RunKeepsOrder(Init(mem), acts);
    if i < |s.readers| && !s.readers[i].over && !s.readers[i].conflate && !s.readers[i].lost {
      ContiguousOut(s.log, s.readers[i]);
    }
  }

  lemma ContiguousOut(log: seq<Entry>, r: Reader)
    requires History(log, r) && !r.over && Contiguous(r)
    ensures r.mark <= |r.out| && (r.mark < |r.out| ==> FromMessage(r.out[r.mark..], log, r.start))
  {
    hide Outside;
    OutsideSince(r.out, r.doubt, r.mark);
    var out := r.out[r.mark..];
    var all := Outside(r.out, r.doubt);
    if out != [] {
      assert all[r.base..] == out;
      assert r.idx[|r.idx| - 1] == r.start + |out| - 1;
      forall j | 0 <= j < |out|
        ensures out[j] == log[r.start + j].msg
      {
        assert r.idx[r.base + j] == r.start + j && all[r.base + j] == out[j];
      }
    }
  }

  /** And those two events are exactly what loses messages: a valid subscriber misses some message
      if and only if one of them has happened since its last reset. */
  lemma MissesIff(mem: seq<byte>, acts: seq<Action>, i: nat)
    requires |mem| < 0xFFFF_FFFF
    ensures var s := Run(Init(mem), acts);
            i < |s.readers| && !s.readers[i].over && !s.readers[i].conflate && s.readers[i].valid
                && Settled(s.readers[i]) ==>
              (s.readers[i].lost <==> MissesSome(s.log, s.w.cycle, s.readers[i]))
  {
    var s := Run(Init(mem), acts);
    InitOk(mem);
    RunKeepsOrder(Init(mem), acts);
    if i < |s.readers| && !s.readers[i].over && !s.readers[i].conflate && !s.readers[i].lost
       && s.readers[i].valid && Settled(s.readers[i]) && MissesSome(s.log, s.w.cycle, s.readers[i]) {
      var m: nat :| Missed(s.log, s.w.cycle, s.readers[i], m);
      NothingMissed(s.log, s.w.cycle, s.readers[i], m);
    }
  }

  lemma NothingMissed(log: seq<Entry>, cycle: nat, r: Reader, m: nat)
    requires OrderOk(log, cycle, r) && !r.conflate && Tracked(r)
    ensures !Missed(log, cycle, r, m)
  {
    if r.start <= m < Passed(r) {
      assert r.idx[r.base + (m - r.start)] == m;
    }
  }

  lemma DoResets(s: State, a: Action, i: nat)
    requires i < |s.readers|
    ensures i < |Do(s, a).readers| && Do(s, a).readers[i].resets >= s.readers[i].resets
  {
    hide StepReader;
    StepResets(s, s.readers[i]);
  }

  lemma {:induction false} RunResets(s: State, acts: seq<Action>, i: nat)
    requires i < |s.readers|
    ensures i < |Run(s, acts).readers| && Run(s, acts).readers[i].resets >= s.readers[i].resets
    decreases |acts|
  {
    hide Do;
    if acts != [] {
      DoResets(s, acts[0], i);
      RunResets(Do(s, acts[0]), acts[1..], i);
    }
  }

  lemma WriterKeepsMissed(s: State, i: nat, m: nat)
    requires WriterOk(s) && i < |s.readers| && Missed(s.log, s.w.cycle, s.readers[i], m)
    ensures var s' := StepWriter(s);
            && i < |s'.readers| && s'.readers[i].over == s.readers[i].over
            && Missed(s'.log, s'.w.cycle, s'.readers[i], m)
  {
  }

  lemma DoKeepsMissed(s: State, a: Action, i: nat, m: nat)
    requires Inv(s) && i < |s.readers| && !s.readers[i].over && Missed(s.log, s.w.cycle, s.readers[i], m)
    requires i < |Do(s, a).readers| && Do(s, a).readers[i].resets == s.readers[i].resets
    ensures var s' := Do(s, a); !s'.readers[i].over && Missed(s'.log, s'.w.cycle, s'.readers[i], m)
  {
    hide ReaderOk;
    hide BufferOk;
    hide StepReader;
    hide StepWriter;
    if a.Writer? {
      WriterKeepsMissed(s, i, m);
    } else if a == Step(i) {
      var r := s.readers[i];
      StepResets(s, r);
      StaysMissed(s, i, r, m);
    }
  }

  /** A message once missed is not returned before the next reset. */
  lemma {:induction false} MissedForGood(s: State, acts: seq<Action>, i: nat, m: nat)
    requires Inv(s) && i < |s.readers| && !s.readers[i].over && Missed(s.log, s.w.cycle, s.readers[i], m)
    ensures var s' := Run(s, acts);
            && i < |s'.readers|
            && (s'.readers[i].resets == s.readers[i].resets ==> Missed(s'.log, s'.w.cycle, s'.readers[i], m))
    decreases |acts|
  {
    hide Inv;
    hide Missed;
    hide Do;
    RunResets(s, acts, i);
    if acts != [] && Run(s, acts).readers[i].resets == s.readers[i].resets {
      DoResets(s, acts[0], i);
      RunResets(Do(s, acts[0]), acts[1..], i);
      DoKeeps(s, acts[0]);
      DoKeepsMissed(s, acts[0], i, m);
      MissedForGood(Do(s, acts[0]), acts[1..], i, m);
    }
  }
}
