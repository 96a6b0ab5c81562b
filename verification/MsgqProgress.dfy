/**
 What a receive and a send achieve in the step machine, when no other process interferes.

 From every state that the invariants allow, with the writer idle, the steps of one receive lead
 back to rest: a subscriber that is level with the writer returns nothing, one that conflates the
 last message, any other its next message. And the steps of one send publish the message where it
 belongs and take the flag from exactly the readers in the way.
 */
module MsgqProgress {
  import opened Bytes
  import opened MsgqLayout
  import opened MsgqMachine
  import opened MsgqSafety
  import opened MsgqOrder

  // ---------------------------------------------------------------- steps of one subscriber

  /** Reader i, and no other process, takes steps. */
  function Steps(i: nat, n: nat): (acts: seq<Action>)
    ensures |acts| == n
  {
    seq(n, _ => Step(i))
  }

  /** The reader itself, after n steps in which nothing else changes. */
  function After(s: State, r: Reader, n: nat): Reader
    decreases n
  {
    if n == 0 then r else After(s, StepReader(s, r), n - 1)
  }

  /** A step looks at the other readers' slots as little as at its own. */
  lemma StepAlone(s: State, t: State, r: Reader)
    requires t == s.(readers := t.readers)
    ensures StepReader(t, r) == StepReader(s, r)
  {
    hide StepReader;
    if r.pc.RResetStore? {
      OverrunsAlone(s, t, r);
      StoreAlone(s, t, r);
    } else {
      LoadAlone(s, t, r);
    }
  }

  lemma StoreAlone(s: State, t: State, r: Reader)
    requires t == s.(readers := t.readers) && r.pc.RResetStore? && Overruns(t, r) == Overruns(s, r)
    ensures StepReader(t, r) == StepReader(s, r)
  {
    hide Overruns;
  }

  lemma LoadAlone(s: State, t: State, r: Reader)
    requires t == s.(readers := t.readers) && !r.pc.RResetStore?
    ensures StepReader(t, r) == StepReader(s, r)
  {
    hide Overruns;
    hide Load64;
    hide Load8;
    hide Align;
    hide First;
    hide AtFrame;
  }

  lemma OverrunsAlone(s: State, t: State, r: Reader)
    requires t == s.(readers := t.readers)
    ensures Overruns(t, r) == Overruns(s, r)
  {
    hide Align;
  }

  lemma {:induction false} AfterAlone(s: State, t: State, r: Reader, n: nat)
    requires t == s.(readers := t.readers)
    ensures After(t, r, n) == After(s, r, n)
    decreases n
  {
    hide StepReader;
    if n > 0 {
      StepAlone(s, t, r);
      AfterAlone(s, t, StepReader(s, r), n - 1);
    }
  }

  lemma {:induction false} RunSteps(s: State, i: nat, n: nat)
    requires i < |s.readers|
    ensures Run(s, Steps(i, n)) == s.(readers := s.readers[i := After(s, s.readers[i], n)])
    decreases n
  {
    hide StepReader;
    var r := s.readers[i];
    if n == 0 {
      assert s.readers[i := r] == s.readers;
    } else {
      var t := Do(s, Step(i));
      assert Steps(i, n)[1..] == Steps(i, n - 1);
      RunSteps(t, i, n - 1);
      AfterAlone(s, t, StepReader(s, r), n - 1);
      assert t.readers[i := After(s, StepReader(s, r), n - 1)] == s.readers[i := After(s, r, n)];
    }
  }

  // ---------------------------------------------------------------- a receive

  /** At the place in a receive where the reader has seen that it is not level with the writer. */
  predicate Committed(pc: ReaderPc)
  {
    pc.RSize? || pc.RRecheck? || pc.RJump? || pc.RSkip? || pc.RCopy? || pc.RFinal?
  }

  /** The index of the message that a reader finds where it stands: the next, or behind a tag the first of
      the lap of the writer. */
  ghost function FoundAt(s: State, r: Reader): nat
  {
    if TagAt(s.mem, r.ptr.off) then First(s.log, s.w.cycle) else r.next
  }

  /** The index of the message that a receive will return. */
  ghost function Due(s: State, r: Reader): int
  {
    if r.conflate then |s.log| - 1 else if r.pc.RFinal? then r.next - 1 else FoundAt(s, r)
  }

  /** Message j is on the way of a receive: it is the one found, or, if the reader conflates, it follows
      that in the lap of the reader or in that of the writer. */
  ghost predicate OnTheWay(s: State, r: Reader, j: int)
  {
    FoundAt(s, r) <= j < |s.log|
    && if r.conflate then s.log[j].lap == r.lap || s.log[j].lap == s.w.cycle else j == FoundAt(s, r)
  }

  ghost predicate NoneEmpty(s: State, r: Reader)
  {
    r.pc.RFinal? || forall j | 0 <= j < |s.log| && OnTheWay(s, r, j) :: s.log[j].msg != []
  }

  /** What holds of a reader that is at some point of a receive while the writer rests. */
  ghost predicate Receiving(s: State, i: nat, r: Reader)
  {
    && BufferOk(s) && s.writer.WIdle? && WriterOk(s)
    && ReaderOk(s, i, r) && !r.over && OrderOk(s.log, s.w.cycle, r) && r.valid && Settled(r)
    && (r.pc.RStart? || r.pc.RPtr? || r.pc.RWrite? || Committed(r.pc))
    && (Committed(r.pc) && !r.pc.RFinal? ==> r.ptr.off != s.w.off)
    && match r.pc
       case RSize(rp, wp) => wp == s.w
       case RRecheck(rp, wp, tag) => wp == s.w && tag == Load64(s.mem, r.ptr.off)
       case RJump(rp) => TagAt(s.mem, r.ptr.off)
       case RSkip(rp, size) =>
         size > 0 && size == Load64(s.mem, r.ptr.off) && r.conflate && Align(rp.off + 8 + size) != s.w.off
       case RCopy(rp, size, acc) =>
         size > 0 && size == Load64(s.mem, r.ptr.off) && (r.conflate ==> r.next == |s.log| - 1)
       case RFinal(acc) => r.conflate ==> r.next == |s.log|
       case _ => true
  }

  predicate SameReset(r: Reader, r': Reader)
  {
    && r'.over == r.over && r'.mark == r.mark && r'.base == r.base && r'.start == r.start && r'.resets == r.resets
    && r'.conflate == r.conflate
  }

  /** The receive is over, and has returned message k. */
  ghost predicate Returned(s: State, r: Reader, r': Reader, k: int)
  {
    && 0 <= k < |s.log| && r'.pc == RIdle && r'.out == r.out + [s.log[k].msg]
    && r'.valid && r'.next == k + 1 && (!r.lost ==> !r'.lost) && SameReset(r, r')
  }

  /** The receive has failed an assertion, and returned nothing. */
  predicate Failed(r: Reader, r': Reader) { r'.pc == RCrash && r'.out == r.out && SameReset(r, r') }

  // Which message it will be.

  /** A tag found by a reader that is not level with the writer closes the lap of that reader. */
  lemma TagCloses(s: State, i: nat, r: Reader)
    requires BufferOk(s) && s.writer.WIdle? && InPlace(s, i, r) && Tracks(s.w.cycle, r)
    requires r.ptr.off != s.w.off && r.lap < s.w.cycle && TagAt(s.mem, r.ptr.off)
    ensures !AtFrame(s.log, r.lap, r.next, r.ptr.off)
  {
  }

  /** The frame that ends where the writer is is the last. */
  lemma EndsAtWriter(s: State, i: nat, r: Reader)
    requires BufferOk(s) && s.writer.WIdle? && WriterOk(s) && InPlace(s, i, r)
    requires r.ptr.off != s.w.off && AtFrame(s.log, r.lap, r.next, r.ptr.off)
    ensures s.log[r.next].end == s.w.off <==> r.next == |s.log| - 1
  {
  }

  // What a step of it does.

  lemma KeptByStep(s: State, i: nat, r: Reader)
    requires Receiving(s, i, r)
    ensures var r' := StepReader(s, r);
            ReaderOk(s, i, r') && !r'.over && OrderOk(s.log, s.w.cycle, r')
  {
    hide ReaderOk;
    hide OrderOk;
    hide BufferOk;
    hide StepReader;
    StepResets(s, r);
    ReaderKeeps(s, i, r);
    ReaderKeepsOrder(s, i, r);
  }

  /** The reader has not looked yet, and is level with the writer. */
  predicate Level(s: State, r: Reader) { !Committed(r.pc) && r.ptr.off == s.w.off }

  /** A step in the course of a receive that will return a message. */
  ghost predicate Onward(s: State, i: nat, r: Reader, r': Reader)
  {
    && Receiving(s, i, r') && !Level(s, r') && SameReset(r, r') && r'.out == r.out
    && Due(s, r') == Due(s, r) && (!r.lost ==> !r'.lost) && (NoneEmpty(s, r') <==> NoneEmpty(s, r))
  }

  lemma Looks(s: State, i: nat, r: Reader)
    requires Receiving(s, i, r) && !Level(s, r) && (r.pc.RStart? || r.pc.RPtr? || r.pc.RWrite? || r.pc.RSize?)
    ensures var r' := StepReader(s, r);
            Onward(s, i, r, r') && r' == r.(pc := r'.pc)
  {
    hide BufferOk;
    hide ReaderOk;
    hide OrderOk;
    hide Load64;
    KeptByStep(s, i, r);
    assert r.pc.RWrite? ==> r.pc.rp == r.ptr by { LocalsOf(s, i, r); }
    assert r.pc.RSize? ==> r.pc.rp == r.ptr by { LocalsOf(s, i, r); }
  }

  lemma LocalsOf(s: State, i: nat, r: Reader)
    requires Receiving(s, i, r)
    ensures InPlace(s, i, r) && Locals(s, r) && (!r.lost ==> Tracks(s.w.cycle, r)) && History(s.log, r)
  {
    hide Placed;
    hide Recorded;
  }

  lemma Rechecks(s: State, i: nat, r: Reader)
    requires Receiving(s, i, r) && r.pc.RRecheck?
    ensures var r' := StepReader(s, r);
            if r.pc.tag == 0 then Failed(r, r') && !NoneEmpty(s, r)
            else Onward(s, i, r, r') && r' == r.(pc := r'.pc) && (r'.pc.RJump? || r'.pc.RSkip? || r'.pc.RCopy?)
  {
    hide BufferOk;
    hide ReaderOk;
    hide OrderOk;
    hide Load64;
    hide InPlace;
    KeptByStep(s, i, r);
    LocalsOf(s, i, r);
    if r.pc.tag != -1 {
      FrameFits(s, r, r.pc.tag);
      AlignedEnd(s, i, r, r.pc.tag);
      EndsAtWriter(s, i, r);
      if r.pc.tag == 0 {
        assert OnTheWay(s, r, r.next);
      }
    }
  }

  lemma AlignedEnd(s: State, i: nat, r: Reader, size: int)
    requires BufferOk(s) && OnFrame(s, r, size)
    ensures Align(r.ptr.off + 8 + size) == s.log[r.next].end && r.next < |s.log|
  {
    AlignIs(r.ptr.off + 8 + size, s.log[r.next].end);
  }

  lemma Jumps(s: State, i: nat, r: Reader)
    requires Receiving(s, i, r) && r.pc.RJump?
    ensures var r' := StepReader(s, r);
            Onward(s, i, r, r') && r'.next >= r.next && r.lap < r'.lap == s.w.cycle
  {
    hide ReaderOk;
    hide OrderOk;
    hide Placed;
    hide LogOk;
    hide Current;
    KeptByStep(s, i, r);
    LocalsOf(s, i, r);
    PlacedAfterJump(s.mem, s.log, s.w, s.size, Lo(s, i), r.lap, r.next, r.ptr.off);
    StartIsFrame(s, r);
    if !r.lost {
      TagCloses(s, i, r);
    }
    forall j | 0 <= j < |s.log|
      ensures OnTheWay(s, StepReader(s, r), j) <==> OnTheWay(s, r, j)
    {
      FirstSplitsAt(s, j);
      LapsUpTo(s, j);
    }
  }

  /** The lap of an idle writer begins with a message. */
  lemma StartIsFrame(s: State, r: Reader)
    requires BufferOk(s) && s.writer.WIdle? && WriterOk(s) && r.lap < s.w.cycle
    ensures s.w.off > 0 && !TagAt(s.mem, 0)
  {
    StartOfLap(s.log, s.w, s.size);
    assert FrameAt(s.mem, s.log[First(s.log, s.w.cycle)]);
  }

  lemma LapsUpTo(s: State, j: nat)
    requires BufferOk(s) && j < |s.log|
    ensures s.log[j].lap <= s.w.cycle
  {
  }

  lemma Skips(s: State, i: nat, r: Reader)
    requires Receiving(s, i, r) && r.pc.RSkip?
    ensures var r' := StepReader(s, r);
            Onward(s, i, r, r') && r'.next == r.next + 1 <= |s.log|
  {
    hide BufferOk;
    hide ReaderOk;
    hide OrderOk;
    hide InPlace;
    KeptByStep(s, i, r);
    LocalsOf(s, i, r);
    FrameFits(s, r, r.pc.size);
    SkipOnTheWay(s, i, r);
  }

  /** A tag behind the frame where a reader stands closes the lap. */
  lemma TagBehind(s: State, i: nat, r: Reader)
    requires BufferOk(s) && s.writer.WIdle? && InPlace(s, i, r) && AtFrame(s.log, r.lap, r.next, r.ptr.off)
    requires !TagAt(s.mem, r.ptr.off) && s.log[r.next].end != s.w.off && TagAt(s.mem, s.log[r.next].end)
    ensures r.lap < s.w.cycle && (r.next + 1 < |s.log| ==> s.log[r.next + 1].lap > r.lap)
  {
    assert r.next + 1 < |s.log| ==> Follows(s.log[r.next], s.log[r.next + 1]);
  }

  lemma LapsRise(s: State, j: nat, k: nat)
    requires BufferOk(s) && j <= k < |s.log|
    ensures s.log[j].lap <= s.log[k].lap
  {
  }

  /** One message less is on the way, and it is not empty. */
  lemma SkipOnTheWay(s: State, i: nat, r: Reader)
    requires Receiving(s, i, r) && r.pc.RSkip?
    ensures var r' := StepReader(s, r);
            forall j | 0 <= j < |s.log| :: OnTheWay(s, r', j) <==> OnTheWay(s, r, j) && j != r.next
  {
    hide OrderOk;
    hide ReaderOk;
    hide InPlace;
    hide LogOk;
    hide Current;
    LocalsOf(s, i, r);
    AlignedEnd(s, i, r, r.pc.size);
    var r' := StepReader(s, r);
    if TagAt(s.mem, s.log[r.next].end) {
      TagBehind(s, i, r);
    }
    forall j | 0 <= j < |s.log|
      ensures OnTheWay(s, r', j) <==> OnTheWay(s, r, j) && j != r.next
    {
      FirstSplitsAt(s, j);
      FirstSplitsAt(s, r.next);
      if r.next < j {
        LapsRise(s, r.next + 1, j);
      }
    }
  }

  lemma Copies(s: State, i: nat, r: Reader)
    requires Receiving(s, i, r) && r.pc.RCopy?
    ensures var r' := StepReader(s, r);
            && Onward(s, i, r, r')
            && if |r.pc.acc| < r.pc.size
               then r' == r.(pc := r'.pc) && r'.pc.RCopy? && r'.pc.size == r.pc.size && |r'.pc.acc| == |r.pc.acc| + 1
               else r'.next == r.next + 1 <= |s.log|
  {
    hide BufferOk;
    hide ReaderOk;
    hide OrderOk;
    hide InPlace;
    hide Load8;
    KeptByStep(s, i, r);
    LocalsOf(s, i, r);
  }

  lemma Finishes(s: State, i: nat, r: Reader)
    requires Receiving(s, i, r) && r.pc.RFinal?
    ensures Returned(s, r, StepReader(s, r), Due(s, r))
  {
    hide BufferOk;
    hide ReaderOk;
    hide OrderOk;
    hide InPlace;
    hide Recorded;
    hide First;
    LocalsOf(s, i, r);
  }

  function Rank(pc: ReaderPc): nat
  {
    match pc
    case RStart => 6
    case RPtr => 5
    case RWrite(_) => 4
    case RSize(_, _) => 3
    case RRecheck(_, _, _) => 2
    case _ => 1
  }

  function ToCopy(pc: ReaderPc): nat
  {
    if pc.RCopy? && |pc.acc| < pc.size then pc.size - |pc.acc| else 0
  }

  function MessagesAhead(s: State, r: Reader): nat { if r.next <= |s.log| then |s.log| - r.next else 0 }

  function LapsAhead(s: State, r: Reader): nat { if r.lap <= s.w.cycle then s.w.cycle - r.lap else 0 }

  predicate Nearer(s: State, r: Reader, r': Reader)
  {
    || MessagesAhead(s, r') < MessagesAhead(s, r)
    || (MessagesAhead(s, r') == MessagesAhead(s, r)
        && (|| LapsAhead(s, r') < LapsAhead(s, r)
            || (LapsAhead(s, r') == LapsAhead(s, r)
                && (Rank(r'.pc) < Rank(r.pc) || (Rank(r'.pc) == Rank(r.pc) && ToCopy(r'.pc) < ToCopy(r.pc))))))
  }

  lemma Progresses(s: State, i: nat, r: Reader)
    requires Receiving(s, i, r) && !Level(s, r) && !r.pc.RFinal? && !(r.pc.RRecheck? && r.pc.tag == 0)
    ensures Onward(s, i, r, StepReader(s, r)) && Nearer(s, r, StepReader(s, r))
  {
    hide BufferOk;
    hide ReaderOk;
    hide OrderOk;
    hide Due;
    match r.pc
    case RRecheck(_, _, _) => Rechecks(s, i, r);
    case RJump(_) => Jumps(s, i, r);
    case RSkip(_, _) => Skips(s, i, r);
    case RCopy(_, _, _) => Copies(s, i, r);
    case _ => Looks(s, i, r);
  }

  /** How a receive of a subscriber ends that is not level with the writer. */
  ghost predicate Ends(s: State, r: Reader, r': Reader, k: int)
  {
    if NoneEmpty(s, r) then Returned(s, r, r', k) else Failed(r, r')
  }

  lemma {:induction false} Arrives(s: State, i: nat, r: Reader) returns (n: nat)
    requires Receiving(s, i, r) && !Level(s, r)
    ensures Ends(s, r, After(s, r, n), Due(s, r))
    decreases MessagesAhead(s, r), LapsAhead(s, r), Rank(r.pc), ToCopy(r.pc)
  {
    hide Receiving;
    hide StepReader;
    hide Level;
    hide Due;
    hide NoneEmpty;
    var r' := StepReader(s, r);
    assert After(s, r', 0) == r';
    if r.pc.RFinal? {
      Finishes(s, i, r);
      assert NoneEmpty(s, r) by { AtFinal(s, r); }
      n := 1;
    } else if r.pc.RRecheck? && r.pc.tag == 0 {
      Rechecks(s, i, r);
      n := 1;
    } else {
      Progresses(s, i, r);
      var k := Arrives(s, i, r');
      assert After(s, r, k + 1) == After(s, r', k);
      n := k + 1;
    }
  }

  lemma AtFinal(s: State, r: Reader)
    requires r.pc.RFinal?
    ensures NoneEmpty(s, r)
  {
  }

  /** A receive, from any state that the invariants allow, with the writer idle. A subscriber that is level
      with the writer is told that there is nothing; one that conflates gets the last message, any other
      the one that it finds, which, if it has lost nothing, is its next one, also when a tag has to be
      followed. It has then passed that message. It fails if and only if there is an empty message on
      the way. */
  lemma ReceiveReturns(s: State, i: nat) returns (n: nat, r': Reader)
    requires Inv(s) && OrderInv(s) && s.writer.WIdle? && i < |s.readers|
    requires var r := s.readers[i]; r.pc.RStart? && r.valid && !r.over
    ensures Run(s, Steps(i, n)) == s.(readers := s.readers[i := r'])
    ensures var r := s.readers[i];
            if r.ptr.off == s.w.off then r' == r.(pc := RIdle)
            else
              && Ends(s, r, r', if r.conflate then |s.log| - 1 else FoundAt(s, r))
              && (!r.lost ==> FoundAt(s, r) == r.next)
  {
    hide BufferOk;
    hide StepReader;
    hide ReaderOk;
    hide OrderOk;
    hide Run;
    var r := s.readers[i];
    assert ReaderOk(s, i, r) && OrderOk(s.log, s.w.cycle, r);
    if r.ptr.off == s.w.off {
      n := 3;
      FindsNothing(s, r);
    } else {
      n := Arrives(s, i, r);
      if !r.lost {
        FindsNext(s, i, r);
      }
    }
    RunSteps(s, i, n);
    r' := After(s, r, n);
  }

  /** A subscriber that has lost nothing finds its next message, across a tag too. */
  lemma FindsNext(s: State, i: nat, r: Reader)
    requires Receiving(s, i, r) && r.pc.RStart? && r.ptr.off != s.w.off && !r.lost
    ensures FoundAt(s, r) == r.next
  {
    hide ReaderOk;
    hide OrderOk;
    hide Tail;
    LocalsOf(s, i, r);
    if TagAt(s.mem, r.ptr.off) {
      assert r.lap < s.w.cycle;
      TagCloses(s, i, r);
      JumpLosesNothing(s, i, r);
    }
  }

  lemma FindsNothing(s: State, r: Reader)
    requires r.pc.RStart? && r.valid && r.ptr.off == s.w.off
    ensures After(s, r, 3) == r.(pc := RIdle)
  {
    var a := StepReader(s, r);
    var b := StepReader(s, a);
    var c := StepReader(s, b);
    assert After(s, c, 0) == c && After(s, b, 1) == c && After(s, a, 2) == c;
  }

  /** A subscriber whose flag was cleared, or that has just come, restarts at the write pointer and is told
      that there is nothing. */
  lemma RestartsAtWriter(s: State, r: Reader)
    requires (r.pc.RStart? && !r.valid) || r.pc.RResetValid?
    ensures var r' := After(s, r, if r.pc.RStart? then 7 else 6);
            && r'.pc.RIdle? && r'.valid && r'.ptr == s.w && r'.next == r'.start == |s.log|
            && r'.out == r.out && !r'.lost && !r'.over && r'.resets == r.resets + 1
  {
    hide Load64;
    hide Load8;
    hide Align;
    hide First;
    hide AtFrame;
    var a := if r.pc.RStart? then StepReader(s, r) else r;
    var b := StepReader(s, a);
    var c := StepReader(s, b);
    var d := StepReader(s, c);
    assert After(s, c, 4) == After(s, d, 3) && After(s, b, 5) == After(s, c, 4) && After(s, a, 6) == After(s, b, 5);
    FindsNothing(s, d);
  }

  // ---------------------------------------------------------------- a send

  /** The writer, and no other process, takes steps. */
  function Writes(n: nat): (acts: seq<Action>)
    ensures |acts| == n
  {
    seq(n, _ => Writer)
  }

  function Written(s: State, n: nat): State
    decreases n
  {
    if n == 0 then s else Written(StepWriter(s), n - 1)
  }

  lemma {:induction false} RunWrites(s: State, n: nat)
    ensures Run(s, Writes(n)) == Written(s, n)
    decreases n
  {
    hide StepWriter;
    if n > 0 {
      assert Writes(n)[1..] == Writes(n - 1);
      RunWrites(StepWriter(s), n - 1);
    }
  }

  /** Beyond the tag, in another lap. */
  predicate BeyondTag(w: Ptr, rp: Ptr) { rp.off > w.off && rp.cycle != w.cycle }

  /** Within the frame, in another lap. */
  predicate WithinFrame(m: Msg, at: Ptr, rp: Ptr) { at.off <= rp.off < at.off + Align(|m| + 8) && rp.cycle != at.cycle }

  /** There is no room for the message and a tag behind it. */
  predicate NoRoom(m: Msg, w: Ptr, size: nat) { w.off + Align(|m| + 8) + 8 >= size }

  /** Where the message goes: to the write pointer, or to the start of the next lap. */
  function PlaceOf(m: Msg, w: Ptr, size: nat): Ptr
  {
    if NoRoom(m, w, size) then Ptr(w.cycle + 1, 0) else w
  }

  /** A reader after the searches, as far as they have come: for readers beyond the tag, for readers within
      the frame; and after the start of a new lap. */
  function Searched(r: Reader, w: Ptr, m: Msg, at: Ptr, beyond: bool, lap: bool, within: bool): Reader
  {
    var valid := r.valid && !(beyond && BeyondTag(w, r.ptr));
    r.(valid := valid && !(within && WithinFrame(m, at, r.ptr)),
       lost := r.lost || (lap && valid && r.ptr.cycle != w.cycle))
  }

  predicate Readers(s0: State, s: State, m: Msg, i: nat, lap: bool, j: nat)
  {
    && |s.readers| == |s0.readers|
    && forall k | 0 <= k < |s.readers| ::
         s.readers[k] == Searched(s0.readers[k], s0.w, m, PlaceOf(m, s0.w, s0.size), k < i, lap, k < j)
  }

  /** A point of a send that began in state s0. */
  ghost predicate Sending(s0: State, s: State, m: Msg)
  {
    var wraps, at, n := NoRoom(m, s0.w, s0.size), PlaceOf(m, s0.w, s0.size), |s0.readers|;
    && s.log == s0.log && s.size == s0.size
    && match s.writer
       case WNum(m') => m' == m && s.w == s0.w && Readers(s0, s, m, 0, false, 0)
       case WPtr(m', nr) => m' == m && nr == n && s.w == s0.w && Readers(s0, s, m, 0, false, 0)
       case WTag(m', nr, p) => m' == m && nr == n && p == s.w == s0.w && wraps && Readers(s0, s, m, 0, false, 0)
       case WWrapCheck(m', nr, p, i) =>
         m' == m && nr == n && p == s.w == s0.w && wraps && i <= n && Readers(s0, s, m, i, false, 0)
       case WWrapClear(m', nr, p, i) =>
         && m' == m && nr == n && p == s.w == s0.w && wraps && i < n && Readers(s0, s, m, i, false, 0)
         && BeyondTag(s0.w, s0.readers[i].ptr)
       case WCheck(m', nr, p, j) =>
         m' == m && nr == n && p == s.w == at && j <= n && Readers(s0, s, m, if wraps then n else 0, wraps, j)
       case WClear(m', nr, p, j) =>
         && m' == m && nr == n && p == s.w == at && j < n && Readers(s0, s, m, if wraps then n else 0, wraps, j)
         && WithinFrame(m, at, s0.readers[j].ptr)
       case WCopy(m', nr, p, k) =>
         m' == m && nr == n && p == s.w == at && k <= |m| && Readers(s0, s, m, if wraps then n else 0, wraps, n)
       case _ => false
  }

  /** What a send that began in state s0 comes to. */
  ghost predicate Sent(s0: State, s: State, m: Msg)
  {
    var wraps, at, n := NoRoom(m, s0.w, s0.size), PlaceOf(m, s0.w, s0.size), |s0.readers|;
    var end := at.off + Align(|m| + 8);
    && s.writer.WIdle? && s.size == s0.size && s.w == Ptr(at.cycle, end)
    && s.log == s0.log + [Entry(m, at.cycle, at.off, end)]
    && Readers(s0, s, m, if wraps then n else 0, wraps, n)
  }

  /** The steps that are left, in four nested counts. */
  function Stage(w: WriterPc): nat
  {
    match w
    case WNum(_) => 6
    case WPtr(_, _) => 5
    case WTag(_, _, _) => 4
    case WWrapCheck(_, _, _, _) => 3
    case WWrapClear(_, _, _, _) => 3
    case WCheck(_, _, _, _) => 2
    case WClear(_, _, _, _) => 2
    case WCopy(_, _, _, _) => 1
    case _ => 0
  }

  function Rounds(w: WriterPc): nat
  {
    match w
    case WWrapCheck(_, nr, _, i) => if i < nr then 2 * (nr - i) else 0
    case WWrapClear(_, nr, _, i) => if i < nr then 2 * (nr - i) - 1 else 0
    case WCheck(_, nr, _, i) => if i < nr then 2 * (nr - i) else 0
    case WClear(_, nr, _, i) => if i < nr then 2 * (nr - i) - 1 else 0
    case WCopy(m, _, _, k) => if k < |m| then |m| - k else 0
    case _ => 0
  }

  predicate Later(w: WriterPc, w': WriterPc)
  {
    Stage(w') < Stage(w) || (Stage(w') == Stage(w) && Rounds(w') < Rounds(w))
  }

  /** One step on from a point of a send. */
  ghost predicate Goes(s0: State, s: State, s': State, m: Msg)
  {
    Later(s.writer, s'.writer) && (Sending(s0, s', m) || Sent(s0, s', m))
  }

  lemma StartStep(s0: State, s: State, m: Msg)
    requires Sending(s0, s, m) && (s.writer.WNum? || s.writer.WPtr? || s.writer.WTag?)
    ensures Goes(s0, s, StepWriter(s), m)
  {
    hide Align;
    hide Store64;
    hide Searched;
  }

  lemma WrapSearchStep(s0: State, s: State, m: Msg)
    requires Sending(s0, s, m) && (s.writer.WWrapCheck? || s.writer.WWrapClear?)
    ensures Goes(s0, s, StepWriter(s), m)
  {
    hide Align;
  }

  lemma SearchStep(s0: State, s: State, m: Msg)
    requires s0.w.off % 8 == 0 && Sending(s0, s, m) && (s.writer.WCheck? || s.writer.WClear?)
    ensures Goes(s0, s, StepWriter(s), m)
  {
    hide Align;
    hide Store64;
    AlignShift(s.w.off, |m|);
  }

  lemma CopyStep(s0: State, s: State, m: Msg)
    requires s0.w.off % 8 == 0 && Sending(s0, s, m) && s.writer.WCopy?
    ensures Goes(s0, s, StepWriter(s), m)
  {
    hide Align;
    hide Store8;
    hide Searched;
    AlignShift(s.w.off, |m|);
  }

  lemma SendStep(s0: State, s: State, m: Msg)
    requires s0.w.off % 8 == 0 && Sending(s0, s, m)
    ensures Goes(s0, s, StepWriter(s), m)
  {
    hide Readers;
    hide Goes;
    hide StepWriter;
    hide NoRoom;
    match s.writer
    case WWrapCheck(_, _, _, _) => WrapSearchStep(s0, s, m);
    case WWrapClear(_, _, _, _) => WrapSearchStep(s0, s, m);
    case WCheck(_, _, _, _) => SearchStep(s0, s, m);
    case WClear(_, _, _, _) => SearchStep(s0, s, m);
    case WCopy(_, _, _, _) => CopyStep(s0, s, m);
    case _ => StartStep(s0, s, m);
  }

  lemma {:induction false} SendEnds(s0: State, s: State, m: Msg) returns (n: nat)
    requires s0.w.off % 8 == 0 && Sending(s0, s, m)
    ensures Sent(s0, Written(s, n), m)
    decreases Stage(s.writer), Rounds(s.writer)
  {
    hide Sending;
    hide Sent;
    hide StepWriter;
    var s' := StepWriter(s);
    SendStep(s0, s, m);
    assert Written(s', 0) == s';
    if Sent(s0, s', m) {
      n := 1;
    } else {
      var k := SendEnds(s0, s', m);
      assert Written(s, k + 1) == Written(s', k);
      n := k + 1;
    }
  }

  /** A reader in the way of a send: it is in another lap than the part of the buffer where it stands is
      about to be. */
  predicate InTheWay(m: Msg, w: Ptr, size: nat, rp: Ptr)
  {
    var len := Align(|m| + 8);
    if w.off + len + 8 < size then w.off <= rp.off < w.off + len && rp.cycle != w.cycle
    else (rp.off > w.off && rp.cycle != w.cycle) || (rp.off < len && rp.cycle != w.cycle + 1)
  }

  /** What a send that has begun in state s leaves of the readers. */
  ghost predicate ReadersLeft(s: State, t: State, m: Msg)
  {
    && |t.readers| == |s.readers|
    && forall k | 0 <= k < |s.readers| ::
         && t.readers[k] == s.readers[k].(valid := t.readers[k].valid, lost := t.readers[k].lost)
         && (t.readers[k].valid <==> s.readers[k].valid && !InTheWay(m, s.w, s.size, s.readers[k].ptr))
         && (t.readers[k].valid ==>
               (t.readers[k].lost <==>
                  s.readers[k].lost
                  || (s.w.off + Align(|m| + 8) + 8 >= s.size && s.readers[k].ptr.cycle != s.w.cycle)))
  }

  /** What a send publishes: the message, at the write pointer if there is room behind it for a tag, at
      the start of the next lap otherwise. */
  ghost predicate Publishes(s: State, t: State, m: Msg)
  {
    var len := Align(|m| + 8);
    var at := if s.w.off + len + 8 < s.size then s.w else Ptr(s.w.cycle + 1, 0);
    var e := Entry(m, at.cycle, at.off, at.off + len);
    t.writer.WIdle? && t.size == s.size && t.log == s.log + [e] && t.w == Ptr(e.lap, e.end) && FrameAt(t.mem, e)
  }

  /** A send, from any state that the invariants allow, with the writer idle: if three messages of its size
      fit, it ends, has published the message, and has taken the flag from exactly the readers in the way,
      wherever any reader is. Otherwise it fails at once. */
  lemma SendPublishes(s: State, m: Msg) returns (n: nat)
    requires Inv(s) && s.writer.WIdle?
    ensures var t := Run(s, [Send(m)] + Writes(n));
            if 3 * Align(|m| + 8) <= s.size then Inv(t) && Publishes(s, t, m) && ReadersLeft(s, t, m)
            else t == s.(writer := WDead)
  {
    hide Run;
    hide Inv;
    hide Sent;
    hide Written;
    var u := Do(s, Send(m));
    n := 0;
    OffsetAligned(s);
    if 3 * Align(|m| + 8) <= s.size {
      SendBegins(s, m);
      n := SendEnds(s, u, m);
    }
    var t := Written(u, n);
    RunWrites(u, n);
    RunConcat(s, [Send(m)], Writes(n));
    OneAction(s, Send(m));
    if 3 * Align(|m| + 8) <= s.size {
      RunKeeps(s, [Send(m)] + Writes(n));
      SentReaders(s, t, m);
      SentPublishes(s, t, m);
    } else {
      NotWritten(u);
    }
  }

  lemma NotWritten(s: State)
    ensures Written(s, 0) == s
  {
  }

  lemma OneAction(s: State, a: Action)
    ensures Run(s, [a]) == Do(s, a)
  {
    hide Do;
    assert Run(s, [a]) == Run(Do(s, a), [a][1..]);
  }

  lemma OffsetAligned(s: State)
    requires Inv(s)
    ensures s.w.off % 8 == 0
  {
  }

  lemma SendBegins(s: State, m: Msg)
    requires s.writer.WIdle? && Fits(m, s.size)
    ensures Sending(s, Do(s, Send(m)), m)
  {
  }

  lemma SentReaders(s: State, t: State, m: Msg)
    requires Sent(s, t, m)
    ensures ReadersLeft(s, t, m)
  {
    hide Align;
  }

  lemma SentPublishes(s: State, t: State, m: Msg)
    requires Sent(s, t, m) && Inv(t)
    ensures Publishes(s, t, m)
  {
    hide Align;
    hide FrameAt;
    hide Readers;
    hide LogOk;
    hide ReaderOk;
    assert t.log[|s.log|].lap == t.w.cycle;
  }

  /** A drained subscriber receives exactly the message that is sent next, also when that send wraps. */
  lemma SendThenReceive(s: State, i: nat, m: Msg) returns (n: nat, k: nat, r': Reader)
    requires Inv(s) && OrderInv(s) && s.writer.WIdle? && i < |s.readers|
    requires var r := s.readers[i]; r.pc.RIdle? && Tracked(r) && !r.over && r.ptr == s.w
    requires m != [] && 3 * Align(|m| + 8) <= s.size
    ensures var t := Run(s, ([Send(m)] + Writes(n)) + ([Recv(i)] + Steps(i, k)));
            && |t.readers| == |s.readers| && t.readers[i] == r' && t.log == Run(s, [Send(m)] + Writes(n)).log
            && r'.pc.RIdle? && Tracked(r') && r'.out == s.readers[i].out + [m]
  {
    hide Run;
    hide Inv;
    hide OrderInv;
    n := SendPublishes(s, m);
    var t := Run(s, [Send(m)] + Writes(n));
    RunKeepsOrder(s, [Send(m)] + Writes(n));
    DrainedStays(s, t, i, m);
    var u := Do(t, Recv(i));
    DoKeeps(t, Recv(i));
    DoKeepsOrder(t, Recv(i));
    k, r' := ReceiveReturns(u, i);
    OnlyNew(s, t, u, i, m);
    OneAction(t, Recv(i));
    RunConcat(t, [Recv(i)], Steps(i, k));
    RunConcat(s, [Send(m)] + Writes(n), [Recv(i)] + Steps(i, k));
  }

  lemma OnlyNew(s: State, t: State, u: State, i: nat, m: Msg)
    requires Publishes(s, t, m) && m != [] && u.log == t.log && i < |u.readers|
    requires FoundAt(u, u.readers[i]) == |s.log|
    ensures NoneEmpty(u, u.readers[i])
  {
    hide FoundAt;
    hide FrameAt;
  }

  /** A send leaves a drained subscriber alone, expecting the new message. */
  lemma DrainedStays(s: State, t: State, i: nat, m: Msg)
    requires Inv(s) && OrderInv(s) && i < |s.readers| && Publishes(s, t, m) && ReadersLeft(s, t, m)
    requires var r := s.readers[i]; r.pc.RIdle? && Tracked(r) && !r.over && r.ptr == s.w
    requires m != [] && 3 * Align(|m| + 8) <= s.size
    ensures t.readers[i] == s.readers[i] && s.readers[i].next == |s.log|
    ensures s.w.off != t.w.off
  {
    hide Recorded;
    hide FrameAt;
    hide Current;
    var r := s.readers[i];
    assert OrderOk(s.log, s.w.cycle, r) && ReaderOk(s, i, r);
    assert !InTheWay(m, s.w, s.size, r.ptr);
  }
}
