/**
 The reader slots of MSGQ between two calls, as values: what a send does to flags and
 positions, what a read finds, and when a reader loses messages without being invalidated.
 */
module MsgqSlots {
  import opened Bytes
  import opened MsgqLayout

  /** History of a reader slot: the lap and the index of the message at its read pointer. */
  datatype Slot = Slot(lap: nat, next: nat)

  /** The flags after the search for readers beyond a wraparound tag at `w`. */
  function ClearBeyond(valids: seq<bool>, ptrs: seq<Ptr>, n: nat, w: Ptr): (r: seq<bool>)
    requires |ptrs| == |valids|
    ensures |r| == |valids|
  {
    seq(|valids|, i requires 0 <= i < |valids| =>
      valids[i] && !(i < n && ptrs[i].off > w.off && ptrs[i].cycle != w.cycle))
  }

  /** The flags after the search for readers in the area [w.off, end) that will be written. */
  function ClearWithin(valids: seq<bool>, ptrs: seq<Ptr>, n: nat, w: Ptr, end: nat): (r: seq<bool>)
    requires |ptrs| == |valids|
    ensures |r| == |valids|
  {
    seq(|valids|, i requires 0 <= i < |valids| =>
      valids[i] && !(i < n && w.off <= ptrs[i].off < end && ptrs[i].cycle != w.cycle))
  }

  ghost predicate SlotOk(mem: seq<byte>, log: seq<Entry>, w: Ptr, slot: Slot, rp: Ptr)
  {
    Placed(mem, log, w, w.off, slot.lap, slot.next, rp.off) && rp.cycle <= slot.lap
  }

  /** Valid readers are registered and stand at sound positions. */
  ghost predicate SlotsOk(mem: seq<byte>, log: seq<Entry>, w: Ptr, n: nat,
                          valids: seq<bool>, ptrs: seq<Ptr>, slots: seq<Slot>)
    requires |valids| == |ptrs| == |slots|
  {
    forall i | 0 <= i < |valids| && valids[i] :: i < n && SlotOk(mem, log, w, slots[i], ptrs[i])
  }

  /** One valid reader moves to another sound position. */
  lemma SlotsAfterMove(mem: seq<byte>, log: seq<Entry>, w: Ptr, n: nat,
                       valids: seq<bool>, ptrs: seq<Ptr>, slots: seq<Slot>, id: nat, slot: Slot, rp: Ptr)
    requires |valids| == |ptrs| == |slots| && SlotsOk(mem, log, w, n, valids, ptrs, slots)
    requires id < |valids| && id < n && SlotOk(mem, log, w, slot, rp)
    ensures SlotsOk(mem, log, w, n, valids, ptrs[id := rp], slots[id := slot])
  {
    hide SlotOk;
  }

  lemma SlotsAfterWrap(mem: seq<byte>, log: seq<Entry>, w: Ptr, n: nat,
                       valids: seq<bool>, ptrs: seq<Ptr>, slots: seq<Slot>)
    requires |valids| == |ptrs| == |slots| && SlotsOk(mem, log, w, n, valids, ptrs, slots)
    requires LogOk(log, w, |mem|) && 0 < w.off && w.off + 8 <= |mem| && Current(mem, log, w)
    ensures SlotsOk(Store64(mem, w.off, -1), log, Ptr(w.cycle + 1, 0), n, ClearBeyond(valids, ptrs, n, w), ptrs, slots)
  {
    hide Placed;
    hide LogOk;
    var valids' := ClearBeyond(valids, ptrs, n, w);
    forall i | 0 <= i < |valids| && valids'[i]
      ensures i < n && SlotOk(Store64(mem, w.off, -1), log, Ptr(w.cycle + 1, 0), slots[i], ptrs[i])
    {
      PlacedAfterTagAndWrap(mem, log, w, |mem|, slots[i].lap, slots[i].next, ptrs[i].off);
    }
  }

  /** The frame that a send without wraparound stores. */
  lemma FrameFits(m: Msg, w: Ptr, log: seq<Entry>, size: nat)
    requires LogOk(log, w, size) && !MustWrap(m, w.off, size)
    ensures var end := Align(w.off + 8 + |m|);
            && Framed(Entry(m, w.cycle, w.off, end)) && Align(w.off + |m| + 8) == end
            && w.off + 8 + |m| <= end && end + 8 < size && end > 0
  {
    AlignShift(w.off, |m|);
  }

  lemma SlotsAfterPublish(m0: seq<byte>, m1: seq<byte>, log: seq<Entry>, w: Ptr, e: Entry, n: nat,
                          valids: seq<bool>, ptrs: seq<Ptr>, slots: seq<Slot>)
    requires |valids| == |ptrs| == |slots| && SlotsOk(m0, log, w, n, valids, ptrs, slots)
    requires LogOk(log, w, |m0|) && e.lap == w.cycle && e.off == w.off < e.end
    requires SameBelow(m0, m1, w.off) && SameFrom(m0, m1, e.end)
    ensures SlotsOk(m1, log + [e], Ptr(e.lap, e.end), n, ClearWithin(valids, ptrs, n, w, e.end), ptrs, slots)
  {
    hide Old;
    hide LogOk;
    var valids' := ClearWithin(valids, ptrs, n, w, e.end);
    forall i | 0 <= i < |valids| && valids'[i]
      ensures i < n && SlotOk(m1, log + [e], Ptr(e.lap, e.end), slots[i], ptrs[i])
    {
      assert valids[i] && SlotOk(m0, log, w, slots[i], ptrs[i]);
      PlacedAfterSend(m0, m1, log, w, |m0|, e, slots[i].lap, slots[i].next, ptrs[i].off);
    }
  }

  /** The index of the message that a read at this position finds. */
  ghost function Found(mem: seq<byte>, log: seq<Entry>, w: Ptr, slot: Slot, rp: Ptr): nat
  {
    if TagAt(mem, rp.off) then First(log, w.cycle) else slot.next
  }

  /** The history and the buffer, as they are between two calls. */
  ghost predicate AtRest(mem: seq<byte>, log: seq<Entry>, w: Ptr)
  {
    LogOk(log, w, |mem|) && Current(mem, log, w) && (log != [] ==> w.off > 0)
  }

  /** A valid reader that is not level with the write pointer finds a message or a tag. */
  lemma Finds(mem: seq<byte>, log: seq<Entry>, w: Ptr, slot: Slot, rp: Ptr)
    requires AtRest(mem, log, w) && SlotOk(mem, log, w, slot, rp) && rp.off != w.off
    ensures Found(mem, log, w, slot, rp) < |log|
    ensures TagAt(mem, rp.off) ==> slot.lap < w.cycle
    ensures !TagAt(mem, rp.off) ==>
              && AtFrame(log, slot.lap, slot.next, rp.off)
              && var m := log[slot.next].msg;
                 && Load64(mem, rp.off) == |m| < |mem|
                 && rp.off + 8 + |m| <= |mem| && mem[rp.off + 8..rp.off + 8 + |m|] == m
  {
    hide Load64;
    hide Old;
    hide Current;
    SizeFound(mem, log, w, |mem|, w.off, slot.lap, slot.next, rp.off);
    FirstSplits(log, w.cycle);
  }

  /** Following a tag leads to the first message of the current lap, which is no tag. */
  lemma AfterTag(mem: seq<byte>, log: seq<Entry>, w: Ptr, slot: Slot, rp: Ptr)
    requires AtRest(mem, log, w) && SlotOk(mem, log, w, slot, rp) && slot.lap < w.cycle && log != []
    ensures var slot' := Slot(w.cycle, First(log, w.cycle)); var rp' := Ptr(rp.cycle + 1, 0);
            && SlotOk(mem, log, w, slot', rp') && w.off != 0
            && Found(mem, log, w, slot', rp') == First(log, w.cycle) && !TagAt(mem, rp'.off)
            && (TagAt(mem, rp.off) ==> Found(mem, log, w, slot, rp) == First(log, w.cycle))
  {
    PlacedAfterJump(mem, log, w, |mem|, w.off, slot.lap, slot.next, rp.off);
    StartOfLap(log, w, |mem|);
  }

  lemma SlotsAfterTag(mem: seq<byte>, log: seq<Entry>, w: Ptr, n: nat,
                      valids: seq<bool>, ptrs: seq<Ptr>, slots: seq<Slot>, id: nat)
    requires |valids| == |ptrs| == |slots| && SlotsOk(mem, log, w, n, valids, ptrs, slots)
    requires AtRest(mem, log, w) && id < |valids| && valids[id]
    requires ptrs[id].off != w.off && TagAt(mem, ptrs[id].off)
    ensures var rp := Ptr(ptrs[id].cycle + 1, 0); var slot := Slot(w.cycle, First(log, w.cycle));
            && SlotsOk(mem, log, w, n, valids, ptrs[id := rp], slots[id := slot])
            && Found(mem, log, w, slot, rp) == Found(mem, log, w, slots[id], ptrs[id]) < |log|
            && !TagAt(mem, rp.off)
            && (OnTrack(mem, log, w, slots[id], ptrs[id]) ==> OnTrack(mem, log, w, slot, rp))
    ensures w.off != 0 && slots[id].lap < w.cycle
  {
    hide First;
    hide TagAt;
    hide SlotOk;
    hide LogOk;
    hide Current;
    hide OnTrack;
    hide Found;
    if OnTrack(mem, log, w, slots[id], ptrs[id]) {
      TrackAfterJump(mem, log, w, slots[id], ptrs[id]);
    }
    assert SlotOk(mem, log, w, slots[id], ptrs[id]);
    Finds(mem, log, w, slots[id], ptrs[id]);
    AfterTag(mem, log, w, slots[id], ptrs[id]);
    SlotsAfterMove(mem, log, w, n, valids, ptrs, slots, id,
                   Slot(w.cycle, First(log, w.cycle)), Ptr(ptrs[id].cycle + 1, 0));
  }

  /** Moving on from a message; only the last message ends at the write pointer. */
  lemma AfterMessage(mem: seq<byte>, log: seq<Entry>, w: Ptr, slot: Slot, rp: Ptr)
    requires AtRest(mem, log, w) && SlotOk(mem, log, w, slot, rp) && rp.off != w.off && !TagAt(mem, rp.off)
    ensures slot.next < |log|
    ensures var end := Align(rp.off + 8 + |log[slot.next].msg|);
            var slot' := Slot(slot.lap, slot.next + 1); var rp' := Ptr(rp.cycle, end);
            && SlotOk(mem, log, w, slot', rp')
            && end == log[slot.next].end && slot.lap == log[slot.next].lap
            && (end == w.off <==> slot.next + 1 == |log|)
            && (end != w.off ==> Found(mem, log, w, slot', rp') > slot.next)
  {
    Finds(mem, log, w, slot, rp);
    var e := log[slot.next];
    AlignIs(rp.off + 8 + |e.msg|, e.end);
    PlacedAfterRead(mem, log, w, |mem|, w.off, slot.lap, slot.next, rp.off);
    FirstSplits(log, w.cycle);
    EndsAtWritePointer(mem, log, w, slot, rp);
  }

  lemma SlotsAfterMessage(mem: seq<byte>, log: seq<Entry>, w: Ptr, n: nat,
                          valids: seq<bool>, ptrs: seq<Ptr>, slots: seq<Slot>, id: nat)
    requires |valids| == |ptrs| == |slots| && SlotsOk(mem, log, w, n, valids, ptrs, slots)
    requires AtRest(mem, log, w) && id < |valids| && valids[id]
    requires ptrs[id].off != w.off && !TagAt(mem, ptrs[id].off)
    ensures slots[id].next < |log|
    ensures var end := Align(ptrs[id].off + 8 + |log[slots[id].next].msg|);
            var rp := Ptr(ptrs[id].cycle, end); var slot := Slot(slots[id].lap, slots[id].next + 1);
            && SlotsOk(mem, log, w, n, valids, ptrs[id := rp], slots[id := slot])
            && end == log[slots[id].next].end && slots[id].lap == log[slots[id].next].lap
            && (end == w.off <==> slots[id].next + 1 == |log|)
            && (end != w.off ==>
                  FoundAfter(log, w.cycle, Found(mem, log, w, slots[id], ptrs[id]), Found(mem, log, w, slot, rp)))
            && (OnTrack(mem, log, w, slots[id], ptrs[id]) ==> OnTrack(mem, log, w, slot, rp))
  {
    hide LogOk;
    hide Current;
    hide OnTrack;
    hide FoundAfter;
    NextFound(mem, log, w, slots[id], ptrs[id]);
    if OnTrack(mem, log, w, slots[id], ptrs[id]) {
      TrackAfterMessage(mem, log, w, slots[id], ptrs[id]);
    }
    assert SlotOk(mem, log, w, slots[id], ptrs[id]);
    AfterMessage(mem, log, w, slots[id], ptrs[id]);
    var end := Align(ptrs[id].off + 8 + |log[slots[id].next].msg|);
    SlotsAfterMove(mem, log, w, n, valids, ptrs, slots, id,
                   Slot(slots[id].lap, slots[id].next + 1), Ptr(ptrs[id].cycle, end));
  }

  lemma EndsAtWritePointer(mem: seq<byte>, log: seq<Entry>, w: Ptr, slot: Slot, rp: Ptr)
    requires AtRest(mem, log, w) && SlotOk(mem, log, w, slot, rp)
    requires AtFrame(log, slot.lap, slot.next, rp.off)
    ensures log[slot.next].end == w.off <==> slot.next + 1 == |log|
  {
    hide Old;
    if slot.lap == w.cycle && slot.next + 1 < |log| {
      assert log[slot.next + 1].lap == w.cycle;
    }
  }

  /** Where a send of `m` at write pointer `w` puts the frame. */
  function Placement(m: Msg, w: Ptr, size: nat): Ptr
  {
    if MustWrap(m, w.off, size) then Ptr(w.cycle + 1, 0) else w
  }

  /** The flags after a send of `m` at write pointer `w`. */
  function FlagsAfterSend(valids: seq<bool>, ptrs: seq<Ptr>, n: nat, m: Msg, w: Ptr, size: nat): (r: seq<bool>)
    requires |ptrs| == |valids|
    ensures |r| == |valids|
  {
    var at := Placement(m, w, size);
    ClearWithin(if MustWrap(m, w.off, size) then ClearBeyond(valids, ptrs, n, w) else valids, ptrs, n, at,
                Align(at.off + 8 + |m|))
  }

  // ---------------------------------------------------------------- gaps

  /** What a send leaves of the buffer: a wraparound tag at the write pointer, if it wraps, and
      everything outside the frame. */
  ghost predicate Overwrites(m0: seq<byte>, m1: seq<byte>, w: Ptr, wraps: bool, e: Entry)
  {
    var m := if wraps then Store64(m0, w.off, -1) else m0;
    SameBelow(m, m1, e.off) && SameFrom(m, m1, e.end)
  }

  /** The flag of a reader that a send does not clear. */
  predicate Survives(rp: Ptr, m: Msg, w: Ptr, size: nat)
  {
    var at := Placement(m, w, size);
    && !(MustWrap(m, w.off, size) && rp.off > w.off && rp.cycle != w.cycle)
    && !(at.off <= rp.off < Align(at.off + 8 + |m|) && rp.cycle != at.cycle)
  }

  /** The reader's cycle counter is exact, the writer is at most one cycle ahead, and unless the
      reader is drained, a read finds the message that comes next. */
  ghost predicate OnTrack(mem: seq<byte>, log: seq<Entry>, w: Ptr, slot: Slot, rp: Ptr)
  {
    && rp.cycle == slot.lap && w.cycle <= slot.lap + 1
    && (rp != w ==> Found(mem, log, w, slot, rp) == slot.next)
  }

  /** The guard that the search for readers beyond a wraparound tag lacks: level with the tag, in
      another cycle. */
  predicate LevelWithTag(rp: Ptr, m: Msg, w: Ptr, size: nat)
  {
    MustWrap(m, w.off, size) && rp.off == w.off && rp.cycle != w.cycle
  }

  /** What holds of the first message of a lap still holds when one more is published in it. */
  lemma FirstKept(log: seq<Entry>, e: Entry, w: Ptr, size: nat)
    requires LogOk(log, w, size) && e.lap == w.cycle
    ensures First(log + [e], w.cycle) == First(log, w.cycle)
  {
    assert (log + [e])[..|log|] == log;
    FirstSplits(log, w.cycle);
  }

  /** Storing a frame leaves every reader that survives on track. */
  lemma TrackAfterFrame(m0: seq<byte>, m1: seq<byte>, log: seq<Entry>, w: Ptr, slot: Slot, rp: Ptr, e: Entry)
    requires LogOk(log, w, |m0|) && Current(m0, log, w)
    requires SlotOk(m0, log, w, slot, rp) && OnTrack(m0, log, w, slot, rp)
    requires Framed(e) && e.lap == w.cycle && e.off == w.off && FrameAt(m1, e) && e.end + 8 < |m0|
    requires SameBelow(m0, m1, w.off) && SameFrom(m0, m1, e.end)
    requires w.off <= rp.off < e.end ==> rp.cycle == w.cycle
    ensures Found(m1, log + [e], Ptr(e.lap, e.end), slot, rp) == slot.next
    ensures OnTrack(m1, log + [e], Ptr(e.lap, e.end), slot, rp)
  {
    hide First;
    hide Old;
    hide Load64;
    if rp.off < w.off {
      FrameSame(m0, m1, w.off, log[slot.next]);
    } else if rp.off >= e.end {
      BeyondIsOld(m0, log, w, slot, rp);
      FirstKept(log, e, w, |m0|);
      if rp.off <= |m0| {
        LoadSame(m0, m1, e.end, rp.off);
      }
    }
  }

  /** Beyond the write pointer there are only positions of an earlier lap. */
  lemma BeyondIsOld(mem: seq<byte>, log: seq<Entry>, w: Ptr, slot: Slot, rp: Ptr)
    requires LogOk(log, w, |mem|) && SlotOk(mem, log, w, slot, rp) && rp.off > w.off
    ensures slot.lap < w.cycle && rp.off + 8 < |mem|
  {
    PlacedFits(mem, log, w, |mem|, w.off, slot.lap, slot.next, rp.off);
  }

  /** Starting a new lap leaves on track exactly the readers of the lap that ends. */
  lemma TrackAfterTag(mem: seq<byte>, log: seq<Entry>, w: Ptr, slot: Slot, rp: Ptr)
    requires AtRest(mem, log, w) && 0 < w.off && w.off + 8 <= |mem|
    requires SlotOk(mem, log, w, slot, rp) && OnTrack(mem, log, w, slot, rp) && rp.cycle == w.cycle
    ensures var m := Store64(mem, w.off, -1); var w' := Ptr(w.cycle + 1, 0);
            SlotOk(m, log, w', slot, rp) && OnTrack(m, log, w', slot, rp)
  {
    hide Old;
    hide Load64;
    hide Store64;
    PlacedAfterTagAndWrap(mem, log, w, |mem|, slot.lap, slot.next, rp.off);
    Store64Spec(mem, w.off, -1);
    FirstSplits(log, w.cycle + 1);
    if rp.off < w.off {
      FrameSame(mem, Store64(mem, w.off, -1), w.off, log[slot.next]);
    }
  }

  /** A reader of the lap before, level with the tag, skips all that it has not read of its own lap
      and the whole lap that ends. */
  lemma LevelSkips(mem: seq<byte>, m1: seq<byte>, log: seq<Entry>, w: Ptr, slot: Slot, rp: Ptr, e: Entry)
    requires AtRest(mem, log, w) && 0 < w.off && w.off + 8 <= |mem|
    requires SlotOk(mem, log, w, slot, rp) && rp.cycle == slot.lap && rp.cycle != w.cycle && rp.off == w.off
    requires e.lap == w.cycle + 1 && e.end <= rp.off && SameFrom(Store64(mem, w.off, -1), m1, e.end)
    ensures Found(m1, log + [e], Ptr(e.lap, e.end), slot, rp) == |log| > slot.next
  {
    hide Old;
    hide Load64;
    hide Store64;
    Store64Spec(mem, w.off, -1);
    LoadSame(Store64(mem, w.off, -1), m1, e.end, rp.off);
    var log' := log + [e];
    assert log'[..|log|] == log && log'[|log'| - 1] == e;
    FirstSplits(log, e.lap);
    NextIsEarlier(mem, log, w, slot, rp);
  }

  lemma NextIsEarlier(mem: seq<byte>, log: seq<Entry>, w: Ptr, slot: Slot, rp: Ptr)
    requires AtRest(mem, log, w) && w.off > 0 && SlotOk(mem, log, w, slot, rp) && slot.lap < w.cycle
    ensures slot.next < |log|
  {
    assert log[|log| - 1].lap == w.cycle;
  }

  /** Gap-freedom of one send, exactly: a reader that is on track, and that the send does not
      invalidate, stays on track if and only if it is not level with the tag of a wraparound in another
      cycle. Otherwise it finds the message just sent, and what comes before that is lost to it. */
  lemma TrackAfterSend(m0: seq<byte>, m1: seq<byte>, log: seq<Entry>, w: Ptr, slot: Slot, rp: Ptr, m: Msg)
    requires AtRest(m0, log, w) && Fits(m, |m0|) && |m0| < 0xFFFF_FFFF
    requires SlotOk(m0, log, w, slot, rp) && OnTrack(m0, log, w, slot, rp) && Survives(rp, m, w, |m0|)
    requires var at := Placement(m, w, |m0|); var e := Entry(m, at.cycle, at.off, Align(at.off + 8 + |m|));
             FrameAt(m1, e) && Overwrites(m0, m1, w, MustWrap(m, w.off, |m0|), e)
    ensures var at := Placement(m, w, |m0|); var e := Entry(m, at.cycle, at.off, Align(at.off + 8 + |m|));
            var w' := Ptr(e.lap, e.end); var found := Found(m1, log + [e], w', slot, rp);
            && (OnTrack(m1, log + [e], w', slot, rp) <==> !LevelWithTag(rp, m, w, |m0|))
            && (found == slot.next <==> !LevelWithTag(rp, m, w, |m0|))
            && (LevelWithTag(rp, m, w, |m0|) ==> found == |log| > slot.next)
  {
    hide SlotOk;
    hide OnTrack;
    hide Found;
    hide LogOk;
    hide Current;
    hide Load64;
    hide Store64;
    var at := Placement(m, w, |m0|);
    var e := Entry(m, at.cycle, at.off, Align(at.off + 8 + |m|));
    if !MustWrap(m, w.off, |m0|) {
      FrameFits(m, w, log, |m0|);
      TrackAfterFrame(m0, m1, log, w, slot, rp, e);
    } else {
      WrapRoom(m, w.off, |m0|);
      WrapTrack(m0, m1, log, w, slot, rp, m, e);
    }
  }

  lemma WrapTrack(m0: seq<byte>, m1: seq<byte>, log: seq<Entry>, w: Ptr, slot: Slot, rp: Ptr, m: Msg, e: Entry)
    requires AtRest(m0, log, w) && Fits(m, |m0|) && |m0| < 0xFFFF_FFFF && MustWrap(m, w.off, |m0|)
    requires SlotOk(m0, log, w, slot, rp) && OnTrack(m0, log, w, slot, rp) && Survives(rp, m, w, |m0|)
    requires e == Entry(m, w.cycle + 1, 0, Align(8 + |m|)) && FrameAt(m1, e) && Overwrites(m0, m1, w, true, e)
    ensures var w' := Ptr(e.lap, e.end); var found := Found(m1, log + [e], w', slot, rp);
            if LevelWithTag(rp, m, w, |m0|) then !OnTrack(m1, log + [e], w', slot, rp) && found == |log| > slot.next
            else OnTrack(m1, log + [e], w', slot, rp) && found == slot.next
  {
    hide Old;
    hide Load64;
    hide Store64;
    hide First;
    WrapRoom(m, w.off, |m0|);
    AlignIs(8 + |m|, Total(m));
    var mt, wt := Store64(m0, w.off, -1), Ptr(w.cycle + 1, 0);
    if LevelWithTag(rp, m, w, |m0|) {
      LevelSkips(m0, m1, log, w, slot, rp, e);
    } else {
      SurvivorIsCurrent(m0, log, w, slot, rp);
      TrackAfterTag(m0, log, w, slot, rp);
      BufferAfterWrap(m0, log, w, |m0|);
      FrameFits(m, wt, log, |m0|);
      TrackAfterFrame(mt, m1, log, wt, slot, rp, e);
    }
  }

  /** Of the readers behind the tag only those of the lap before are in another cycle. */
  lemma SurvivorIsCurrent(mem: seq<byte>, log: seq<Entry>, w: Ptr, slot: Slot, rp: Ptr)
    requires SlotOk(mem, log, w, slot, rp) && rp.cycle == slot.lap
    requires !(rp.off >= w.off && rp.cycle != w.cycle)
    ensures rp.cycle == w.cycle
  {
  }

  // ---------------------------------------------------------------- reading on

  /** The message that a reader finds after message k: the next of the same lap, or else the first of
      the writer's lap. */
  ghost predicate FoundAfter(log: seq<Entry>, cycle: nat, k: nat, k': nat)
  {
    k < k' < |log| && k' == if log[k + 1].lap == log[k].lap then k + 1 else First(log, cycle)
  }

  /** The frame behind one in a finished lap still has its size. */
  lemma IntactNext(mem: seq<byte>, log: seq<Entry>, w: Ptr, slot: Slot, rp: Ptr)
    requires LogOk(log, w, |mem|) && SlotOk(mem, log, w, slot, rp) && !TagAt(mem, rp.off) && slot.lap < w.cycle
    requires AtFrame(log, slot.lap, slot.next, rp.off)
    requires slot.next + 1 < |log| && log[slot.next + 1].lap == slot.lap
    ensures !TagAt(mem, log[slot.next].end)
  {
    assert Follows(log[slot.next], log[slot.next + 1]);
    assert FrameAt(mem, log[slot.next + 1]);
  }

  lemma NextFound(mem: seq<byte>, log: seq<Entry>, w: Ptr, slot: Slot, rp: Ptr)
    requires AtRest(mem, log, w) && SlotOk(mem, log, w, slot, rp) && rp.off != w.off && !TagAt(mem, rp.off)
    ensures slot.next < |log|
    ensures var end := Align(rp.off + 8 + |log[slot.next].msg|);
            end != w.off ==>
              FoundAfter(log, w.cycle, slot.next, Found(mem, log, w, Slot(slot.lap, slot.next + 1), Ptr(rp.cycle, end)))
  {
    hide Placed;
    hide LogOk;
    hide Current;
    hide TagAt;
    hide Align;
    Finds(mem, log, w, slot, rp);
    AfterMessage(mem, log, w, slot, rp);
    var end := Align(rp.off + 8 + |log[slot.next].msg|);
    if end != w.off {
      Finds(mem, log, w, Slot(slot.lap, slot.next + 1), Ptr(rp.cycle, end));
      if log[slot.next + 1].lap == slot.lap && slot.lap < w.cycle {
        IntactNext(mem, log, w, slot, rp);
      }
    }
  }

  lemma TrackAfterMessage(mem: seq<byte>, log: seq<Entry>, w: Ptr, slot: Slot, rp: Ptr)
    requires AtRest(mem, log, w) && SlotOk(mem, log, w, slot, rp) && OnTrack(mem, log, w, slot, rp)
    requires rp.off != w.off && !TagAt(mem, rp.off)
    ensures slot.next < |log|
    ensures var end := Align(rp.off + 8 + |log[slot.next].msg|);
            OnTrack(mem, log, w, Slot(slot.lap, slot.next + 1), Ptr(rp.cycle, end))
  {
    hide Placed;
    hide Current;
    hide TagAt;
    hide Align;
    hide Found;
    Finds(mem, log, w, slot, rp);
    AfterMessage(mem, log, w, slot, rp);
    NextFound(mem, log, w, slot, rp);
    FirstSplits(log, w.cycle);
  }

  lemma TrackAfterJump(mem: seq<byte>, log: seq<Entry>, w: Ptr, slot: Slot, rp: Ptr)
    requires AtRest(mem, log, w) && SlotOk(mem, log, w, slot, rp) && OnTrack(mem, log, w, slot, rp)
    requires rp.off != w.off && TagAt(mem, rp.off)
    ensures OnTrack(mem, log, w, Slot(w.cycle, First(log, w.cycle)), Ptr(rp.cycle + 1, 0))
  {
    hide Placed;
    hide Current;
    hide TagAt;
    Finds(mem, log, w, slot, rp);
    AfterTag(mem, log, w, slot, rp);
  }

  /** The messages that a conflating reader passes from message k on: those of the same lap, and those
      of the writer's lap. */
  predicate Visits(log: seq<Entry>, cycle: nat, k: nat, j: nat)
  {
    k <= j < |log| && (log[j].lap == log[k].lap || log[j].lap == cycle)
  }

  /** It has come from message k0 to message k, and none before that was empty. */
  ghost predicate Passes(log: seq<Entry>, cycle: nat, k0: nat, k: nat)
  {
    Visits(log, cycle, k0, k) && forall j: nat | Visits(log, cycle, k0, j) && j < k :: log[j].msg != []
  }

  lemma PassesNone(log: seq<Entry>, cycle: nat, k: nat)
    requires k < |log|
    ensures Passes(log, cycle, k, k)
  {
  }

  /** One of the messages that it passes is empty. */
  ghost predicate PassesEmpty(log: seq<Entry>, cycle: nat, k: nat)
  {
    exists j: nat :: Visits(log, cycle, k, j) && log[j].msg == []
  }

  lemma EmptyOrNot(log: seq<Entry>, cycle: nat, k0: nat, k: nat)
    requires Passes(log, cycle, k0, k)
    ensures log[k].msg == [] ==> PassesEmpty(log, cycle, k0)
    ensures log[k].msg != [] && k + 1 == |log| ==> !PassesEmpty(log, cycle, k0)
  {
  }

  lemma NotVisited(log: seq<Entry>, w: Ptr, size: nat, k0: nat, k: nat, k': nat, j: nat)
    requires LogOk(log, w, size) && Visits(log, w.cycle, k0, k) && FoundAfter(log, w.cycle, k, k') && k < j < k'
    ensures !Visits(log, w.cycle, k0, j)
  {
    FirstSplits(log, w.cycle);
  }

  lemma PassesOn(log: seq<Entry>, w: Ptr, size: nat, k0: nat, k: nat, k': nat)
    requires LogOk(log, w, size) && Passes(log, w.cycle, k0, k) && log[k].msg != [] && FoundAfter(log, w.cycle, k, k')
    ensures Passes(log, w.cycle, k0, k')
  {
    FirstSplits(log, w.cycle);
    forall j: nat | Visits(log, w.cycle, k0, j) && j < k'
      ensures log[j].msg != []
    {
      if j > k {
        NotVisited(log, w, size, k0, k, k', j);
      }
    }
  }

  /** What a send does to the readers that it does not invalidate. */
  lemma TracksAfterSend(m0: seq<byte>, m1: seq<byte>, log: seq<Entry>, w: Ptr, n: nat,
                        valids: seq<bool>, ptrs: seq<Ptr>, slots: seq<Slot>, m: Msg)
    requires |valids| == |ptrs| == |slots| && SlotsOk(m0, log, w, n, valids, ptrs, slots)
    requires AtRest(m0, log, w) && Fits(m, |m0|) && |m0| < 0xFFFF_FFFF
    requires var at := Placement(m, w, |m0|); var e := Entry(m, at.cycle, at.off, Align(at.off + 8 + |m|));
             FrameAt(m1, e) && Overwrites(m0, m1, w, MustWrap(m, w.off, |m0|), e)
    ensures var at := Placement(m, w, |m0|); var e := Entry(m, at.cycle, at.off, Align(at.off + 8 + |m|));
            forall i | 0 <= i < |valids| && FlagsAfterSend(valids, ptrs, n, m, w, |m0|)[i]
                && OnTrack(m0, log, w, slots[i], ptrs[i]) ::
              && (OnTrack(m1, log + [e], Ptr(e.lap, e.end), slots[i], ptrs[i]) <==> !LevelWithTag(ptrs[i], m, w, |m0|))
              && (Found(m1, log + [e], Ptr(e.lap, e.end), slots[i], ptrs[i]) == slots[i].next <==>
                 !LevelWithTag(ptrs[i], m, w, |m0|))
  {
    hide AtRest;
    hide SlotOk;
    hide OnTrack;
    hide Found;
    hide FrameAt;
    hide Overwrites;
    hide Align;
    hide MustWrap;
    var at := Placement(m, w, |m0|);
    var e := Entry(m, at.cycle, at.off, Align(at.off + 8 + |m|));
    forall i | 0 <= i < |valids| && FlagsAfterSend(valids, ptrs, n, m, w, |m0|)[i]
        && OnTrack(m0, log, w, slots[i], ptrs[i])
      ensures OnTrack(m1, log + [e], Ptr(e.lap, e.end), slots[i], ptrs[i]) <==> !LevelWithTag(ptrs[i], m, w, |m0|)
      ensures Found(m1, log + [e], Ptr(e.lap, e.end), slots[i], ptrs[i]) == slots[i].next <==>
              !LevelWithTag(ptrs[i], m, w, |m0|)
    {
      FlagSurvives(valids, ptrs, n, m, w, |m0|, i);
      TrackAfterSend(m0, m1, log, w, slots[i], ptrs[i], m);
    }
  }

  lemma FlagSurvives(valids: seq<bool>, ptrs: seq<Ptr>, n: nat, m: Msg, w: Ptr, size: nat, i: nat)
    requires |ptrs| == |valids| && i < |valids|
    ensures FlagsAfterSend(valids, ptrs, n, m, w, size)[i] <==> valids[i] && (i < n ==> Survives(ptrs[i], m, w, size))
  {
    hide Align;
    hide MustWrap;
  }

  lemma SentOver(m0: seq<byte>, mid: seq<byte>, m1: seq<byte>, w: Ptr, m: Msg)
    requires mid == if MustWrap(m, w.off, |m0|) then Store64(m0, w.off, -1) else m0
    requires var at := Placement(m, w, |m0|); SameBelow(mid, m1, at.off) && SameFrom(mid, m1, Align(at.off + 8 + |m|))
    ensures var at := Placement(m, w, |m0|); var e := Entry(m, at.cycle, at.off, Align(at.off + 8 + |m|));
            Overwrites(m0, m1, w, MustWrap(m, w.off, |m0|), e)
  {
  }
}
