/**
 MSGQ without interleaving: the header words and the data segment as one mutable object,
 with msgq_msg_send, msgq_msg_recv and the registration calls as methods that run to
 completion. Signals to sleeping readers are not modelled.
 */
module MsgqQueue {
  import opened Bytes
  import opened MsgqLayout
  import opened MsgqSlots

  datatype SendResult = Killed | SendAssertFailed | Sent(n: nat)

  datatype RecvResult = Empty | RecvAssertFailed | Message(m: Msg)

  /** How a pass through the body of msgq_msg_recv ends: back at the start, or with a result. */
  datatype Outcome = Again | Done(r: RecvResult)

  // ---------------------------------------------------------------- the objects

  /** The part of msgq_queue_t that is private to a subscribing process. */
  class Subscriber {
    var id: nat
    var uid: nat
    const conflate: bool

    constructor (conflate: bool)
      ensures this.conflate == conflate && id == 0 && uid == 0
    {
      this.conflate := conflate;
      id, uid := 0, 0;
    }
  }

  method StoreInt64(a: array<byte>, p: nat, v: int)
    requires p + 8 <= a.Length
    modifies a
    ensures a[..] == Store64(old(a[..]), p, v)
  {
    var b := EncodeInt64(v);
    for i := 0 to 8
      invariant a[..] == old(a[..p]) + b[..i] + old(a[p + i..])
    {
      a[p + i] := b[i];
    }
    assert b[..8] == b;
  }

  class Queue {
    const data: array<byte>
    var numReaders: nat
    var writePointer: Ptr
    var writeUid: nat
    const readPointers: array<Ptr>
    const readValids: array<bool>
    const readUids: array<nat>

    /** History: the messages published so far, and the slots' positions among them. */
    ghost var log: seq<Entry>
    ghost var slots: seq<Slot>

    ghost predicate Shape()
      reads this
    {
      && readPointers.Length == readValids.Length == readUids.Length == |slots| == NUM_READERS
      && data.Length < 0xFFFF_FFFF && numReaders <= NUM_READERS
      && data as object != readUids
    }

    ghost predicate BufferOk()
      reads this, data
    {
      LogOk(log, writePointer, data.Length) && Current(data[..], log, writePointer)
    }

    ghost predicate ReadersOk()
      requires Shape()
      reads this, data, readPointers, readValids, readUids
    {
      && SlotsOk(data[..], log, writePointer, numReaders, readValids[..], readPointers[..], slots)
      && forall i | numReaders <= i < NUM_READERS :: readUids[i] == 0
    }

    /** Between two calls the current lap is never empty, except before the first message. */
    ghost predicate Valid()
      reads this, data, readPointers, readValids, readUids
    {
      Shape() && BufferOk() && ReadersOk() && (log != [] ==> writePointer.off > 0)
    }

    /** A fresh segment, zeroed by ftruncate. */
    constructor (size: nat)
      requires size < 0xFFFF_FFFF
      ensures Valid() && log == [] && data.Length == size && numReaders == 0 && writeUid == 0
      ensures fresh(data) && fresh(readPointers) && fresh(readValids) && fresh(readUids)
    {
      data := new byte[size](_ => 0);
      numReaders, writePointer, writeUid := 0, Ptr(0, 0), 0;
      readPointers := new Ptr[NUM_READERS](_ => Ptr(0, 0));
      readValids := new bool[NUM_READERS](_ => false);
      readUids := new nat[NUM_READERS](_ => 0);
      log := [];
      slots := seq(NUM_READERS, _ => Slot(0, 0));
    }

    lemma Untouched()
      requires Valid() && log == []
      ensures writePointer == Ptr(0, 0)
    {
      assert LogOk(log, writePointer, data.Length);
    }

    // -------------------------------------------------------------- registration

    /** Clears all slots, as msgq_init_publisher and a full msgq_init_subscriber do. */
    method EvictAll()
      requires Valid()
      modifies this`numReaders, readValids, readUids
      ensures Valid() && numReaders == 0
      ensures forall i | 0 <= i < NUM_READERS :: !readValids[i] && readUids[i] == 0
    {
      hide Placed;
      hide LogOk;
      hide Current;
      numReaders := 0;
      for i := 0 to NUM_READERS
        invariant numReaders == 0
        invariant forall j | 0 <= j < i :: !readValids[j] && readUids[j] == 0
      {
        readValids[i] := false;
        readUids[i] := 0;
      }
    }

    method InitPublisher(uid: nat)
      requires Valid()
      modifies this`writeUid, this`numReaders, readValids, readUids
      ensures Valid() && writeUid == uid && numReaders == 0
      ensures forall i | 0 <= i < NUM_READERS :: !readValids[i] && readUids[i] == 0
    {
      hide Placed;
      hide LogOk;
      hide Current;
      writeUid := uid;
      EvictAll();
    }

    method ResetReader(id: nat)
      requires Valid() && id < numReaders
      modifies this`slots, readValids, readPointers
      ensures Valid()
      ensures readValids[..] == old(readValids[..])[id := true]
      ensures readPointers[..] == old(readPointers[..])[id := writePointer]
      ensures slots == old(slots)[id := Slot(writePointer.cycle, |log|)] && Tracked(id)
    {
      hide Old;
      hide Current;
      readValids[id] := true;
      readPointers[id] := writePointer;
      slots := slots[id := Slot(writePointer.cycle, |log|)];
    }

    /** Takes the next free slot. */
    method Register(sub: Subscriber, uid: nat)
      requires Valid() && uid != 0 && numReaders < NUM_READERS
      modifies this`numReaders, this`slots, readValids, readPointers, readUids, sub
      ensures Valid() && sub.id == old(numReaders) && numReaders == old(numReaders) + 1 && sub.uid == uid
      ensures readValids[..] == old(readValids[..])[sub.id := true]
      ensures readUids[..] == old(readUids[..])[sub.id := uid]
      ensures readPointers[..] == old(readPointers[..])[sub.id := writePointer]
      ensures slots == old(slots)[sub.id := Slot(writePointer.cycle, |log|)] && Tracked(sub.id)
    {
      hide Placed;
      hide LogOk;
      hide Current;
      sub.id, sub.uid := numReaders, uid;
      numReaders := numReaders + 1;
      readValids[sub.id] := false;
      readPointers[sub.id] := Ptr(0, 0);
      readUids[sub.id] := uid;
      ResetReader(sub.id);
    }

    /** Registers a subscriber; when all slots are taken, every reader is evicted first. */
    method InitSubscriber(sub: Subscriber, uid: nat)
      requires Valid() && uid != 0
      modifies this`numReaders, this`slots, readValids, readPointers, readUids, sub
      ensures Valid() && sub.uid == uid
      ensures sub.id == (if old(numReaders) < NUM_READERS then old(numReaders) else 0)
      ensures numReaders == sub.id + 1
      ensures readUids[sub.id] == uid && readValids[sub.id]
      ensures readPointers[..] == old(readPointers[..])[sub.id := writePointer]
      ensures slots == old(slots)[sub.id := Slot(writePointer.cycle, |log|)] && Tracked(sub.id)
      ensures forall i | 0 <= i < NUM_READERS && i != sub.id ::
                if old(numReaders) < NUM_READERS
                then readValids[i] == old(readValids[i]) && readUids[i] == old(readUids[i])
                else !readValids[i] && readUids[i] == 0
    {
      hide Placed;
      hide LogOk;
      hide Current;
      if numReaders + 1 > NUM_READERS {
        EvictAll();
      }
      label Room:
      Register(sub, uid);
      assert forall i | 0 <= i < NUM_READERS && i != sub.id ::
          readValids[..][i] == old@Room(readValids[..])[i] && readUids[..][i] == old@Room(readUids[..])[i];
      assert readUids[..][sub.id] == uid && readValids[..][sub.id];
    }

    // -------------------------------------------------------------- sending

    method InvalidateBeyond(w: Ptr)
      requires Shape()
      modifies readValids
      ensures readValids[..] == ClearBeyond(old(readValids[..]), readPointers[..], numReaders, w)
    {
      for i := 0 to numReaders
        invariant readValids[..] == ClearBeyond(old(readValids[..]), readPointers[..], i, w)
      {
        var rp := readPointers[i];
        if rp.off > w.off && rp.cycle != w.cycle {
          readValids[i] := false;
        }
      }
    }

    method InvalidateWithin(w: Ptr, end: nat)
      requires Shape()
      modifies readValids
      ensures readValids[..] == ClearWithin(old(readValids[..]), readPointers[..], numReaders, w, end)
    {
      for i := 0 to numReaders
        invariant readValids[..] == ClearWithin(old(readValids[..]), readPointers[..], i, w, end)
      {
        var rp := readPointers[i];
        if w.off <= rp.off < end && rp.cycle != w.cycle {
          readValids[i] := false;
        }
      }
    }

    /** Stores the size and the payload of `m` at `p`. */
    method StoreFrame(m: Msg, p: nat, end: nat)
      requires p + 8 + |m| <= end <= data.Length && |m| < 0xFFFF_FFFF
      modifies data
      ensures Copied(data[..], p, m, |m|)
      ensures SameBelow(old(data[..]), data[..], p) && SameFrom(old(data[..]), data[..], end)
    {
      StoreInt64(data, p, |m|);
      Store64Spec(old(data[..]), p, |m|);
      SameFurther(old(data[..]), data[..], p + 8, end);
      for k := 0 to |m|
        invariant Copied(data[..], p, m, k)
        invariant SameBelow(old(data[..]), data[..], p) && SameFrom(old(data[..]), data[..], end)
      {
        ghost var before := data[..];
        data[p + 8 + k] := m[k];
        assert data[..] == Store8(before, p + 8 + k, m[k]);
        CopyByteSpec(before, p, m, k, end);
      }
    }

    /** The wraparound: store the tag, invalidate the readers beyond it, start the next cycle. */
    method Wrap(ghost m: Msg)
      requires Shape() && BufferOk() && ReadersOk()
      requires Fits(m, data.Length) && MustWrap(m, writePointer.off, data.Length)
      modifies this`writePointer, data, readValids
      ensures Shape() && BufferOk() && ReadersOk()
      ensures writePointer == Ptr(old(writePointer).cycle + 1, 0)
      ensures data[..] == Store64(old(data[..]), old(writePointer).off, -1)
      ensures readValids[..] == ClearBeyond(old(readValids[..]), readPointers[..], numReaders, old(writePointer))
    {
      ghost var w, mem := writePointer, data[..];
      WrapRoom(m, w.off, data.Length);
      assert w.off + 8 <= data.Length;
      hide Placed;
      hide LogOk;
      hide Current;
      SlotsAfterWrap(mem, log, w, numReaders, readValids[..], readPointers[..], slots);
      BufferAfterWrap(mem, log, w, data.Length);
      StoreInt64(data, writePointer.off, -1);
      InvalidateBeyond(writePointer);
      writePointer := Ptr(writePointer.cycle + 1, 0);
    }

    /** What every send ends with: invalidate the readers in the way, store the frame, move
        the write pointer behind it. */
    method Publish(m: Msg)
      requires Shape() && BufferOk() && ReadersOk() && !MustWrap(m, writePointer.off, data.Length)
      modifies this`writePointer, this`log, data, readValids
      ensures Valid()
      ensures var w := old(writePointer);
              var e := Entry(m, w.cycle, w.off, Align(w.off + 8 + |m|));
              && log == old(log) + [e] && writePointer == Ptr(e.lap, e.end) && FrameAt(data[..], e)
              && SameBelow(old(data[..]), data[..], e.off) && SameFrom(old(data[..]), data[..], e.end)
              && readValids[..] == ClearWithin(old(readValids[..]), readPointers[..], numReaders, w, e.end)
    {
      hide Placed;
      hide LogOk;
      hide Current;
      hide ClearWithin;
      hide SlotsOk;
      hide Copied;
      hide SameBelow;
      hide SameFrom;
      hide FrameAt;
      hide Framed;
      hide Align;
      ghost var w, mem := writePointer, data[..];
      FrameFits(m, w, log, data.Length);
      var end := Align(writePointer.off + 8 + |m|);
      ghost var e := Entry(m, w.cycle, w.off, end);
      InvalidateWithin(writePointer, end);
      StoreFrame(m, writePointer.off, end);
      SlotsAfterPublish(mem, data[..], log, w, e, numReaders, old(readValids[..]), readPointers[..], slots);
      BufferAfterPublish(mem, data[..], log, w, data.Length, e);
      writePointer := Ptr(writePointer.cycle, Align(writePointer.off + |m| + 8));
      log := log + [e];
    }

    /** msgq_msg_send. `uid` is the sender's write_uid_local. */
    method Send(m: Msg, uid: nat) returns (r: SendResult)
      requires Valid()
      modifies this`writePointer, this`log, data, readValids
      ensures Valid()
      ensures r == (if uid != writeUid then Killed else if !Fits(m, data.Length) then SendAssertFailed else Sent(|m|))
      ensures !r.Sent? ==> log == old(log) && writePointer == old(writePointer)
                           && data[..] == old(data[..]) && readValids[..] == old(readValids[..])
      ensures r.Sent? ==>
                var at := Placement(m, old(writePointer), data.Length);
                var e := Entry(m, at.cycle, at.off, Align(at.off + 8 + |m|));
                && log == old(log) + [e] && writePointer == Ptr(e.lap, e.end) && FrameAt(data[..], e)
                && Overwrites(old(data[..]), data[..], old(writePointer),
                   MustWrap(m, old(writePointer).off, data.Length), e)
      ensures r.Sent? ==>
                readValids[..] == FlagsAfterSend(old(readValids[..]), readPointers[..], numReaders, m,
                                                 old(writePointer), data.Length)
      // Of the readers that stay valid, exactly those level with a wraparound tag lose messages.
      ensures r.Sent? ==>
                forall i | 0 <= i < NUM_READERS && readValids[i] && old(Tracked(i)) ::
                  var level := LevelWithTag(readPointers[i], m, old(writePointer), data.Length);
                  (Tracked(i) <==> !level) && (FoundBy(i) == slots[i].next <==> !level)
    {
      hide Placed;
      hide LogOk;
      hide Current;
      hide OnTrack;
      hide Overwrites;
      hide FrameAt;
      ghost var mem, log0, w, flags := data[..], log, writePointer, readValids[..];
      if uid != writeUid {
        return Killed;
      }
      var total := Align(|m| + 8);
      if !(3 * total <= data.Length) {
        return SendAssertFailed;
      }
      var remaining := data.Length - writePointer.off - total - 8;
      if remaining <= 0 {
        WrapRoom(m, writePointer.off, data.Length);
        Wrap(m);
      }
      ghost var mid := data[..];
      Publish(m);
      SentOver(mem, mid, data[..], w, m);
      TracksAfterSend(mem, data[..], log0, w, numReaders, flags, readPointers[..], slots, m);
      return Sent(|m|);
    }

    // -------------------------------------------------------------- receiving

    /** A subscriber that was neither evicted nor invalidated. */
    ghost predicate Live(sub: Subscriber)
      requires Shape() && sub.id < NUM_READERS
      reads this, sub, readValids, readUids
    {
      sub.uid == readUids[sub.id] && readValids[sub.id]
    }

    /** Nothing is lost to the reader so far: it is drained, or a read finds its next message. */
    ghost predicate Tracked(id: nat)
      requires Shape() && id < NUM_READERS
      reads this, data, readPointers
    {
      OnTrack(data[..], log, writePointer, slots[id], readPointers[id])
    }

    ghost function FoundBy(id: nat): nat
      requires Shape() && id < NUM_READERS
      reads this, data, readPointers
    {
      Found(data[..], log, writePointer, slots[id], readPointers[id])
    }

    /** The cycle counter of a reader that moves on to a message: following a tag adds one. */
    ghost function CycleAfter(id: nat): nat
      requires Shape() && id < NUM_READERS
      reads this, data, readPointers
    {
      readPointers[id].cycle + if TagAt(data[..], readPointers[id].off) then 1 else 0
    }

    method FollowTag(id: nat)
      requires Valid() && id < NUM_READERS && readValids[id]
      requires readPointers[id].off != writePointer.off && TagAt(data[..], readPointers[id].off)
      modifies this`slots, readPointers
      ensures Valid() && readPointers[id].off != writePointer.off && FoundBy(id) == old(FoundBy(id))
      ensures readPointers[..] == old(readPointers[..])[id := Ptr(old(readPointers[id]).cycle + 1, 0)]
      ensures slots == old(slots)[id := Slot(writePointer.cycle, First(log, writePointer.cycle))]
      ensures old(slots)[id].lap < writePointer.cycle && CycleAfter(id) == old(CycleAfter(id))
      ensures old(Tracked(id)) ==> Tracked(id)
    {
      hide OnTrack;
      hide SlotsOk;
      hide LogOk;
      hide Current;
      hide Found;
      hide TagAt;
      hide First;
      SlotsAfterTag(data[..], log, writePointer, numReaders, readValids[..], readPointers[..], slots, id);
      readPointers[id] := Ptr(readPointers[id].cycle + 1, 0);
      slots := slots[id := Slot(writePointer.cycle, First(log, writePointer.cycle))];
    }

    method StepOver(id: nat, end: nat)
      requires Valid() && id < NUM_READERS && readValids[id] && slots[id].next < |log|
      requires readPointers[id].off != writePointer.off && !TagAt(data[..], readPointers[id].off)
      requires end == Align(readPointers[id].off + 8 + |log[slots[id].next].msg|)
      modifies this`slots, readPointers
      ensures Valid()
      ensures readPointers[..] == old(readPointers[..])[id := Ptr(old(readPointers[id]).cycle, end)]
      ensures slots == old(slots)[id := Slot(old(slots)[id].lap, old(slots)[id].next + 1)]
      ensures end == writePointer.off <==> slots[id].next == |log|
      ensures end == log[old(slots)[id].next].end && old(slots)[id].lap == log[old(slots)[id].next].lap
      ensures end != writePointer.off ==> FoundAfter(log, writePointer.cycle, old(FoundBy(id)), FoundBy(id))
      ensures old(Tracked(id)) ==> Tracked(id)
    {
      hide OnTrack;
      hide FoundAfter;
      hide SlotsOk;
      hide LogOk;
      hide Current;
      hide Found;
      hide TagAt;
      hide Align;
      SlotsAfterMessage(data[..], log, writePointer, numReaders, readValids[..], readPointers[..], slots, id);
      readPointers[id] := Ptr(readPointers[id].cycle, end);
      slots := slots[id := Slot(slots[id].lap, slots[id].next + 1)];
    }

    /** What the size load of msgq_msg_recv finds. */
    lemma SizeAt(id: nat)
      requires Valid() && id < NUM_READERS && readValids[id] && readPointers[id].off != writePointer.off
      ensures FoundBy(id) < |log| && id < numReaders
      ensures TagAt(data[..], readPointers[id].off) <==> Load64(data[..], readPointers[id].off) == -1
      ensures TagAt(data[..], readPointers[id].off) ==> slots[id].lap < writePointer.cycle
      ensures !TagAt(data[..], readPointers[id].off) ==>
                && slots[id].next == FoundBy(id)
                && var m := log[FoundBy(id)].msg; var p := readPointers[id].off;
                   && Load64(data[..], p) == |m| < data.Length
                   && p + 8 + |m| <= data.Length && data[p + 8..p + 8 + |m|] == m
    {
      hide LogOk;
      hide Current;
      hide Placed;
      assert SlotOk(data[..], log, writePointer, slots[id], readPointers[id]);
      Finds(data[..], log, writePointer, slots[id], readPointers[id]);
    }

    lemma NextIfTracked(id: nat)
      requires Valid() && id < NUM_READERS && readPointers[id].off != writePointer.off
      ensures Tracked(id) ==> FoundBy(id) == slots[id].next
    {
    }

    /** In the current lap, a reader finds its own next message. */
    lemma InCurrentLap(id: nat)
      requires Valid() && id < NUM_READERS && readValids[id] && readPointers[id].off != writePointer.off
      requires slots[id].lap == writePointer.cycle
      ensures FoundBy(id) == slots[id].next && CycleAfter(id) == readPointers[id].cycle
    {
      SizeAt(id);
    }

    /** At the end of a finished lap, it finds a tag, and through it the current lap. */
    lemma AtOldTag(id: nat)
      requires Valid() && id < NUM_READERS && readValids[id] && readPointers[id].off != writePointer.off
      requires !AtFrame(log, slots[id].lap, slots[id].next, readPointers[id].off)
      ensures FoundBy(id) == First(log, writePointer.cycle) && CycleAfter(id) == readPointers[id].cycle + 1
    {
      assert SlotOk(data[..], log, writePointer, slots[id], readPointers[id]);
      Finds(data[..], log, writePointer, slots[id], readPointers[id]);
    }

    /** The rest of a pass through msgq_msg_recv, once the flag is found set. */
    method Look(id: nat, conflate: bool) returns (o: Outcome)
      requires Valid() && id < NUM_READERS && readValids[id]
      modifies this`slots, readPointers
      ensures Valid() && (old(Tracked(id)) ==> Tracked(id))
      ensures readPointers[..] == old(readPointers[..])[id := readPointers[id]] && slots == old(slots)[id := slots[id]]
      ensures old(readPointers[id]).off == writePointer.off <==> o == Done(Empty)
      ensures o == Done(Empty) ==> readPointers[..] == old(readPointers[..]) && slots == old(slots)
      ensures o != Done(Empty) ==> old(FoundBy(id)) < |log|
      ensures o.Again? ==> readPointers[id].off != writePointer.off
      ensures o.Again? && FoundBy(id) == old(FoundBy(id)) ==>
                old(slots)[id].lap < writePointer.cycle == slots[id].lap && CycleAfter(id) == old(CycleAfter(id))
      ensures o.Again? && FoundBy(id) != old(FoundBy(id)) ==>
                && conflate && log[old(FoundBy(id))].msg != []
                   && FoundAfter(log, writePointer.cycle, old(FoundBy(id)), FoundBy(id))
                && slots[id] == Slot(old(slots)[id].lap, old(slots)[id].next + 1) && slots[id].next <= |log|
      ensures o == Done(RecvAssertFailed) ==> log[old(FoundBy(id))].msg == []
      ensures o.Done? && o.r.Message? ==>
                var k := old(FoundBy(id));
                && log[k].msg != [] && o.r == Message(log[k].msg) && (conflate ==> k + 1 == |log|)
                && slots[id] == Slot(log[k].lap, k + 1) && readPointers[id] == Ptr(old(CycleAfter(id)), log[k].end)
                && (k + 1 == |log| ==> readPointers[id].off == writePointer.off)
    {
      hide SlotsOk;
      hide LogOk;
      hide Current;
      hide Found;
      hide TagAt;
      hide First;
      hide Align;
      hide OnTrack;
      var rp := readPointers[id];
      if rp.off == writePointer.off {
        return Done(Empty);
      }
      SizeAt(id);
      var size := Load64(data[..], rp.off);
      if size == -1 {
        FollowTag(id);
        return Again;
      }
      if !(0 < size < data.Length) {
        return Done(RecvAssertFailed);
      }
      var end := Align(rp.off + 8 + size);
      if conflate && end != writePointer.off {
        StepOver(id, end);
        return Again;
      }
      var m := data[rp.off + 8..rp.off + 8 + size];
      StepOver(id, end);
      return Done(Message(m));
    }

    /** msgq_msg_recv. `uid` is what msgq_get_uid would return, should the subscriber have to
        register again. Completed calls only: the flag cannot be cleared in between, so the
        two re-checks of the flag are left to MsgqMachine. */
    method Recv(sub: Subscriber, uid: nat) returns (r: RecvResult)
      requires Valid() && sub.id < NUM_READERS && sub.uid != 0 && uid != 0
      modifies this`numReaders, this`slots, readValids, readPointers, readUids, sub
      ensures Valid() && sub.id < numReaders
      // An evicted or invalidated subscriber starts over at the write pointer.
      ensures !old(Live(sub)) ==>
                r == Empty && Live(sub) && readPointers[sub.id] == writePointer
                && slots[sub.id] == Slot(writePointer.cycle, |log|)
      ensures old(Live(sub)) && old(readPointers[sub.id]).off == writePointer.off ==>
                r == Empty && readPointers[..] == old(readPointers[..]) && slots == old(slots)
      ensures old(Live(sub)) ==> sub.id == old(sub.id) && sub.uid == old(sub.uid)
                                 && numReaders == old(numReaders)
                                 && readValids[..] == old(readValids[..]) && readUids[..] == old(readUids[..])
      // Otherwise there is a message to find; for a reader that has lost nothing it is the next one.
      ensures old(Live(sub)) && old(Tracked(sub.id)) ==>
                && Tracked(sub.id)
                && (old(readPointers[sub.id]).off != writePointer.off ==>
                      old(FoundBy(sub.id)) == old(slots)[sub.id].next)
      ensures old(Live(sub)) && old(readPointers[sub.id]).off != writePointer.off && !sub.conflate ==>
                var k := old(FoundBy(sub.id));
                && k < |log| && r == (if log[k].msg == [] then RecvAssertFailed else Message(log[k].msg))
                && (r.Message? ==>
                      && slots == old(slots)[sub.id := Slot(log[k].lap, k + 1)]
                      && readPointers[..] == old(readPointers[..])[sub.id := Ptr(old(CycleAfter(sub.id)), log[k].end)])
      ensures old(Live(sub)) && old(readPointers[sub.id]).off != writePointer.off && sub.conflate ==>
                && old(FoundBy(sub.id)) < |log|
                && (r.RecvAssertFailed? <==> PassesEmpty(log, writePointer.cycle, old(FoundBy(sub.id))))
                && (!r.RecvAssertFailed? ==>
                      && r == Message(log[|log| - 1].msg)
                      && readPointers[sub.id].off == writePointer.off && slots[sub.id].next == |log|)
    {
      hide SlotsOk;
      hide LogOk;
      hide Current;
      hide Found;
      hide TagAt;
      hide First;
      hide Align;
      hide OnTrack;
      hide Passes;
      hide PassesEmpty;
      hide Visits;
      hide Load64;
      hide Placed;
      hide SlotOk;
      hide FoundAfter;
      ghost var live := Live(sub);
      ghost var level := readPointers[sub.id].off == writePointer.off;
      ghost var k := FoundBy(sub.id);
      if live && !level {
        SizeAt(sub.id);
        PassesNone(log, writePointer.cycle, k);
        NextIfTracked(sub.id);
      }
      while true
        invariant Valid() && sub.id < NUM_READERS && sub.uid != 0
        invariant live ==> Live(sub) && sub.id == old(sub.id) && sub.uid == old(sub.uid)
                           && numReaders == old(numReaders)
                           && readValids[..] == old(readValids[..]) && readUids[..] == old(readUids[..])
        invariant live && level ==> readPointers[..] == old(readPointers[..]) && slots == old(slots)
        invariant live ==> (level <==> readPointers[sub.id].off == writePointer.off)
        invariant live && !level ==>
                    Passes(log, writePointer.cycle, k, FoundBy(sub.id)) && (!sub.conflate ==> FoundBy(sub.id) == k)
        invariant live && old(Tracked(sub.id)) ==> Tracked(sub.id)
        invariant live && !level && !sub.conflate ==>
                    && CycleAfter(sub.id) == old(CycleAfter(sub.id))
                    && readPointers[..] == old(readPointers[..])[sub.id := readPointers[sub.id]]
                    && slots == old(slots)[sub.id := slots[sub.id]]
        invariant !live && Live(sub) ==>
                    readPointers[sub.id] == writePointer && slots[sub.id] == Slot(writePointer.cycle, |log|)
        decreases if sub.uid != readUids[sub.id] then 1 else 0, if !readValids[sub.id] then 1 else 0,
                  writePointer.cycle - slots[sub.id].lap, |log| - slots[sub.id].next
      {
        if sub.uid != readUids[sub.id] {
          InitSubscriber(sub, uid);
          continue;
        }
        if !readValids[sub.id] {
          ResetReader(sub.id);
          continue;
        }
        ghost var j := FoundBy(sub.id);
        if live && !level {
          EmptyOrNot(log, writePointer.cycle, k, j);
        }
        var o := Look(sub.id, sub.conflate);
        match o
        case Done(m) => return m;
        case Again =>
          if live && !level && FoundBy(sub.id) != j {
            PassesOn(log, writePointer, data.Length, k, j, FoundBy(sub.id));
          }
      }
    }

    /** msgq_msg_ready: is there anything to receive? */
    method Ready(sub: Subscriber, uid: nat) returns (b: bool)
      requires Valid() && sub.id < NUM_READERS && sub.uid != 0 && uid != 0
      modifies this`numReaders, this`slots, readValids, readPointers, readUids, sub
      ensures Valid() && sub.id < numReaders && Live(sub)
      ensures b <==> readPointers[sub.id].off != writePointer.off
      ensures old(Live(sub)) ==>
                sub.id == old(sub.id) && readPointers[..] == old(readPointers[..]) && slots == old(slots)
      ensures !old(Live(sub)) ==> readPointers[sub.id] == writePointer
    {
      hide SlotsOk;
      hide LogOk;
      hide Current;
      ghost var live := Live(sub);
      while sub.uid != readUids[sub.id] || !readValids[sub.id]
        invariant Valid() && sub.id < NUM_READERS && sub.uid != 0
        invariant live ==> Live(sub) && sub.id == old(sub.id)
                           && readPointers[..] == old(readPointers[..]) && slots == old(slots)
        invariant !live && Live(sub) ==> readPointers[sub.id] == writePointer
        decreases if sub.uid != readUids[sub.id] then 1 else 0, if !readValids[sub.id] then 1 else 0
      {
        if sub.uid != readUids[sub.id] {
          InitSubscriber(sub, uid);
        } else {
          ResetReader(sub.id);
        }
      }
      Registered(sub);
      return readPointers[sub.id].off != writePointer.off;
    }

    lemma Registered(sub: Subscriber)
      requires Valid() && sub.id < NUM_READERS && Live(sub)
      ensures sub.id < numReaders
    {
      assert readValids[..][sub.id];
    }

    // -------------------------------------------------------------- sending, then receiving

    /** A reader level with the write pointer, in the same cycle, has read everything. */
    lemma Drained(id: nat)
      requires Valid() && id < NUM_READERS && readValids[id] && readPointers[id] == writePointer
      ensures slots[id] == Slot(writePointer.cycle, |log|)
    {
      assert SlotOk(data[..], log, writePointer, slots[id], readPointers[id]);
    }

    /** A drained subscriber receives exactly the next message sent, also when the send wraps
        around: three messages fit, so the write pointer cannot end up where it was. */
    method SendThenRecv(sub: Subscriber, m: Msg, uid: nat) returns (r: RecvResult)
      requires Valid() && sub.id < NUM_READERS && sub.uid != 0 && uid != 0
      requires Live(sub) && readPointers[sub.id] == writePointer
      requires Fits(m, data.Length) && m != []
      modifies this, data, readValids, readPointers, readUids, sub
      ensures Valid() && r == Message(m) && |log| == |old(log)| + 1 && log[|log| - 1].msg == m
    {
      hide SlotsOk;
      hide LogOk;
      hide Current;
      hide Found;
      hide FlagsAfterSend;
      hide TagAt;
      Drained(sub.id);
      ghost var w, id := writePointer, sub.id;
      ghost var log0, slots0, flags := log, slots, readValids[..];
      StaysValid(m, w, flags, readPointers[..], numReaders, id);
      var sent := Send(m, writeUid);
      assert readValids[..][id];
      NextIsFound(m, w, log0, id);
      r := Recv(sub, uid);
    }

    lemma StaysValid(m: Msg, w: Ptr, valids: seq<bool>, ptrs: seq<Ptr>, n: nat, id: nat)
      requires id < |valids| == |ptrs| && valids[id] && ptrs[id] == w && Fits(m, data.Length)
      ensures FlagsAfterSend(valids, ptrs, n, m, w, data.Length)[id]
    {
      if MustWrap(m, w.off, data.Length) {
        WrapRoom(m, w.off, data.Length);
        AlignIs(0 + 8 + |m|, Total(m));
      }
    }

    lemma NextIsFound(m: Msg, w: Ptr, log0: seq<Entry>, id: nat)
      requires Valid() && id < NUM_READERS && readValids[id] && Fits(m, data.Length) && m != []
      requires slots[id] == Slot(w.cycle, |log0|) && readPointers[id] == w
      requires var at := Placement(m, w, data.Length);
               var e := Entry(m, at.cycle, at.off, Align(at.off + 8 + |m|));
               log == log0 + [e] && writePointer == Ptr(e.lap, e.end)
      ensures readPointers[id].off != writePointer.off && FoundBy(id) == |log0|
    {
      assert SlotOk(data[..], log, writePointer, slots[id], readPointers[id]);
      var e := log[|log0|];
      if MustWrap(m, w.off, data.Length) {
        WrapRoom(m, w.off, data.Length);
        AlignIs(0 + 8 + |m|, Total(m));
      }
      Finds(data[..], log, writePointer, slots[id], readPointers[id]);
      FirstSplits(log, writePointer.cycle);
    }
  }

  // ---------------------------------------------------------------- messages lost without a reset

  /** Message number `k` of a run of one-byte messages through a segment of 48 bytes. */
  ghost function Nth(k: nat): Entry
    requires k < 256
  {
    Entry([k], k / 2, 16 * (k % 2), 16 * (k % 2) + 16)
  }

  /** `n` such messages were sent; subscriber 0, never invalidated, stands at `rp`. */
  ghost predicate Stage(q: Queue, sub: Subscriber, n: nat, slot: Slot, rp: Ptr)
    requires n < 256
    reads q, q.data, q.readPointers, q.readValids, q.readUids, sub
  {
    && q.Valid() && q.data.Length == 48 && q.writeUid == 7 && q.numReaders == 1
    && sub.id == 0 && sub.uid == 9 && q.Live(sub) && q.readPointers[0] == rp && q.slots[0] == slot
    && |q.log| == n && (forall k | 0 <= k < n :: q.log[k] == Nth(k))
    && q.writePointer == (if n == 0 then Ptr(0, 0) else Ptr(Nth(n - 1).lap, Nth(n - 1).end))
  }

  /** How such a run starts: a fresh queue, a publisher, a subscriber. */
  method FirstStage() returns (q: Queue, sub: Subscriber)
    ensures Stage(q, sub, 0, Slot(0, 0), Ptr(0, 0)) && !sub.conflate
    ensures fresh(q) && fresh(q.data) && fresh(q.readPointers) && fresh(q.readValids) && fresh(q.readUids) && fresh(sub)
  {
    hide SlotsOk;
    hide LogOk;
    hide Current;
    q := new Queue(48);
    q.Untouched();
    sub := new Subscriber(false);
    q.InitPublisher(7);
    q.InitSubscriber(sub, 9);
    assert q.readPointers[..][0] == q.writePointer;
  }

  method SendNth(q: Queue, sub: Subscriber, n: nat, ghost slot: Slot, ghost rp: Ptr)
    requires n < 255 && Stage(q, sub, n, slot, rp)
    requires FlagsAfterSend([true], [rp], 1, [n], q.writePointer, 48) == [true]
    modifies q`writePointer, q`log, q.data, q.readValids
    ensures Stage(q, sub, n + 1, slot, rp)
  {
    hide SlotsOk;
    hide LogOk;
    hide Current;
    hide Found;
    hide TagAt;
    hide Overwrites;
    hide FrameAt;
    hide LevelWithTag;
    ghost var w := q.writePointer;
    assert Align(9) == 16 && Align(w.off + 9) == w.off + 16;
    assert FlagsAfterSend(q.readValids[..], q.readPointers[..], 1, [n], w, 48)[0]
        == FlagsAfterSend([true], [rp], 1, [n], w, 48)[0];
    var s := q.Send([n], 7);
    assert q.readValids[..][0];
  }

  method RecvNth(q: Queue, sub: Subscriber, ghost n: nat, ghost slot: Slot, ghost rp: Ptr, ghost k: nat)
    returns (r: RecvResult)
    requires n < 256 && Stage(q, sub, n, slot, rp) && !sub.conflate
    requires rp.off != q.writePointer.off && q.FoundBy(0) == k < n
    modifies q`numReaders, q`slots, q.readValids, q.readPointers, q.readUids, sub
    ensures r == Message([k])
    ensures Stage(q, sub, n, Slot(Nth(k).lap, k + 1), Ptr(old(q.CycleAfter(0)), Nth(k).end))
  {
    hide SlotsOk;
    hide LogOk;
    hide Current;
    hide Found;
    hide TagAt;
    r := q.Recv(sub, 9);
    assert q.readValids[..][0] && q.readUids[..][0] == 9;
    assert q.readPointers[..][0] == Ptr(old(q.CycleAfter(0)), Nth(k).end);
  }

  /** Gap-freedom is not unconditional: on a fresh queue a subscriber receives messages 0, 1 and then
      4, although its flag is never cleared. It stands at offset 32 of the first cycle when the writer,
      a full cycle later, stores a wraparound tag at offset 32: the search for readers beyond the tag
      is strict, and the emptiness test does not look at the cycles. */
  method LosesMessages() returns (q: Queue, sub: Subscriber, a: RecvResult, b: RecvResult, c: bool, d: RecvResult)
    ensures Stage(q, sub, 5, Slot(2, 5), Ptr(1, 16)) && !sub.conflate
    ensures a == Message([0]) && b == Message([1]) && !c && d == Message([4])
  {
    q, sub := FirstStage();
    a, b := ReadsTwo(q, sub);
    c, d := LosesTwo(q, sub);
  }

  method ReadsTwo(q: Queue, sub: Subscriber) returns (a: RecvResult, b: RecvResult)
    requires Stage(q, sub, 0, Slot(0, 0), Ptr(0, 0)) && !sub.conflate
    modifies q, q.data, q.readValids, q.readPointers, q.readUids, sub
    ensures Stage(q, sub, 2, Slot(0, 2), Ptr(0, 32))
    ensures a == Message([0]) && b == Message([1])
  {
    hide SlotsOk;
    hide LogOk;
    hide Current;
    hide Found;
    hide TagAt;
    SendNth(q, sub, 0, Slot(0, 0), Ptr(0, 0));
    SendNth(q, sub, 1, Slot(0, 0), Ptr(0, 0));
    q.InCurrentLap(0);
    a := RecvNth(q, sub, 2, Slot(0, 0), Ptr(0, 0), 0);
    q.InCurrentLap(0);
    b := RecvNth(q, sub, 2, Slot(0, 1), Ptr(0, 16), 1);
  }

  method LosesTwo(q: Queue, sub: Subscriber) returns (c: bool, d: RecvResult)
    requires Stage(q, sub, 2, Slot(0, 2), Ptr(0, 32)) && !sub.conflate
    modifies q, q.data, q.readValids, q.readPointers, q.readUids, sub
    ensures Stage(q, sub, 5, Slot(2, 5), Ptr(1, 16))
    ensures !c && d == Message([4])
  {
    hide SlotsOk;
    hide LogOk;
    hide Current;
    hide Found;
    hide TagAt;
    SendNth(q, sub, 2, Slot(0, 2), Ptr(0, 32));
    SendNth(q, sub, 3, Slot(0, 2), Ptr(0, 32));
    c := q.readPointers[0].off != q.writePointer.off;
    SendNth(q, sub, 4, Slot(0, 2), Ptr(0, 32));
    q.AtOldTag(0);
    assert First(q.log, 2) == 4;
    d := RecvNth(q, sub, 5, Slot(0, 2), Ptr(0, 32), 4);
  }
}
