/**
 MSGQ as a step machine: one publisher and any number of subscribers, interleaved at the
 granularity of single loads and stores under sequential consistency. The payload is
 copied one byte at a time on both sides.

 The step functions follow msgq_msg_send, msgq_msg_recv and msgq_reset_reader load by
 load and store by store. `Run` executes an arbitrary schedule of actions.
 */
module MsgqMachine {
  import opened Bytes
  import opened MsgqLayout

  /** Where the publisher is. `at` is its local copy of the write pointer, `nr` of the
      number of readers. */
  datatype WriterPc =
    | WIdle
    | WDead                                             // an assertion in msgq_msg_send failed
    | WNum(m: Msg)                                      // about to load num_readers
    | WPtr(m: Msg, nr: nat)                             // about to load write_pointer
    | WTag(m: Msg, nr: nat, at: Ptr)                    // about to store the wraparound tag
    | WWrapCheck(m: Msg, nr: nat, at: Ptr, i: nat)      // about to load read_pointers[i], then to store write_pointer
    | WWrapClear(m: Msg, nr: nat, at: Ptr, i: nat)      // about to clear read_valids[i]
    | WCheck(m: Msg, nr: nat, at: Ptr, i: nat)          // about to load read_pointers[i], then to store the size
    | WClear(m: Msg, nr: nat, at: Ptr, i: nat)          // about to clear read_valids[i]
    | WCopy(m: Msg, nr: nat, at: Ptr, k: nat)           // about to store payload byte k, then write_pointer

  /** Where a subscriber is. The arguments are its local variables. */
  datatype ReaderPc =
    | RIdle
    | RCrash                                            // an assertion in msgq_msg_recv failed
    | RStart                                            // about to load read_valids[id]
    | RPtr                                              // about to load read_pointers[id]
    | RWrite(rp: Ptr)                                   // about to load write_pointer
    | RSize(rp: Ptr, wp: Ptr)                           // about to load the size
    | RRecheck(rp: Ptr, wp: Ptr, tag: int)              // about to load read_valids[id]
    | RJump(rp: Ptr)                                    // about to store (cycle + 1, 0)
    | RSkip(rp: Ptr, size: nat)                         // conflating: about to store the new read pointer
    | RCopy(rp: Ptr, size: nat, acc: Msg)               // about to load a payload byte, then to store the read pointer
    | RFinal(acc: Msg)                                  // about to load read_valids[id]
    | RResetValid                                       // about to set read_valids[id]
    | RResetLoad                                        // about to load write_pointer
    | RResetStore(wp: Ptr, n: nat)                      // about to store read_pointers[id]

  /** `valid` and `ptr` are the shared header words of the slot, `out` is what msgq_msg_recv
      returned so far. The rest is history. `lap` and `next` are the lap and the index of the
      message at the read pointer. `over` records that the last reset finished, with the reader still
      marked valid, with a write pointer the writer had meanwhile lapped. `doubt` tells of each message
      returned whether it was in such a spell, and `idx` are the indices of those that were not. `mark`
      is how many messages had been returned at the last reset, `base` how many outside a spell, `start`
      the index of the message that came next, and `resets` the number of resets. `lost` records that
      since then the writer has entered a new lap while the reader, marked valid, had not entered the one
      before, or that the reader has followed a tag that stands on the size of its next message. */
  datatype Reader = Reader(pc: ReaderPc, conflate: bool, valid: bool, ptr: Ptr, out: seq<Msg>,
                           lap: nat, next: nat, idx: seq<nat>, base: nat, start: nat, resets: nat,
                           lost: bool, over: bool, doubt: seq<bool>, mark: nat)

  /** `log` is history: the messages published so far. */
  datatype State = State(size: nat, mem: seq<byte>, w: Ptr, writer: WriterPc,
                         readers: seq<Reader>, log: seq<Entry>)

  datatype Action =
    | Send(m: Msg)
    | Writer
    | Subscribe(conflate: bool)
    | Recv(id: nat)
    | Step(id: nat)

  function Init(mem: seq<byte>): State
  {
    State(|mem|, mem, Ptr(0, 0), WIdle, [], [])
  }

  // ---------------------------------------------------------------- publisher

  function StepWriter(s: State): State
  {
    match s.writer
    case WIdle => s
    case WDead => s
    case WNum(m) => s.(writer := WPtr(m, |s.readers|))
    case WPtr(m, nr) =>
      s.(writer := if MustWrap(m, s.w.off, s.size) then WTag(m, nr, s.w) else WCheck(m, nr, s.w, 0))
    case WTag(m, nr, at) =>
      s.(mem := Store64(s.mem, at.off, -1), writer := WWrapCheck(m, nr, at, 0))
    case WWrapCheck(m, nr, at, i) =>
      if i < nr && i < |s.readers| then
        var rp := s.readers[i].ptr;
        s.(writer := if rp.off > at.off && rp.cycle != at.cycle then WWrapClear(m, nr, at, i)
                     else WWrapCheck(m, nr, at, i + 1))
      else
        var at' := Ptr(at.cycle + 1, 0);
        s.(w := at', writer := WCheck(m, nr, at', 0), readers := LeaveBehind(s.readers, at.cycle))
    case WWrapClear(m, nr, at, i) =>
      ClearValid(s, i).(writer := WWrapCheck(m, nr, at, i + 1))
    case WCheck(m, nr, at, i) =>
      if i < nr && i < |s.readers| then
        var rp := s.readers[i].ptr;
        s.(writer := if at.off <= rp.off < Align(at.off + 8 + |m|) && rp.cycle != at.cycle
                     then WClear(m, nr, at, i) else WCheck(m, nr, at, i + 1))
      else
        s.(mem := Store64(s.mem, at.off, |m|), writer := WCopy(m, nr, at, 0))
    case WClear(m, nr, at, i) =>
      ClearValid(s, i).(writer := WCheck(m, nr, at, i + 1))
    case WCopy(m, nr, at, k) =>
      if k < |m| then
        s.(mem := Store8(s.mem, at.off + 8 + k, m[k]), writer := WCopy(m, nr, at, k + 1))
      else
        var end := Align(at.off + |m| + 8);
        s.(w := Ptr(at.cycle, end), writer := WIdle, log := s.log + [Entry(m, at.cycle, at.off, end)])
  }

  /** Records which valid readers are not in the lap that the writer leaves; no header word changes. */
  function LeaveBehind(rs: seq<Reader>, cycle: nat): (rs': seq<Reader>)
    ensures |rs'| == |rs|
    ensures forall i | 0 <= i < |rs| :: rs'[i] == rs[i].(lost := rs[i].lost || (rs[i].valid
            && rs[i].ptr.cycle != cycle))
  {
    seq(|rs|, i requires 0 <= i < |rs| => rs[i].(lost := rs[i].lost || (rs[i].valid && rs[i].ptr.cycle != cycle)))
  }

  function ClearValid(s: State, i: nat): State
  {
    if i < |s.readers| then s.(readers := s.readers[i := s.readers[i].(valid := false)]) else s
  }

  // ---------------------------------------------------------------- subscriber

  function Max(a: nat, b: nat): nat { if a < b then b else a }

  function StepReader(s: State, r: Reader): Reader
  {
    match r.pc
    case RIdle => r
    case RCrash => r
    case RStart => r.(pc := if r.valid then RPtr else RResetValid)
    case RPtr => r.(pc := RWrite(r.ptr))
    case RWrite(rp) => r.(pc := if rp.off == s.w.off then RIdle else RSize(rp, s.w))
    case RSize(rp, wp) => r.(pc := RRecheck(rp, wp, Load64(s.mem, rp.off)))
    case RRecheck(rp, wp, size) =>
      r.(pc := if !r.valid then RResetValid
               else if size == -1 then RJump(rp)
               else if !(0 < size < s.size) then RCrash
               else if r.conflate && Align(rp.off + 8 + size) != wp.off then RSkip(rp, size)
               else RCopy(rp, size, []))
    case RJump(rp) =>
      r.(pc := RStart, ptr := Ptr(rp.cycle + 1, 0),
         lap := s.w.cycle, next := Max(r.next, First(s.log, s.w.cycle)),
         lost := r.lost || AtFrame(s.log, r.lap, r.next, r.ptr.off))
    case RSkip(rp, size) =>
      r.(pc := RStart, ptr := Ptr(rp.cycle, Align(rp.off + 8 + size)), next := r.next + 1)
    case RCopy(rp, size, acc) =>
      if |acc| < size then
        r.(pc := RCopy(rp, size, acc + [Load8(s.mem, rp.off + 8 + |acc|)]))
      else
        r.(pc := RFinal(acc), ptr := Ptr(rp.cycle, Align(rp.off + 8 + size)), next := r.next + 1)
    case RFinal(acc) =>
      if r.valid then
        var k := if r.next == 0 then 0 else r.next - 1;
        r.(pc := RIdle, out := r.out + [acc], doubt := r.doubt + [r.over],
           idx := if r.over then r.idx else r.idx + [k])
      else
        r.(pc := RResetValid)
    case RResetValid => r.(pc := RResetLoad, valid := true)
    case RResetLoad => r.(pc := RResetStore(s.w, |s.log|))
    case RResetStore(wp, n) =>
      r.(pc := RStart, ptr := wp, lap := wp.cycle, next := n, base := |r.idx|, start := n,
         resets := r.resets + 1, lost := false, over := Overruns(s, r), mark := |r.out|)
  }

  /** How far the writer, in its present lap, may already have overwritten the buffer. */
  function WriteEnd(s: State): nat
  {
    match s.writer
    case WCheck(m, _, at, _) => Align(at.off + 8 + |m|)
    case WClear(m, _, at, _) => Align(at.off + 8 + |m|)
    case WCopy(m, _, at, _) => Align(at.off + 8 + |m|)
    case _ => s.w.off
  }

  /** A write pointer loaded earlier that the writer has not lapped since. */
  predicate Fresh(s: State, wp: Ptr)
  {
    wp.cycle == s.w.cycle || (wp.cycle + 1 == s.w.cycle && WriteEnd(s) <= wp.off)
  }

  predicate Overruns(s: State, r: Reader)
  {
    r.pc.RResetStore? && r.valid && !Fresh(s, r.pc.wp)
  }

  function NewReader(conflate: bool): Reader
  {
    Reader(RResetValid, conflate, false, Ptr(0, 0), [], 0, 0, [], 0, 0, 0, false, false, [], 0)
  }

  // ---------------------------------------------------------------- schedules

  /** An action that is not enabled changes nothing. */
  function Do(s: State, a: Action): State
  {
    match a
    case Send(m) =>
      if s.writer.WIdle? then s.(writer := if Fits(m, s.size) then WNum(m) else WDead) else s
    case Writer => StepWriter(s)
    case Subscribe(conflate) =>
      if |s.readers| < NUM_READERS then s.(readers := s.readers + [NewReader(conflate)]) else s
    case Recv(id) =>
      if id < |s.readers| && s.readers[id].pc.RIdle?
      then s.(readers := s.readers[id := s.readers[id].(pc := RStart)]) else s
    case Step(id) =>
      if id < |s.readers| then s.(readers := s.readers[id := StepReader(s, s.readers[id])]) else s
  }

  function Run(s: State, acts: seq<Action>): State
    decreases |acts|
  {
    if acts == [] then s else Run(Do(s, acts[0]), acts[1..])
  }

  lemma {:induction false} RunConcat(s: State, x: seq<Action>, y: seq<Action>)
    ensures Run(s, x + y) == Run(Run(s, x), y)
    decreases |x|
  {
    if x == [] {
      assert x + y == y;
    } else {
      assert (x + y)[1..] == x[1..] + y;
      RunConcat(Do(s, x[0]), x[1..], y);
    }
  }
}
