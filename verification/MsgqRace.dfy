/**
 Why the safety theorem of MsgqSafety excepts spells: the reset of a reader is two steps,
 and a publisher that laps the reader between them tears its next message.
 */
module MsgqRace {
  import opened Bytes
  import opened MsgqLayout
  import opened MsgqMachine
  import opened MsgqSafety

  /** Some schedule leads from s to t. */
  ghost predicate Reaches(s: State, t: State)
  {
    exists acts :: Run(s, acts) == t
  }

  lemma Then(s: State, t: State, u: State)
    requires Reaches(s, t) && Reaches(t, u)
    ensures Reaches(s, u)
  {
    var x :| Run(s, x) == t;
    var y :| Run(t, y) == u;
    RunConcat(s, x, y);
  }

  lemma One(s: State, a: Action)
    ensures Reaches(s, Do(s, a))
  {
    assert Run(s, [a]) == Run(Do(s, a), [a][1..]) == Do(s, a);
  }

  lemma ThenOne(s: State, t: State, a: Action)
    requires Reaches(s, t)
    ensures Reaches(s, Do(t, a))
  {
    One(t, a);
    Then(s, t, Do(t, a));
  }

  // ---------------------------------------------------------------- whole sends

  /** The memory once the payload of m is in place from p on. */
  function WithPayload(mem: seq<byte>, p: nat, m: Msg): (r: seq<byte>)
    requires p + |m| <= |mem|
    ensures |r| == |mem|
  {
    mem[..p] + m + mem[p + |m|..]
  }

  lemma AllCopied(mem: seq<byte>, p: nat, m: Msg)
    requires p + |m| <= |mem| && mem[p..p + |m|] == m
    ensures WithPayload(mem, p, m) == mem
  {
  }

  lemma OneCopied(mem: seq<byte>, p: nat, m: Msg, k: nat)
    requires p + |m| <= |mem| && k < |m| && mem[p..p + k] == m[..k]
    ensures var t := Store8(mem, p + k, m[k]);
            t[p..p + (k + 1)] == m[..k + 1] && WithPayload(t, p, m) == WithPayload(mem, p, m)
  {
    var t := Store8(mem, p + k, m[k]);
    assert t[..p] == mem[..p] && t[p + |m|..] == mem[p + |m|..];
    assert t[p..p + (k + 1)] == mem[p..p + k] + [m[k]];
    assert m[..k + 1] == m[..k] + [m[k]];
  }

  /** The state once message m is published at `at`. */
  function Published(s: State, m: Msg, at: Ptr): State
    requires at.off + 8 + |m| <= |s.mem|
  {
    var end := Align(at.off + |m| + 8);
    s.(mem := WithPayload(s.mem, at.off + 8, m), w := Ptr(at.cycle, end), writer := WIdle,
       log := s.log + [Entry(m, at.cycle, at.off, end)])
  }

  /** The copy, byte by byte, and the new write pointer. */
  lemma {:induction false} CopyRuns(s: State, m: Msg, nr: nat, at: Ptr, k: nat)
    requires k <= |m| && at.off + 8 + |m| <= |s.mem| && s.writer == WCopy(m, nr, at, k)
    requires s.mem[at.off + 8..at.off + 8 + k] == m[..k]
    ensures Reaches(s, Published(s, m, at))
    decreases |m| - k
  {
    hide Run;
    hide WithPayload;
    One(s, Writer);
    var t := StepWriter(s);
    if k == |m| {
      AllCopied(s.mem, at.off + 8, m);
    } else {
      OneCopied(s.mem, at.off + 8, m, k);
      CopyRuns(t, m, nr, at, k + 1);
      Then(s, t, Published(s, m, at));
    }
  }

  /** The rest of a send that has passed all readers: the size, the payload, the write pointer. */
  lemma FrameRuns(s: State, m: Msg, nr: nat, at: Ptr, i: nat)
    requires i >= nr && at.off + 8 + |m| <= |s.mem| && s.writer == WCheck(m, nr, at, i)
    ensures Reaches(s, Published(s.(mem := Store64(s.mem, at.off, |m|)), m, at))
  {
    hide Run;
    hide Store64;
    One(s, Writer);
    var t := StepWriter(s);
    CopyRuns(t, m, nr, at, 0);
    Then(s, t, Published(t, m, at));
  }

  /** A send with nobody subscribed that does not wrap. */
  lemma SendRuns(s: State, m: Msg)
    requires s.writer == WIdle && s.readers == [] && Fits(m, s.size) && !MustWrap(m, s.w.off, s.size)
    requires s.w.off + 8 + |m| <= |s.mem|
    ensures Reaches(s, Published(s.(mem := Store64(s.mem, s.w.off, |m|)), m, s.w))
  {
    hide Run;
    hide Store64;
    hide Published;
    One(s, Send(m));
    var t := s.(writer := WNum(m));
    ThenOne(s, t, Writer);
    var u := s.(writer := WPtr(m, 0));
    ThenOne(s, u, Writer);
    var v := s.(writer := WCheck(m, 0, s.w, 0));
    FrameRuns(v, m, 0, s.w, 0);
    var x := Published(v.(mem := Store64(s.mem, s.w.off, |m|)), m, s.w);
    Then(s, v, x);
    PublishedForgets(s.(mem := Store64(s.mem, s.w.off, |m|)), m, s.w, WCheck(m, 0, s.w, 0));
  }

  lemma PublishedForgets(s: State, m: Msg, at: Ptr, w: WriterPc)
    requires at.off + 8 + |m| <= |s.mem|
    ensures Published(s.(writer := w), m, at) == Published(s, m, at)
  {
  }

  // ---------------------------------------------------------------- a reset that is lapped

  function Zeros(n: nat): (m: Msg)
    ensures |m| == n
  {
    seq(n, _ => 0)
  }

  /** Read at the right place, this message looks like a frame of size 1. */
  function Lookalike(): (m: Msg)
    ensures |m| == 16
  {
    Zeros(8) + EncodeInt64(1)
  }

  /** A subscriber that has marked itself valid and loaded this write pointer, but not stored it. */
  function Resetting(wp: Ptr, n: nat): Reader
  {
    Reader(RResetStore(wp, n), false, true, Ptr(0, 0), [], 0, 0, [], 0, 0, 0, false, false, [], 0)
  }

  lemma TwoSends(s: State) returns (t: State)
    requires |s.mem| == s.size == 72 && s.readers == [] && s.writer == WIdle && s.w == Ptr(0, 0) && s.log == []
    ensures Reaches(s, t) && |t.mem| == t.size == 72 && t.readers == []
    ensures t.writer == WIdle && t.w == Ptr(0, 40) && |t.log| == 2 && LongMessages(t.log)
  {
    hide Reaches;
    hide Store64;
    hide WithPayload;
    hide Align;
    assert Align(24) == 24 && Align(16) == 16 && Align(40) == 40;
    SendRuns(s, Zeros(16));
    var a := Published(s.(mem := Store64(s.mem, 0, 16)), Zeros(16), s.w);
    SendRuns(a, Zeros(8));
    t := Published(a.(mem := Store64(a.mem, 24, 8)), Zeros(8), a.w);
    Then(s, a, t);
  }

  predicate LongMessages(log: seq<Entry>)
  {
    forall i | 0 <= i < |log| :: |log[i].msg| >= 8
  }

  /** The next send is about to wrap. The subscriber came after the publisher had counted the readers. */
  lemma LoadsOldPointer(s: State, b: State)
    requires Reaches(s, b) && b.readers == [] && b.writer == WIdle && b.w == Ptr(0, 40) && |b.log| == 2 && b.size == 72
    ensures Reaches(s, b.(writer := WPtr(Zeros(16), 0), readers := [Resetting(Ptr(0, 40), 2)]))
  {
    hide Reaches;
    hide Zeros;
    hide Align;
    assert Align(24) == 24;
    ThenOne(s, b, Send(Zeros(16)));
    var c := b.(writer := WNum(Zeros(16)));
    ThenOne(s, c, Writer);
    var d := b.(writer := WPtr(Zeros(16), 0));
    ThenOne(s, d, Subscribe(false));
    var r := NewReader(false);
    var e := d.(readers := [r]);
    assert Do(d, Subscribe(false)) == e;
    ThenOne(s, e, Step(0));
    var f := d.(readers := [r.(pc := RResetLoad, valid := true)]);
    assert Do(e, Step(0)) == f;
    ThenOne(s, f, Step(0));
    assert Do(f, Step(0)).readers == [Resetting(Ptr(0, 40), 2)];
  }

  /** That send wraps, without a look at the subscriber. */
  lemma Wraps(s: State, b: State) returns (t: State)
    requires Reaches(s, b) && b.readers == [Resetting(Ptr(0, 40), 2)]
    requires b.writer == WPtr(Zeros(16), 0) && b.w == Ptr(0, 40)
    requires |b.mem| == b.size == 72
    ensures Reaches(s, t) && |t.mem| == 72
    ensures t.writer == WIdle && t.w == Ptr(1, 24) && |t.log| == |b.log| + 1 && t.log[..|b.log|] == b.log
            && |t.log[|b.log|].msg| == 16
    ensures t == b.(mem := t.mem, w := t.w, writer := t.writer, log := t.log)
  {
    hide Reaches;
    hide Zeros;
    hide Store64;
    hide WithPayload;
    hide Align;
    assert Align(24) == 24;
    var m, at := Zeros(16), Ptr(1, 0);
    ThenOne(s, b, Writer);
    var c := b.(writer := WTag(m, 0, b.w));
    ThenOne(s, c, Writer);
    var d := b.(mem := Store64(b.mem, 40, -1), writer := WWrapCheck(m, 0, b.w, 0));
    assert Do(c, Writer) == d;
    ThenOne(s, d, Writer);
    var e := d.(w := at, writer := WCheck(m, 0, at, 0));
    FrameRuns(e, m, 0, at, 0);
    t := Published(e.(mem := Store64(e.mem, 0, 16)), m, at);
    Then(s, e, t);
  }

  /** The message after that covers the place where the subscriber still points to. The publisher
      does look at it, but its slot still holds offset 0. */
  lemma Covers(s: State, b: State) returns (t: State)
    requires Reaches(s, b) && b.readers == [Resetting(Ptr(0, 40), 2)] && b.writer == WIdle && b.w == Ptr(1, 24)
    requires |b.mem| == b.size == 72
    ensures Reaches(s, t) && |t.mem| == 72 && Load64(t.mem, 40) == 1
    ensures t.writer == WIdle && t.w == Ptr(1, 48) && |t.log| == |b.log| + 1 && t.log[..|b.log|] == b.log
            && |t.log[|b.log|].msg| == 16
    ensures t == b.(mem := t.mem, w := t.w, writer := t.writer, log := t.log)
  {
    hide Reaches;
    hide Lookalike;
    hide Store64;
    hide WithPayload;
    hide Align;
    hide Load64;
    assert Align(24) == 24 && Align(48) == 48;
    var m, at := Lookalike(), Ptr(1, 24);
    ThenOne(s, b, Send(m));
    var c := b.(writer := WNum(m));
    ThenOne(s, c, Writer);
    var d := b.(writer := WPtr(m, 1));
    ThenOne(s, d, Writer);
    var e := b.(writer := WCheck(m, 1, at, 0));
    ThenOne(s, e, Writer);
    var f := b.(writer := WCheck(m, 1, at, 1));
    FrameRuns(f, m, 1, at, 1);
    t := Published(f.(mem := Store64(f.mem, 24, 16)), m, at);
    Then(s, f, t);
    LookalikeLoads(Store64(f.mem, 24, 16));
  }

  lemma LookalikeLoads(mem: seq<byte>)
    requires |mem| == 72
    ensures Load64(WithPayload(mem, 32, Lookalike()), 40) == 1
  {
    var t := WithPayload(mem, 32, Lookalike());
    Int64RoundTrip(1);
    assert t[40..48] == Lookalike()[8..16] == EncodeInt64(1);
  }

  /** What the subscriber looks like once it has stored the old pointer. */
  function Stale(pc: ReaderPc): Reader
  {
    Reader(pc, false, true, Ptr(0, 40), [], 0, 2, [], 0, 2, 1, false, true, [], 0)
  }

  /** The subscriber stores the old pointer and reads a size there. */
  lemma ReadsSize(s: State, b: State)
    requires Reaches(s, b) && b.readers == [Resetting(Ptr(0, 40), 2)] && b.writer == WIdle && b.w == Ptr(1, 48)
    requires Load64(b.mem, 40) == 1
    ensures Reaches(s, b.(readers := [Stale(RRecheck(Ptr(0, 40), b.w, 1))]))
  {
    hide Reaches;
    hide Load64;
    hide Align;
    ThenOne(s, b, Step(0));
    var c := b.(readers := [Stale(RStart)]);
    assert Do(b, Step(0)) == c;
    ThenOne(s, c, Step(0));
    var d := c.(readers := [Stale(RPtr)]);
    assert Do(c, Step(0)) == d;
    ThenOne(s, d, Step(0));
    var e := c.(readers := [Stale(RWrite(Ptr(0, 40)))]);
    assert Do(d, Step(0)) == e;
    ThenOne(s, e, Step(0));
    var f := c.(readers := [Stale(RSize(Ptr(0, 40), b.w))]);
    assert Do(e, Step(0)) == f;
    ThenOne(s, f, Step(0));
    assert Do(f, Step(0)).readers == [Stale(RRecheck(Ptr(0, 40), b.w, 1))];
  }

  /** It receives one byte of a frame that never was. */
  lemma Receives(s: State, c: State) returns (t: State)
    requires Reaches(s, c) && c.readers == [Stale(RRecheck(Ptr(0, 40), c.w, 1))] && c.size == 72
    ensures Reaches(s, t) && t.log == c.log && |t.readers| == 1 && t.readers[0].valid && t.readers[0].over
    ensures |t.readers[0].out| == 1 && |t.readers[0].out[0]| == 1
  {
    hide Reaches;
    hide Load8;
    hide Align;
    assert Align(49) == 56;
    ThenOne(s, c, Step(0));
    var q := Stale(RIdle);
    var h := c.(readers := [q.(pc := RCopy(Ptr(0, 40), 1, []))]);
    assert Do(c, Step(0)) == h;
    ThenOne(s, h, Step(0));
    var acc: Msg := [Load8(c.mem, 48)];
    assert [] + acc == acc;
    var i := c.(readers := [q.(pc := RCopy(Ptr(0, 40), 1, acc))]);
    assert Do(h, Step(0)) == i;
    ThenOne(s, i, Step(0));
    var j := c.(readers := [q.(pc := RFinal(acc), ptr := Ptr(0, 56), next := 3)]);
    assert Do(i, Step(0)) == j;
    ThenOne(s, j, Step(0));
    t := Do(j, Step(0));
  }

  /** Without the exception the safety theorem is false of the code: in some run of four sends and
      one subscriber that stays marked valid, the subscriber receives a message that was never sent. */
  lemma LappedResetTears(mem: seq<byte>)
    requires |mem| == 72
    ensures exists acts :: var s := Run(Init(mem), acts);
              LongMessages(s.log) && |s.readers| == 1 && s.readers[0].valid && s.readers[0].over
                  && !Faithful(s.readers[0].out, s.log)
  {
    hide Run;
    hide Zeros;
    var s := Init(mem);
    var a := TwoSends(s);
    LoadsOldPointer(s, a);
    var b := a.(writer := WPtr(Zeros(16), 0), readers := [Resetting(Ptr(0, 40), 2)]);
    var c := Wraps(s, b);
    var d := Covers(s, c);
    ReadsSize(s, d);
    var t := Receives(s, d.(readers := [Stale(RRecheck(Ptr(0, 40), d.w, 1))]));
    assert LongMessages(t.log);
    if Faithful(t.readers[0].out, t.log) {
      NotFaithful(t.readers[0].out, t.log);
    }
    var acts :| Run(s, acts) == t;
  }

  lemma NotFaithful(out: seq<Msg>, log: seq<Entry>)
    requires LongMessages(log) && |out| == 1 && |out[0]| == 1
    ensures !Faithful(out, log)
  {
  }
}
