/**
 The CAN stream end to end: what Panda.can_send_many packs arrives at the device whatever
 the transfers are, and what the device queues arrives at Panda.can_recv.
 */
module CanEndToEnd {
  import opened Bytes
  import opened CanWire
  import opened CanComms
  import opened PandaHost

  datatype RecvResult = Received(msgs: seq<CanMsg>) | AssertionError

  /** The part of class Panda that receiving needs. */
  class Panda {
    var rxOverflow: seq<byte>

    constructor ()
      ensures rxOverflow == []
    {
      rxOverflow := [];
    }

    /** can_recv, given the bytes of one bulk read. */
    method CanRecv(dat: seq<byte>) returns (r: RecvResult)
      modifies this
      ensures match Unpack(old(rxOverflow) + dat)
              case Unpacked(msgs, rest) => r == Received(msgs) && rxOverflow == rest
              case ChecksumIncorrect => r == AssertionError && rxOverflow == old(rxOverflow)
    {
      var u := UnpackCanBuffer(rxOverflow + dat);
      match u
      case Unpacked(msgs, rest) =>
        rxOverflow := rest;
        return Received(msgs);
      case ChecksumIncorrect =>
        return AssertionError;
    }
  }

  // ---------------------------------------------------------------- host to device

  predicate Deliverable(m: CanMsg) { HasDlc(|m.dat|) && m.address < 0x2000_0000 && m.bus < 8 }

  /** What the device has made of the bytes it was sent so far. */
  ghost predicate Arrived(x: seq<byte>, sent0: seq<Packet>, sent: seq<Packet>, carry: seq<byte>)
  {
    sent == sent0 + Parse(x).0 && carry == Parse(x).1
  }

  lemma ArrivedMore(x: seq<byte>, y: seq<byte>, sent0: seq<Packet>, sent1: seq<Packet>, carry1: seq<byte>)
    requires Arrived(x, sent0, sent1, carry1)
    ensures var r := Parse(carry1 + y); Arrived(x + y, sent0, sent1 + r.0, r.1)
  {
    ParseConcat(x, y);
    Assoc(sent0, Parse(x).0, Parse(carry1 + y).0);
  }

  method ToArray(s: seq<byte>) returns (a: array<byte>)
    ensures fresh(a) && a[..] == s && a.Length == |s|
  {
    a := new byte[|s|](i requires 0 <= i < |s| => s[i]);
  }

  /** One bulk write. */
  method SendChunk(comms: Comms, chunk: seq<byte>, addr: nat, ghost x: seq<byte>, ghost sent0: seq<Packet>)
    requires comms.Valid() && Arrived(x, sent0, comms.sent, comms.WriteCarry())
    modifies comms`sent, comms.writeBuffer, comms.writeBuffer.data
    ensures comms.Valid() && Arrived(x + chunk, sent0, comms.sent, comms.WriteCarry())
  {
    hide Arrived;
    hide Parse;
    var data := ToArray(chunk);
    assert data[..|chunk|] == chunk;
    ArrivedMore(x, chunk, sent0, comms.sent, comms.WriteCarry());
    comms.CommsCanWrite(data, addr, |chunk|);
  }

  /** The loop over one buffer in can_send_many: each bulk write takes as many bytes as it likes. */
  method SendBuffer(comms: Comms, tx0: seq<byte>, addr: nat, ghost x: seq<byte>, ghost sent0: seq<Packet>)
    requires comms.Valid() && Arrived(x, sent0, comms.sent, comms.WriteCarry())
    modifies comms`sent, comms.writeBuffer, comms.writeBuffer.data
    ensures comms.Valid() && Arrived(x + tx0, sent0, comms.sent, comms.WriteCarry())
  {
    hide Arrived;
    hide Parse;
    var tx := tx0;
    ghost var z := x;
    while tx != []
      invariant comms.Valid() && z + tx == x + tx0
      invariant Arrived(z, sent0, comms.sent, comms.WriteCarry())
      decreases |tx|
    {
      var bs: nat :| 0 < bs <= |tx|;
      SendChunk(comms, tx[..bs], addr, z, sent0);
      assert tx == tx[..bs] + tx[bs..];
      z := z + tx[..bs];
      tx := tx[bs..];
    }
    assert z + [] == z;
  }

  /** can_send_many: a device that starts without leftovers gets exactly the packets of the
      messages, in order, and is left without leftovers. */
  method CanSendMany(comms: Comms, arr: seq<CanMsg>, chunk: bool, fd: bool, addr: nat) returns (r: PackResult)
    requires comms.Valid() && comms.WriteCarry() == []
    modifies comms`sent, comms.writeBuffer, comms.writeBuffer.data
    ensures comms.Valid()
    ensures !r.Packed? ==> comms.sent == old(comms.sent) && comms.WriteCarry() == []
    ensures (forall k | 0 <= k < |arr| :: Deliverable(arr[k])) ==>
              && r.Packed? && comms.sent == old(comms.sent) + Encodes(arr, fd) && comms.WriteCarry() == []
              && forall k | 0 <= k < |arr| :: OnWire(arr[k], fd, Encodes(arr, fd)[k])
  {
    hide Encode;
    hide Parse;
    hide OnWire;
    ghost var sent0 := comms.sent;
    r := PackCanBuffer(arr, chunk, fd);
    if r.Packed? {
      ParseIncomplete([]);
      FlattenEmpty();
      assert sent0 + [] == sent0;
      for i := 0 to |r.snds|
        invariant comms.Valid() && Arrived(Flatten(r.snds[..i]), sent0, comms.sent, comms.WriteCarry())
      {
        SendBuffer(comms, r.snds[i], addr, Flatten(r.snds[..i]), sent0);
        FlattenSnoc(r.snds, i);
      }
      assert r.snds[..|r.snds|] == r.snds;
      if forall k | 0 <= k < |arr| :: Deliverable(arr[k]) {
        AllDelivered(arr, fd);
      }
    }
  }

  lemma AllDelivered(arr: seq<CanMsg>, fd: bool)
    requires forall k | 0 <= k < |arr| :: Deliverable(arr[k])
    ensures forall k | 0 <= k < |arr| :: Packable(arr[k])
    ensures Parse(Flatten(Encodes(arr, fd))) == (Encodes(arr, fd), [])
  {
    hide Encode;
    var es := Encodes(arr, fd);
    forall k | 0 <= k < |es|
      ensures WellSized(es[k])
    {
      Delivers(arr[k], fd);
    }
    ParseFlatten(es, []);
    assert Flatten(es) + [] == Flatten(es);
  }

  // ---------------------------------------------------------------- device to host

  /** The host has unpacked everything it was sent so far. */
  ghost predicate Unpacks(x: seq<byte>, msgs: seq<CanMsg>, overflow: seq<byte>)
  {
    msgs == Decodes(Parse(x).0) && overflow == Parse(x).1
  }

  /** One more transfer, of a stream all of whose packets are sound. */
  lemma UnpacksMore(x: seq<byte>, y: seq<byte>, z: seq<byte>, queue: seq<Packet>, msgs: seq<CanMsg>,
                    overflow: seq<byte>)
    requires Unpacks(x, msgs, overflow) && Sound(queue)
    requires forall k | 0 <= k < |queue| :: WellSized(queue[k])
    requires (x + y) + z == Flatten(queue)
    ensures var u := Unpack(overflow + y);
            u.Unpacked? && Unpacks(x + y, msgs + u.msgs, u.rest)
  {
    hide Parse;
    hide Decode;
    hide Checksum;
    hide WellSized;
    hide Sound;
    ParseConcat(x, y);
    var a, b := Parse(x), Parse(overflow + y);
    PrefixOfQueue(x + y, z, queue);
    SoundPart(a.0, b.0, queue);
    DecodesConcat(a.0, b.0);
  }

  lemma DecodesConcat(a: seq<Packet>, b: seq<Packet>)
    requires forall k | 0 <= k < |a| :: WellSized(a[k])
    requires forall k | 0 <= k < |b| :: WellSized(b[k])
    ensures forall k | 0 <= k < |a + b| :: WellSized((a + b)[k])
    ensures Decodes(a + b) == Decodes(a) + Decodes(b)
  {
    hide Decode;
    hide WellSized;
  }

  lemma SoundPart(a: seq<Packet>, b: seq<Packet>, queue: seq<Packet>)
    requires a + b <= queue && Sound(queue)
    ensures Sound(b)
  {
    hide Checksum;
    forall k | 0 <= k < |b|
      ensures Checksum(b[k]) == 0
    {
      assert b[k] == (a + b)[|a| + k] == queue[|a| + k];
    }
  }

  /** The front of a stream of packets parses to the first of them. */
  lemma PrefixOfQueue(x: seq<byte>, z: seq<byte>, queue: seq<Packet>)
    requires forall k | 0 <= k < |queue| :: WellSized(queue[k])
    requires x + z == Flatten(queue)
    ensures Parse(x).0 <= queue && (z == [] ==> Parse(x) == (queue, []))
  {
    hide Parse;
    ParsePrefix(x, z);
    ParseFlatten(queue, []);
    assert Flatten(queue) + [] == Flatten(queue);
    assert z == [] ==> x + z == x;
  }

  /** The packets of all arrivals, in order. */
  function Together(arrivals: seq<seq<Packet>>): seq<Packet>
  {
    if arrivals == [] then [] else Together(arrivals[..|arrivals| - 1]) + arrivals[|arrivals| - 1]
  }

  function Sum(ns: seq<nat>): nat
  {
    if ns == [] then 0 else Sum(ns[..|ns| - 1]) + ns[|ns| - 1]
  }

  /** The bytes the device still holds, of `held` at first, when in every round packets arrive and then
      as many bytes as there are, up to the number asked for, are read. */
  function Backlog(held: nat, arrivals: seq<seq<Packet>>, maxLens: seq<nat>): nat
    requires |arrivals| == |maxLens|
  {
    if maxLens == [] then held else
      var n := |maxLens| - 1;
      LeftOver(Backlog(held, arrivals[..n], maxLens[..n]) + |Flatten(arrivals[n])|, maxLens[n])
  }

  function LeftOver(held: nat, maxLen: nat): nat { if held <= maxLen then 0 else held - maxLen }

  /** Every final stretch of the rounds, and all of them with what was there at first, asks for as many
      bytes as it adds, but for c. */
  ghost predicate KeepsUp(held: nat, arrivals: seq<seq<Packet>>, maxLens: seq<nat>, c: nat)
    requires |arrivals| == |maxLens|
  {
    && held + |Flatten(Together(arrivals))| <= Sum(maxLens) + c
    && forall j | 0 <= j < |maxLens| :: Covered(arrivals[j..], maxLens[j..], c)
  }

  ghost predicate Covered(arrivals: seq<seq<Packet>>, maxLens: seq<nat>, c: nat)
  {
    |Flatten(Together(arrivals))| <= Sum(maxLens) + c
  }

  lemma TogetherLast(arrivals: seq<seq<Packet>>, maxLens: seq<nat>)
    requires |arrivals| == |maxLens| > 0
    ensures var n := |maxLens| - 1;
            && |Flatten(Together(arrivals))| == |Flatten(Together(arrivals[..n]))| + |Flatten(arrivals[n])|
            && Sum(maxLens) == Sum(maxLens[..n]) + maxLens[n]
  {
    hide Flatten;
    var n := |maxLens| - 1;
    FlattenConcat(Together(arrivals[..n]), arrivals[n]);
  }

  /** When the device is down to c bytes, which for c = 0 is when it has nothing left. */
  lemma {:induction false} BacklogIff(held: nat, arrivals: seq<seq<Packet>>, maxLens: seq<nat>, c: nat)
    requires |arrivals| == |maxLens|
    ensures Backlog(held, arrivals, maxLens) <= c <==> KeepsUp(held, arrivals, maxLens, c)
  {
    hide Flatten;
    if maxLens == [] {
      assert Flatten([]) == [] by { FlattenEmpty(); }
    } else {
      var n := |maxLens| - 1;
      var c' := c + maxLens[n] - |Flatten(arrivals[n])|;
      TogetherLast(arrivals, maxLens);
      forall j | 0 <= j <= n
        ensures |Flatten(Together(arrivals[j..]))| == |Flatten(Together(arrivals[j..n]))| + |Flatten(arrivals[n])|
        ensures Sum(maxLens[j..]) == Sum(maxLens[j..n]) + maxLens[n]
      {
        assert arrivals[j..][..n - j] == arrivals[j..n] && maxLens[j..][..n - j] == maxLens[j..n];
        TogetherLast(arrivals[j..], maxLens[j..]);
      }
      assert Flatten([]) == [] by { FlattenEmpty(); }
      assert Covered(arrivals[n..], maxLens[n..], c) <==> c' >= 0;
      if c' >= 0 {
        BacklogIff(held, arrivals[..n], maxLens[..n], c');
        forall j | 0 <= j < n
          ensures Covered(arrivals[j..], maxLens[j..], c) <==> Covered(arrivals[..n][j..], maxLens[..n][j..], c')
        {
          assert arrivals[..n][j..] == arrivals[j..n] && maxLens[..n][j..] == maxLens[j..n];
        }
      }
    }
  }

  /** Nothing is left unless bytes are. */
  lemma NothingLeft(left: seq<byte>, rest: seq<Packet>)
    requires forall k | 0 <= k < |rest| :: WellSized(rest[k])
    ensures |left| + |Flatten(rest)| == 0 <==> left == [] && rest == []
  {
    if rest != [] {
      assert WellSized(rest[0]) && |Flatten(rest)| >= |rest[0]|;
    }
  }

  /** Packets arrive, and one bulk read follows. */
  method ArriveAndRead(comms: Comms, arrived: seq<Packet>, maxLen: nat, addr: nat)
    returns (dat: seq<byte>, ghost k: nat)
    requires comms.Valid()
    requires forall i | 0 <= i < |arrived| :: WellSized(arrived[i])
    modifies comms`rxQueue, comms.readBuffer, comms.readBuffer.data
    ensures comms.Valid() && |dat| <= maxLen
    ensures var queue := old(comms.rxQueue) + arrived;
            && k <= |queue| && comms.rxQueue == queue[k..]
            && dat + comms.ReadCarry() == old(comms.ReadCarry()) + Flatten(queue[..k])
    ensures |dat| < maxLen ==> comms.ReadCarry() == [] && comms.rxQueue == []
  {
    hide Flatten;
    hide WellSized;
    comms.rxQueue := comms.rxQueue + arrived;
    var data := new byte[maxLen];
    var pos;
    pos, k := comms.CommsCanRead(data, addr, maxLen);
    dat := data[..pos];
  }

  /** Bulk reads of any sizes, each followed by can_recv, while packets arrive at the device before each
      of them: no checksum assertion ever fires, the messages received are those of the first packets,
      and once the device has nothing left, they are all of them; how much it has left is exact. */
  method Drain(comms: Comms, panda: Panda, arrivals: seq<seq<Packet>>, maxLens: seq<nat>, addr: nat)
    returns (msgs: seq<CanMsg>, ok: bool)
    requires comms.Valid() && comms.ReadCarry() == [] && panda.rxOverflow == []
    requires |arrivals| == |maxLens|
    requires forall i, k | 0 <= i < |arrivals| && 0 <= k < |arrivals[i]| :: WellSized(arrivals[i][k])
    requires Sound(comms.rxQueue + Together(arrivals))
    modifies comms`rxQueue, comms.readBuffer, comms.readBuffer.data, panda
    ensures comms.Valid() && ok
    ensures var queue := old(comms.rxQueue) + Together(arrivals);
            && (forall k | 0 <= k < |queue| :: WellSized(queue[k]))
            && msgs <= Decodes(queue)
            && (comms.rxQueue == [] && comms.ReadCarry() == [] ==> msgs == Decodes(queue) && panda.rxOverflow == [])
    ensures |comms.ReadCarry()| + |Flatten(comms.rxQueue)|
         == Backlog(|Flatten(old(comms.rxQueue))|, arrivals, maxLens)
    ensures comms.rxQueue == [] && comms.ReadCarry() == [] <==>
            KeepsUp(|Flatten(old(comms.rxQueue))|, arrivals, maxLens, 0)
  {
    hide Parse;
    hide Decode;
    hide Checksum;
    hide Flatten;
    hide Sound;
    hide KeepsUp;
    hide WellSized;
    ghost var queue0 := comms.rxQueue;
    ghost var held := |Flatten(queue0)|;
    ghost var x: seq<byte> := [];
    msgs := [];
    ok := true;
    StartEmpty(queue0);
    for i := 0 to |maxLens|
      invariant comms.Valid() && ok
      invariant Stream(x, comms.ReadCarry(), comms.rxQueue, queue0 + Together(arrivals[..i]))
      invariant Unpacks(x, msgs, panda.rxOverflow)
      invariant |comms.ReadCarry()| + |Flatten(comms.rxQueue)| == Backlog(held, arrivals[..i], maxLens[..i])
    {
      ghost var carry, had := comms.ReadCarry(), comms.rxQueue;
      var dat, k := ArriveAndRead(comms, arrivals[i], maxLens[i], addr);
      Round(x, dat, comms.ReadCarry(), carry, had, k, queue0, arrivals, maxLens, i, msgs, panda.rxOverflow);
      var r := panda.CanRecv(dat);
      x := x + dat;
      match r
      case Received(ms) =>
        msgs := msgs + ms;
      case AssertionError =>
        ok := false;
    }
    assert arrivals[..|maxLens|] == arrivals && maxLens[..|maxLens|] == maxLens;
    AtTheEnd(x, comms.ReadCarry(), comms.rxQueue, queue0 + Together(arrivals), msgs, panda.rxOverflow);
    BacklogIff(held, arrivals, maxLens, 0);
    NothingLeft(comms.ReadCarry(), comms.rxQueue);
  }

  /** The bytes the host has had, and those the device holds, are those of all packets so far. */
  ghost predicate Stream(x: seq<byte>, left: seq<byte>, rest: seq<Packet>, queue: seq<Packet>)
  {
    && (x + left) + Flatten(rest) == Flatten(queue)
    && (forall k | 0 <= k < |queue| :: WellSized(queue[k]))
  }

  lemma Round(x: seq<byte>, y: seq<byte>, left: seq<byte>, carry: seq<byte>, had: seq<Packet>, k: nat,
              queue0: seq<Packet>, arrivals: seq<seq<Packet>>, maxLens: seq<nat>, i: nat, msgs: seq<CanMsg>,
              overflow: seq<byte>)
    requires i < |arrivals| == |maxLens| && |y| <= maxLens[i]
    requires forall k | 0 <= k < |arrivals[i]| :: WellSized(arrivals[i][k])
    requires Sound(queue0 + Together(arrivals))
    requires Stream(x, carry, had, queue0 + Together(arrivals[..i])) && Unpacks(x, msgs, overflow)
    requires k <= |had + arrivals[i]| && y + left == carry + Flatten((had + arrivals[i])[..k])
    requires |y| < maxLens[i] ==> left == [] && (had + arrivals[i])[k..] == []
    requires |carry| + |Flatten(had)| == Backlog(|Flatten(queue0)|, arrivals[..i], maxLens[..i])
    ensures Stream(x + y, left, (had + arrivals[i])[k..], queue0 + Together(arrivals[..i + 1]))
    ensures var u := Unpack(overflow + y); u.Unpacked? && Unpacks(x + y, msgs + u.msgs, u.rest)
    ensures |left| + |Flatten((had + arrivals[i])[k..])|
         == Backlog(|Flatten(queue0)|, arrivals[..i + 1], maxLens[..i + 1])
  {
    hide Parse;
    hide Decode;
    hide Checksum;
    hide Flatten;
    hide Sound;
    hide WellSized;
    hide Unpacks;
    var a, b := Together(arrivals[..i]), arrivals[i];
    var rest := (had + b)[k..];
    TogetherNext(arrivals, i);
    assert queue0 + (a + b) == (queue0 + a) + b;
    FlattenConcat(queue0 + a, b);
    FlattenConcat(had, b);
    Assoc(x + carry, Flatten(had), Flatten(b));
    TransferMore(x, y, left, carry, had + b, k, Flatten(queue0 + (a + b)));
    TogetherPart(arrivals, i + 1);
    SoundPart([], queue0 + (a + b), queue0 + Together(arrivals));
    UnpacksMore(x, y, left + Flatten(rest), queue0 + (a + b), msgs, overflow);
    FlattenEmpty();
    assert arrivals[..i + 1][..i] == arrivals[..i] && maxLens[..i + 1][..i] == maxLens[..i];
  }

  lemma TogetherNext(arrivals: seq<seq<Packet>>, i: nat)
    requires i < |arrivals|
    ensures Together(arrivals[..i + 1]) == Together(arrivals[..i]) + arrivals[i]
  {
    assert arrivals[..i + 1][..i] == arrivals[..i];
  }

  lemma {:induction false} TogetherPart(arrivals: seq<seq<Packet>>, i: nat)
    requires i <= |arrivals|
    ensures Together(arrivals[..i]) <= Together(arrivals)
    decreases |arrivals| - i
  {
    if i == |arrivals| {
      assert arrivals[..i] == arrivals;
    } else {
      TogetherPart(arrivals, i + 1);
      TogetherNext(arrivals, i);
    }
  }

  lemma StartEmpty(queue: seq<Packet>)
    ensures ([] + []) + Flatten(queue) == Flatten(queue) && queue + [] == queue
    ensures Unpacks([], [], [])
  {
    ParseIncomplete([]);
  }

  /** The bytes of one transfer move from the device's side of the stream to the host's. */
  lemma TransferMore(x: seq<byte>, y: seq<byte>, left: seq<byte>, carry: seq<byte>, rest: seq<Packet>, k: nat,
                     all: seq<byte>)
    requires k <= |rest| && (x + carry) + Flatten(rest) == all
    requires y + left == carry + Flatten(rest[..k])
    ensures ((x + y) + left) + Flatten(rest[k..]) == all
    ensures (x + y) + (left + Flatten(rest[k..])) == all
  {
    hide Flatten;
    FlattenConcat(rest[..k], rest[k..]);
    assert rest == rest[..k] + rest[k..];
    var f, g := Flatten(rest[..k]), Flatten(rest[k..]);
    Assoc(x, carry, f + g);
    Assoc(carry, f, g);
    Assoc(y, left, g);
    Assoc(x, y, left + g);
    Assoc(x + y, left, g);
  }

  lemma AtTheEnd(x: seq<byte>, left: seq<byte>, rest: seq<Packet>, queue: seq<Packet>, msgs: seq<CanMsg>,
                 overflow: seq<byte>)
    requires Stream(x, left, rest, queue) && Unpacks(x, msgs, overflow)
    ensures msgs <= Decodes(queue)
    ensures rest == [] && left == [] ==> msgs == Decodes(queue) && overflow == []
  {
    hide Parse;
    hide Decode;
    Assoc(x, left, Flatten(rest));
    PrefixOfQueue(x, left + Flatten(rest), queue);
    var a := Parse(x).0;
    assert Decodes(queue)[..|a|] == Decodes(a);
  }
}
