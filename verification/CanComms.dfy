/**
 panda/board/can_comms.h: the device side of the CAN stream. Packets wait in a queue as
 serialised bytes; what is handed to the CAN drivers is recorded in `sent`.
 */
module CanComms {
  import opened Bytes
  import opened CanWire
  import opened Libc

  const BUFFER_SIZE: nat := 72

  function Min(a: nat, b: nat): nat { if a < b then a else b }

  /** asm_buffer. */
  class AsmBuffer {
    var ptr: nat
    var tailSize: nat
    const data: array<byte>

    constructor ()
      ensures ptr == 0 && tailSize == 0 && data.Length == BUFFER_SIZE && fresh(data)
    {
      ptr, tailSize := 0, 0;
      data := new byte[BUFFER_SIZE];
    }
  }

  class Comms {
    const readBuffer: AsmBuffer
    const writeBuffer: AsmBuffer
    var rxQueue: seq<Packet>
    var sent: seq<Packet>

    constructor ()
      ensures Valid() && rxQueue == [] && sent == [] && ReadCarry() == [] && WriteCarry() == []
      ensures fresh(readBuffer) && fresh(writeBuffer) && fresh(readBuffer.data) && fresh(writeBuffer.data)
    {
      readBuffer := new AsmBuffer();
      writeBuffer := new AsmBuffer();
      rxQueue, sent := [], [];
    }

    ghost predicate Shape()
      reads this, readBuffer, writeBuffer
    {
      && readBuffer != writeBuffer && readBuffer.data != writeBuffer.data
      && readBuffer.data.Length == writeBuffer.data.Length == BUFFER_SIZE
      && readBuffer.ptr <= BUFFER_SIZE && writeBuffer.ptr <= BUFFER_SIZE
      && forall k | 0 <= k < |rxQueue| :: WellSized(rxQueue[k])
    }

    /** The tail of a packet that did not fit into the last transfer to the host. */
    ghost function ReadCarry(): seq<byte>
      requires Shape()
      reads this, readBuffer, writeBuffer, readBuffer.data
    {
      readBuffer.data[..readBuffer.ptr]
    }

    /** The head of a packet whose rest the host has not sent yet. */
    ghost function WriteCarry(): seq<byte>
      requires Shape()
      reads this, readBuffer, writeBuffer, writeBuffer.data
    {
      writeBuffer.data[..writeBuffer.ptr]
    }

    /** The write buffer holds the head of one packet, and knows how much is missing. */
    ghost predicate Valid()
      reads this, readBuffer, writeBuffer, writeBuffer.data
    {
      && Shape()
      && (if writeBuffer.ptr == 0 then writeBuffer.tailSize == 0
          else writeBuffer.tailSize > 0 && writeBuffer.ptr + writeBuffer.tailSize == PacketLen(writeBuffer.data[0]))
    }

    /** comms_can_reset. */
    method Reset()
      requires Valid()
      modifies readBuffer, writeBuffer
      ensures Valid() && ReadCarry() == [] && WriteCarry() == []
    {
      writeBuffer.ptr := 0;
      writeBuffer.tailSize := 0;
      readBuffer.ptr := 0;
      readBuffer.tailSize := 0;
    }

    // -------------------------------------------------------------- host to device

    lemma Cut(x: seq<byte>, y: seq<byte>, i: nat)
      requires i <= |y|
      ensures (x + y)[..|x| + i] == x + y[..i] && (x + y)[|x| + i..] == y[i..]
    {
    }

    /** The first half of comms_can_write: complete, or extend, the packet in the buffer. */
    method Assemble(data: array<byte>, addr: nat, len: nat) returns (pos: nat)
      requires Valid() && writeBuffer.ptr != 0 && len <= data.Length && data != writeBuffer.data
      modifies this`sent, writeBuffer, writeBuffer.data
      ensures Valid() && pos <= len
      ensures var whole := old(WriteCarry()) + data[..len];
              if Incomplete(whole) then pos == len && WriteCarry() == whole && sent == old(sent)
              else WriteCarry() == [] && sent == old(sent) + [whole[..PacketLen(whole[0])]]
                   && data[pos..len] == whole[PacketLen(whole[0])..]
    {
      pos := 0;
      ghost var carry := WriteCarry();
      if writeBuffer.tailSize <= len - pos {
        MemCpy(writeBuffer.data, 0, writeBuffer.ptr, data, addr, pos, writeBuffer.tailSize);
        writeBuffer.ptr := writeBuffer.ptr + writeBuffer.tailSize;
        pos := pos + writeBuffer.tailSize;
        assert writeBuffer.data[..writeBuffer.ptr] == carry + data[..pos];
        Cut(carry, data[..len], pos);
        assert data[..len][..pos] == data[..pos] && data[..len][pos..] == data[pos..len];
        sent := sent + [writeBuffer.data[..writeBuffer.ptr]];
        writeBuffer.ptr := 0;
        writeBuffer.tailSize := 0;
      } else {
        var dataSize := len - pos;
        MemCpy(writeBuffer.data, 0, writeBuffer.ptr, data, addr, pos, dataSize);
        writeBuffer.tailSize := writeBuffer.tailSize - dataSize;
        writeBuffer.ptr := writeBuffer.ptr + dataSize;
        pos := pos + dataSize;
      }
    }

    /** What is still to come of the stream parses to the given packets and leftover. */
    ghost predicate Remains(rest: seq<byte>, goal: (seq<Packet>, seq<byte>))
      requires Shape()
      reads this, readBuffer, writeBuffer, writeBuffer.data
    {
      var r := Parse(WriteCarry() + rest);
      sent + r.0 == goal.0 && r.1 == goal.1
    }

    /** The packet in the buffer, if there is one, comes first. */
    method AssembleFirst(data: array<byte>, addr: nat, len: nat, ghost goal: (seq<Packet>, seq<byte>))
      returns (pos: nat)
      requires Valid() && len <= data.Length && data != writeBuffer.data && Remains(data[..len], goal)
      modifies this`sent, writeBuffer, writeBuffer.data
      ensures Valid() && pos <= len && Remains(data[pos..len], goal)
      ensures pos < len ==> writeBuffer.ptr == 0
    {
      hide Parse;
      hide PacketLen;
      hide Flatten;
      hide WellSized;
      ghost var whole := WriteCarry() + data[..len];
      pos := 0;
      assert data[pos..len] == data[..len];
      if writeBuffer.ptr != 0 {
        pos := Assemble(data, addr, len);
        if !Incomplete(whole) {
          ParseStep(whole, old(sent));
          assert WriteCarry() + data[pos..len] == whole[PacketLen(whole[0])..];
        } else {
          assert WriteCarry() + data[pos..len] == whole;
        }
      }
    }

    /** comms_can_write: the packets sent on are exactly those that the buffered head and the
        new data make up, and the buffer is left with the rest. */
    method CommsCanWrite(data: array<byte>, addr: nat, len: nat)
      requires Valid() && len <= data.Length && data != writeBuffer.data
      modifies this`sent, writeBuffer, writeBuffer.data
      ensures Valid()
      ensures var r := Parse(old(WriteCarry()) + data[..len]); sent == old(sent) + r.0 && WriteCarry() == r.1
    {
      hide Parse;
      hide PacketLen;
      hide Flatten;
      hide WellSized;
      ghost var whole := WriteCarry() + data[..len];
      ghost var goal := (sent + Parse(whole).0, Parse(whole).1);
      var pos := AssembleFirst(data, addr, len, goal);
      while pos < len
        invariant Valid() && pos <= len && Remains(data[pos..len], goal)
        invariant pos < len ==> writeBuffer.ptr == 0
      {
        pos := WritePacket(data, addr, pos, len, goal);
      }
      assert WriteCarry() + data[len..len] == WriteCarry();
      ParseIncomplete(WriteCarry());
    }

    /** One pass of the loop in comms_can_write. */
    method WritePacket(data: array<byte>, addr: nat, pos: nat, len: nat, ghost goal: (seq<Packet>, seq<byte>))
      returns (next: nat)
      requires Valid() && pos < len <= data.Length && data != writeBuffer.data
      requires writeBuffer.ptr == 0 && Remains(data[pos..len], goal)
      modifies this`sent, writeBuffer, writeBuffer.data
      ensures Valid() && pos < next <= len && Remains(data[next..len], goal)
      ensures next < len ==> writeBuffer.ptr == 0
    {
      hide Parse;
      hide PacketLen;
      hide Flatten;
      hide WellSized;
      ghost var rest := data[pos..len];
      assert WriteCarry() + rest == rest;
      var pcktLen := PacketLen(data[pos]);
      if pos + pcktLen <= len {
        ParseStep(rest, sent);
        sent := sent + [data[pos..pos + pcktLen]];
        next := pos + pcktLen;
        assert rest[..pcktLen] == data[pos..next] && rest[pcktLen..] == data[next..len];
        assert WriteCarry() + data[next..len] == data[next..len];
      } else {
        KeepHead(data, addr, pos, len);
        next := pos + writeBuffer.ptr;
        assert WriteCarry() + data[next..len] == rest;
      }
    }

    /** The last packet of a transfer is incomplete: keep its head. */
    method KeepHead(data: array<byte>, addr: nat, pos: nat, len: nat)
      requires Valid() && pos < len <= data.Length && data != writeBuffer.data
      requires writeBuffer.ptr == 0 && len - pos < PacketLen(data[pos])
      modifies writeBuffer, writeBuffer.data
      ensures Valid() && WriteCarry() == data[pos..len]
    {
      MemCpy(writeBuffer.data, 0, 0, data, addr, pos, len - pos);
      writeBuffer.ptr := len - pos;
      writeBuffer.tailSize := PacketLen(data[pos]) - writeBuffer.ptr;
      assert writeBuffer.data[..len - pos] == data[pos..len];
    }

    // -------------------------------------------------------------- device to host

    /** The first half of comms_can_read: send the tail of the previous packet, and shift the
        rest of it down within the buffer. */
    method SendTail(data: array<byte>, addr: nat, maxLen: nat) returns (pos: nat)
      requires Valid() && maxLen <= data.Length && data != readBuffer.data && data != writeBuffer.data
      modifies readBuffer, readBuffer.data, data
      ensures Valid() && pos == Min(maxLen, |old(ReadCarry())|)
      ensures data[..pos] + ReadCarry() == old(ReadCarry()) && data[pos..] == old(data[..])[pos..]
    {
      hide Moved;
      pos := 0;
      ghost var carry := ReadCarry();
      if readBuffer.ptr > 0 {
        var overflow := Min(maxLen - pos, readBuffer.ptr);
        MemCpy(data, addr, pos, readBuffer.data, 0, 0, overflow);
        pos := pos + overflow;
        assert data[..pos] == carry[..pos] && data[pos..] == old(data[..])[pos..];
        ShiftDown(overflow);
        assert carry[..pos] + carry[pos..] == carry;
      }
    }

    /** The overlapping copy within the buffer. */
    method ShiftDown(n: nat)
      requires Valid() && n <= readBuffer.ptr
      modifies readBuffer, readBuffer.data
      ensures Valid() && ReadCarry() == old(ReadCarry())[n..]
    {
      hide Moved;
      MemCpy(readBuffer.data, 0, 0, readBuffer.data, 0, n, readBuffer.ptr - n);
      readBuffer.ptr := readBuffer.ptr - n;
    }

    /** Where a run of comms_can_read stands: `k` packets were popped, and every byte of them and
        of the previous tail is in the output or in the buffer. */
    ghost predicate Streamed(out: seq<byte>, carry: seq<byte>, queue: seq<Packet>, k: nat)
      requires Shape()
      reads this, readBuffer, writeBuffer, readBuffer.data
    {
      && k <= |queue| && rxQueue == queue[k..]
      && out + ReadCarry() == carry + Flatten(queue[..k])
      && (k > 0 ==> |ReadCarry()| < |queue[k - 1]|)
    }

    /** One packet of the loop in comms_can_read: all of it, or as much as fits. */
    method SendPacket(p: Packet, data: array<byte>, addr: nat, pos: nat, maxLen: nat) returns (next: nat)
      requires Valid() && WellSized(p) && readBuffer.ptr == 0
      requires pos < maxLen <= data.Length && data != readBuffer.data && data != writeBuffer.data
      modifies readBuffer, readBuffer.data, data
      ensures Valid() && pos < next <= maxLen && data[..next] + ReadCarry() == old(data[..pos]) + p
      ensures data[next..] == old(data[..])[next..] && |ReadCarry()| < |p|
      ensures next < maxLen ==> ReadCarry() == []
    {
      hide Moved;
      hide PacketLen;
      var packet := new byte[|p|](i requires 0 <= i < |p| => p[i]);
      assert packet[..] == p;
      if pos + |p| <= maxLen {
        MemCpy(data, addr, pos, packet, 0, 0, |p|);
        next := pos + |p|;
        assert packet[0..|p|] == p;
      } else {
        var fits := maxLen - pos;
        MemCpy(data, addr, pos, packet, 0, 0, fits);
        next := maxLen;
        assert data[..next] == old(data[..pos]) + p[..fits];
        KeepTail(p, packet, fits);
        assert p[..fits] + p[fits..] == p;
      }
    }

    /** The rest of a packet that did not fit goes to the buffer. */
    method KeepTail(p: Packet, packet: array<byte>, fits: nat)
      requires Valid() && WellSized(p) && readBuffer.ptr == 0 && fits <= |p|
      requires packet[..] == p && packet != readBuffer.data
      modifies readBuffer, readBuffer.data
      ensures Valid() && ReadCarry() == p[fits..]
    {
      hide Moved;
      readBuffer.ptr := readBuffer.ptr + |p| - fits;
      MemCpy(readBuffer.data, 0, 0, packet, 0, fits, readBuffer.ptr);
      assert packet[fits..fits + readBuffer.ptr] == p[fits..];
    }

    lemma StreamedMore(out: seq<byte>, out': seq<byte>, left: seq<byte>, carry: seq<byte>, queue: seq<Packet>, k: nat)
      requires k < |queue| && out + [] == carry + Flatten(queue[..k]) && out' + left == out + queue[k]
      ensures out' + left == carry + Flatten(queue[..k + 1])
    {
      FlattenSnoc(queue, k);
      assert carry + (Flatten(queue[..k]) + queue[k]) == (carry + Flatten(queue[..k])) + queue[k];
    }

    /** comms_can_read: the stream of packets, cut into transfers of the requested length. Only
        a call that empties the queue returns less. The ghost result counts the packets popped. */
    method CommsCanRead(data: array<byte>, addr: nat, maxLen: nat) returns (pos: nat, ghost k: nat)
      requires Valid() && maxLen <= data.Length && data != readBuffer.data && data != writeBuffer.data
      modifies this`rxQueue, readBuffer, readBuffer.data, data
      ensures Valid() && pos <= maxLen
      ensures k <= |old(rxQueue)| && rxQueue == old(rxQueue)[k..]
      ensures data[..pos] + ReadCarry() == old(ReadCarry()) + Flatten(old(rxQueue)[..k])
      ensures k > 0 ==> |ReadCarry()| < |old(rxQueue)[k - 1]|
      ensures pos < maxLen ==> rxQueue == [] && ReadCarry() == []
      ensures data[pos..] == old(data[..])[pos..]
    {
      hide PacketLen;
      ghost var carry, queue := ReadCarry(), rxQueue;
      pos := SendTail(data, addr, maxLen);
      k := 0;
      assert queue[..0] == [] && carry + [] == carry && queue[0..] == queue;
      if readBuffer.ptr == 0 {
        while pos < maxLen && rxQueue != []
          invariant Valid() && pos <= maxLen && Streamed(data[..pos], carry, queue, k)
          invariant pos < maxLen ==> readBuffer.ptr == 0
          invariant data[pos..] == old(data[..])[pos..]
        {
          var p := rxQueue[0];
          rxQueue := rxQueue[1..];
          ghost var out, at := data[..pos], pos;
          pos := SendPacket(p, data, addr, pos, maxLen);
          StreamedMore(out, data[..pos], ReadCarry(), carry, queue, k);
          k := k + 1;
          assert old(data[..])[pos..] == old(data[..])[at..][pos - at..];
        }
      }
    }
  }
}
