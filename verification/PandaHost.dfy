/**
 The host side of the CAN stream, panda/python/__init__.py: packing, unpacking, and the
 overflow buffer of Panda.can_recv.
 */
module PandaHost {
  import opened Arith
  import opened Bytes
  import opened CanWire

  /** (address, data, bus). */
  datatype CanMsg = CanMsg(address: nat, dat: seq<byte>, bus: nat)

  datatype PackResult = Packed(snds: seq<seq<byte>>) | KeyError | ValueError

  datatype UnpackResult = Unpacked(msgs: seq<CanMsg>, rest: seq<byte>) | ChecksumIncorrect

  // ---------------------------------------------------------------- packing

  predicate HasDlc(len: nat) { len in DLC_TO_LEN }

  /** LEN_TO_DLC. */
  function Dlc(len: nat): (d: nat)
    requires HasDlc(len)
    ensures d < 16 && DLC_TO_LEN[d] == len
  {
    DlcFrom(len, 0)
  }

  function DlcFrom(len: nat, d: nat): (r: nat)
    requires d < 16 && len in DLC_TO_LEN[d..]
    ensures d <= r < 16 && DLC_TO_LEN[r] == len
    decreases 16 - d
  {
    if DLC_TO_LEN[d] == len then d
    else
      assert DLC_TO_LEN[d..] == [DLC_TO_LEN[d]] + DLC_TO_LEN[d + 1..];
      DlcFrom(len, d + 1)
  }

  /** What pack_can_buffer accepts: a length in the table, and a first header byte below 256. */
  predicate Packable(m: CanMsg) { HasDlc(|m.dat|) && m.bus < 128 }

  /** The first header byte: length code, bus and the FD flag, or-ed together. */
  function Byte0(d: nat, bus: nat, fd: bool): byte
    requires d < 16 && bus < 128
  {
    Or8(Or8(d * 16, bus * 2), if fd then 1 else 0)
  }

  /** The address word: 29 bits of address, the extended flag, two flag bits left clear. */
  function AddressWord(m: CanMsg): nat
  {
    m.address * 8 + (if m.address >= 0x800 then 4 else 0)
  }

  /** The first five bytes of the header. Address bits beyond the 29th fall off, and bus bits
      beyond the third run into the length. */
  function Head(m: CanMsg, fd: bool): (h: seq<byte>)
    requires Packable(m)
    ensures |h| == 5
  {
    var word := AddressWord(m);
    [Byte0(Dlc(|m.dat|), m.bus, fd), word % 256, word / 0x100 % 256, word / 0x1_0000 % 256, word / 0x100_0000 % 256]
  }

  function Encode(m: CanMsg, fd: bool): (p: Packet)
    requires Packable(m)
    ensures |p| == HEAD + |m.dat|
  {
    Head(m, fd) + [Checksum(Head(m, fd) + m.dat)] + m.dat
  }

  /** The first message that pack_can_buffer cannot pack decides the exception. */
  function Encodes(arr: seq<CanMsg>, fd: bool): (ps: seq<Packet>)
    requires forall k | 0 <= k < |arr| :: Packable(arr[k])
    ensures |ps| == |arr| && forall k | 0 <= k < |arr| :: ps[k] == Encode(arr[k], fd)
  {
    seq(|arr|, k requires 0 <= k < |arr| => Encode(arr[k], fd))
  }

  // ---------------------------------------------------------------- the bits of a packet

  /** Five bytes of header, the checksum, the data. */
  predicate Framed(m: CanMsg, p: Packet)
  {
    |p| == 6 + |m.dat| && p[6..] == m.dat && Checksum(p) == 0
  }

  /** Byte 0: the bus number, or its low three bits, above the FD flag; above them the length code, as
      long as the bus number has no more bits. */
  predicate FirstByteOf(m: CanMsg, fd: bool, b: byte)
  {
    && (b % 2 == 1 <==> fd) && b / 2 % 8 == m.bus % 8
    && (m.bus < 8 ==> |m.dat| == if b / 16 <= 8 then b / 16 else if b / 16 <= 12 then 4 * (b / 16 - 6)
                                                                else 16 * (b / 16 - 11))
  }

  /** Four bytes as a number, the least significant first. */
  function Word(b1: nat, b2: nat, b3: nat, b4: nat): nat { b1 + 0x100 * (b2 + 0x100 * (b3 + 0x100 * b4)) }

  /** Bytes 1 to 4: the low 29 bits of the address above three flags, of which only the extended one may
      be set, for addresses of more than 11 bits. */
  predicate AddressBytes(m: CanMsg, b1: nat, b2: nat, b3: nat, b4: nat)
  {
    && (b1 / 4 % 2 == 1 <==> m.address >= 0x800) && b1 % 4 == 0
    && Word(b1, b2, b3, b4) / 8 == m.address % 0x2000_0000
  }

  /** The packet of a message, bit by bit. */
  predicate OnWire(m: CanMsg, fd: bool, p: Packet)
  {
    Framed(m, p) && FirstByteOf(m, fd, p[0]) && AddressBytes(m, p[1], p[2], p[3], p[4])
  }

  /** The wire format, for every message that is packed. */
  lemma WireFormat(m: CanMsg, fd: bool)
    requires Packable(m)
    ensures OnWire(m, fd, Encode(m, fd))
  {
    hide Checksum;
    hide AddressBytes;
    hide FirstByteOf;
    hide Encode;
    hide AddressWord;
    hide Dlc;
    hide Byte0;
    EncodeBytes(m, fd);
    FirstByteIs(m, fd);
    WordIs(m);
    AddressBytesAre(m, AddressWord(m));
  }

  /** The packet, byte by byte. */
  lemma EncodeBytes(m: CanMsg, fd: bool)
    requires Packable(m)
    ensures var p, word := Encode(m, fd), AddressWord(m);
            && Framed(m, p) && p[0] == Byte0(Dlc(|m.dat|), m.bus, fd) && p[1] == word % 256
            && p[2] == word / 0x100 % 256 && p[3] == word / 0x1_0000 % 256 && p[4] == word / 0x100_0000 % 256
  {
    hide Checksum;
    hide AddressWord;
    hide Dlc;
    hide Byte0;
    var h, p := Head(m, fd), Encode(m, fd);
    ChecksumClears(h, m.dat);
    assert p[..5] == h && p[6..] == m.dat;
    assert forall i | 0 <= i < 5 :: p[i] == p[..5][i];
  }

  lemma WordIs(m: CanMsg)
    ensures var word := AddressWord(m);
            && word % 0x1_0000_0000 / 8 == m.address % 0x2000_0000
            && word % 4 == 0 && (word / 4 % 2 == 1 <==> m.address >= 0x800)
  {
    var f := if m.address >= 0x800 then 1 else 0;
    assert AddressWord(m) == 8 * m.address + 4 * f;
    AddressInWord(m.address, 4 * f);
    FlagInWord(m.address, f);
  }

  lemma FlagInWord(address: nat, f: nat)
    requires f < 2
    ensures (8 * address + 4 * f) % 4 == 0 && (8 * address + 4 * f) / 4 % 2 == f
  {
    assert (8 * address + 4 * f) / 4 == 2 * address + f;
  }

  lemma AddressInWord(address: nat, low: nat)
    requires low < 8
    ensures (8 * address + low) % 0x1_0000_0000 / 8 == address % 0x2000_0000
  {
    var q, r := address / 0x2000_0000, address % 0x2000_0000;
    assert 8 * address + low == 0x1_0000_0000 * q + (8 * r + low);
    assert (8 * address + low) % 0x1_0000_0000 == 8 * r + low;
  }

  lemma FirstByteIs(m: CanMsg, fd: bool)
    requires Packable(m)
    ensures FirstByteOf(m, fd, Byte0(Dlc(|m.dat|), m.bus, fd))
  {
    hide Byte0;
    LowNibble(Dlc(|m.dat|), m.bus, fd);
    if m.bus < 8 {
      FirstByte(Dlc(|m.dat|), m.bus, fd, 0);
      DlcTable(Dlc(|m.dat|));
    }
  }

  /** The low bits of the first byte, whatever the bus number does to those above. */
  lemma LowNibble(d: nat, bus: nat, fd: bool)
    requires d < 16 && bus < 128
    ensures Byte0(d, bus, fd) % 2 == (if fd then 1 else 0) && Byte0(d, bus, fd) / 2 % 8 == bus % 8
  {
    hide Or;
    hide Pow;
    SmallPowers();
    var f := if fd then 1 else 0;
    var x := Or(d * 16, bus * 2, 8);
    OrHalves(x, f, 8);
    OrWithZero(x / 2, 7);
    OrHalves(d * 16, bus * 2, 8);
    LowThree(d, bus);
  }

  lemma LowThree(c: nat, y: nat)
    requires c * 8 < 128 && y < 128
    ensures c * 8 < Pow(2, 7) && y < Pow(2, 7) && Or(c * 8, y, 7) % 8 == y % 8
  {
    hide Or;
    hide Pow;
    SmallPowers();
    var v := Or(c * 8, y, 7);
    OrHalves(c * 8, y, 7);
    assert c * 8 / 2 == c * 4 && c * 4 / 2 == c * 2;
    OrHalves(c * 4, y / 2, 6);
    OrHalves(c * 2, y / 2 / 2, 5);
    ThreeBits(v);
    ThreeBits(y);
  }

  lemma ThreeBits(v: nat)
    ensures v / 2 / 2 == v / 4 && v % 8 == v % 2 + 2 * (v / 2 % 2) + 4 * (v / 4 % 2)
  {
  }

  lemma AddressBytesAre(m: CanMsg, word: nat)
    requires word % 0x1_0000_0000 / 8 == m.address % 0x2000_0000
    requires word % 4 == 0 && (word / 4 % 2 == 1 <==> m.address >= 0x800)
    ensures AddressBytes(m, word % 256, word / 0x100 % 256, word / 0x1_0000 % 256, word / 0x100_0000 % 256)
  {
    FourParts(word);
    LowByte(word / 256, word % 256);
  }

  lemma LowByte(q: nat, r: nat)
    ensures (256 * q + r) % 4 == r % 4 && (256 * q + r) / 4 % 2 == r / 4 % 2
  {
    assert (256 * q + r) / 4 == 64 * q + r / 4;
  }

  lemma FourParts(word: nat)
    ensures Word(word % 256, word / 0x100 % 256, word / 0x1_0000 % 256, word / 0x100_0000 % 256)
         == word % 0x1_0000_0000
  {
    var x, y, z := word / 0x100, word / 0x1_0000, word / 0x100_0000;
    assert y == x / 0x100 && z == y / 0x100;
    assert word == word % 256 + 0x100 * (x % 256 + 0x100 * (y % 256 + 0x100 * z));
    assert z == z % 256 + 256 * (z / 256);
  }

  method CalculateChecksum(data: seq<byte>) returns (res: byte)
    ensures res == Checksum(data)
  {
    res := 0;
    for i := 0 to |data|
      invariant res == Checksum(data[..i])
    {
      assert data[..i + 1][..i] == data[..i];
      res := Xor8(res, data[i]);
    }
    assert data[..|data|] == data;
  }

  /** Every buffer but the last is closed as soon as it holds more than 256 bytes. */
  ghost predicate Chunked(snds: seq<seq<byte>>, chunk: bool)
  {
    && |snds| > 0 && (!chunk ==> |snds| == 1) && (chunk ==> |snds[|snds| - 1]| <= 256)
    && forall k | 0 <= k < |snds| - 1 :: 256 < |snds[k]| <= 326
  }

  /** pack_can_buffer. */
  method PackCanBuffer(arr: seq<CanMsg>, chunk: bool, fd: bool) returns (r: PackResult)
    ensures r.Packed? <==> forall k | 0 <= k < |arr| :: Packable(arr[k])
    ensures r.Packed? ==> Flatten(r.snds) == Flatten(Encodes(arr, fd)) && Chunked(r.snds, chunk)
    ensures r.Packed? ==> forall k | 0 <= k < |arr| :: OnWire(arr[k], fd, Encodes(arr, fd)[k])
    ensures !r.Packed? ==> exists k | 0 <= k < |arr| ::
              (forall j | 0 <= j < k :: Packable(arr[j])) && !Packable(arr[k])
              && r == (if !HasDlc(|arr[k].dat|) then KeyError else ValueError)
  {
    hide Head;
    hide Checksum;
    hide Flatten;
    hide OnWire;
    var snds: seq<seq<byte>> := [[]];
    FlattenEmpty();
    for i := 0 to |arr|
      invariant forall k | 0 <= k < i :: Packable(arr[k])
      invariant Flatten(snds) == Flatten(Encodes(arr[..i], fd)) && Chunked(snds, chunk)
    {
      var m := arr[i];
      if !HasDlc(|m.dat|) {
        return KeyError;
      }
      if m.bus >= 128 {
        return ValueError;
      }
      var checksum := CalculateChecksum(Head(m, fd) + m.dat);
      var p := Head(m, fd) + [checksum] + m.dat;
      EncodesSnoc(arr, i, fd);
      FlattenExtend(snds, p);
      DlcBound(|m.dat|);
      snds := snds[|snds| - 1 := snds[|snds| - 1] + p];
      if chunk && |snds[|snds| - 1]| > 256 {
        FlattenConcat(snds, [[]]);
        assert Flatten(snds) + [] == Flatten(snds);
        snds := snds + [[]];
      }
    }
    assert arr[..|arr|] == arr;
    AllOnWire(arr, fd);
    return Packed(snds);
  }

  lemma AllOnWire(arr: seq<CanMsg>, fd: bool)
    requires forall k | 0 <= k < |arr| :: Packable(arr[k])
    ensures forall k | 0 <= k < |arr| :: OnWire(arr[k], fd, Encodes(arr, fd)[k])
  {
    hide OnWire;
    hide Encode;
    forall k | 0 <= k < |arr|
      ensures OnWire(arr[k], fd, Encodes(arr, fd)[k])
    {
      WireFormat(arr[k], fd);
    }
  }

  lemma DlcBound(len: nat)
    requires HasDlc(len)
    ensures len <= 64
  {
  }

  lemma EncodesSnoc(arr: seq<CanMsg>, i: nat, fd: bool)
    requires i < |arr| && forall k | 0 <= k <= i :: Packable(arr[k])
    ensures Flatten(Encodes(arr[..i + 1], fd)) == Flatten(Encodes(arr[..i], fd)) + Encode(arr[i], fd)
  {
    hide Encode;
    var es := Encodes(arr[..i + 1], fd);
    FlattenSnoc(es, i);
    assert es[..i + 1] == es && es[..i] == Encodes(arr[..i], fd);
  }

  // ---------------------------------------------------------------- unpacking

  function AddressOf(h1: nat, h2: nat, h3: nat, h4: nat): nat
  {
    (h4 * 0x100_0000 + h3 * 0x1_0000 + h2 * 0x100 + h1) / 8
  }

  /** Two flag bits, for returned and rejected messages, shift the bus number. */
  function BusOf(h0: nat, h1: nat): nat
  {
    h0 / 2 % 8 + (if h1 / 2 % 2 == 1 then 128 else 0) + (if h1 % 2 == 1 then 192 else 0)
  }

  /** One packet, as unpack_can_buffer reads it. */
  function Decode(p: Packet): CanMsg
    requires WellSized(p)
  {
    CanMsg(AddressOf(p[1], p[2], p[3], p[4]), p[HEAD..], BusOf(p[0], p[1]))
  }

  /** What a packet decodes to, from its bytes: the 29 bits above the flags, the data, and the bus number
      raised by 128 for a returned message, by 192 for a rejected one, by both for both. */
  lemma DecodeIs(p: Packet)
    requires WellSized(p)
    ensures var d := Decode(p);
            && d.dat == p[6..]
            && d.address * 8 + p[1] % 8 == Word(p[1], p[2], p[3], p[4])
            && d.bus - p[0] / 2 % 8 == match p[1] % 4 case 0 => 0 case 1 => 192 case 2 => 128 case _ => 320
  {
    hide BusOf;
    WordSplits(p[1], p[2], p[3], p[4]);
    BusIs(p[0], p[1]);
  }

  lemma WordSplits(h1: nat, h2: nat, h3: nat, h4: nat)
    ensures AddressOf(h1, h2, h3, h4) * 8 + h1 % 8 == Word(h1, h2, h3, h4)
  {
    var k := h2 + 0x100 * (h3 + 0x100 * h4);
    assert Word(h1, h2, h3, h4) == h1 + 8 * (32 * k);
  }

  lemma BusIs(h0: nat, h1: nat)
    ensures BusOf(h0, h1) - h0 / 2 % 8 == match h1 % 4 case 0 => 0 case 1 => 192 case 2 => 128 case _ => 320
  {
    var q, r := h1 / 4, h1 % 4;
    assert h1 / 2 == 2 * q + r / 2;
  }

  function Decodes(ps: seq<Packet>): (ms: seq<CanMsg>)
    requires forall k | 0 <= k < |ps| :: WellSized(ps[k])
    ensures |ms| == |ps| && forall k | 0 <= k < |ps| :: ms[k] == Decode(ps[k])
  {
    seq(|ps|, k requires 0 <= k < |ps| => Decode(ps[k]))
  }

  predicate Sound(ps: seq<Packet>)
  {
    forall k | 0 <= k < |ps| :: Checksum(ps[k]) == 0
  }

  /** unpack_can_buffer returns the messages of all complete packets and what is left over,
      unless one of them has a bad checksum. */
  function Unpack(dat: seq<byte>): UnpackResult
  {
    var r := Parse(dat);
    if Sound(r.0) then Unpacked(Decodes(r.0), r.1) else ChecksumIncorrect
  }

  /** unpack_can_buffer. */
  method UnpackCanBuffer(dat: seq<byte>) returns (r: UnpackResult)
    ensures r == Unpack(dat)
  {
    hide Parse;
    hide Flatten;
    hide Decode;
    hide Checksum;
    var ret: seq<CanMsg> := [];
    var rest := dat;
    ghost var done: seq<Packet> := [];
    while |rest| >= HEAD
      invariant forall k | 0 <= k < |done| :: WellSized(done[k])
      invariant Sound(done) && ret == Decodes(done)
      invariant done + Parse(rest).0 == Parse(dat).0 && Parse(rest).1 == Parse(dat).1
      decreases |rest|
    {
      var dataLen := DLC_TO_LEN[rest[0] / 16];
      if dataLen > |rest| - HEAD {
        break;
      }
      ParseStep(rest, done);
      var p := rest[..HEAD + dataLen];
      var checksum := CalculateChecksum(p);
      if checksum != 0 {
        assert Parse(dat).0[|done|] == p;
        return ChecksumIncorrect;
      }
      ret := ret + [Decode(p)];
      done := done + [p];
      rest := rest[HEAD + dataLen..];
    }
    ParseIncomplete(rest);
    assert done + [] == done;
    return Unpacked(ret, rest);
  }

  /** The end of one packet's way: exactly the messages with a 29-bit address and a 3-bit bus
      number survive packing and unpacking. */
  lemma RoundTrip(m: CanMsg, fd: bool)
    requires Packable(m)
    ensures Unpack(Encode(m, fd)) == Unpacked([m], []) <==> m.address < 0x2000_0000 && m.bus < 8
  {
    var p := Encode(m, fd);
    if m.address < 0x2000_0000 && m.bus < 8 {
      Delivers(m, fd);
      assert p + [] == p;
      ParseCons(p, []);
      assert Parse(p).0 == [p];
      assert Decodes([p]) == [Decode(p)];
    } else if Unpack(p) == Unpacked([m], []) {
      var r := Parse(p);
      assert Decodes(r.0)[0] == Decode(r.0[0]) == m;
      assert r.0 == [r.0[0]] && Flatten(r.0) == r.0[0] + Flatten([]);
      assert r.0[0] == p;
      InRange(m, fd);
      assert false;
    }
  }

  /** No address is longer than 29 bits, and without the flags no bus number than 3. */
  lemma InRange(m: CanMsg, fd: bool)
    requires Packable(m) && WellSized(Encode(m, fd))
    ensures var d := Decode(Encode(m, fd)); d.bus < 8 && d.address < 0x2000_0000
  {
    hide Byte0;
    hide Checksum;
    hide Dlc;
    hide AddressOf;
    hide BusOf;
    var word := AddressWord(m);
    var p := Encode(m, fd);
    assert p[1] == word % 256 && p[2] == word / 0x100 % 256;
    assert p[3] == word / 0x1_0000 % 256 && p[4] == word / 0x100_0000 % 256;
    LowBits(word);
    NoFlags(p[0], p[1]);
  }

  lemma NoFlags(h0: nat, h1: nat)
    requires h1 % 2 == 0 && h1 / 2 % 2 == 0
    ensures BusOf(h0, h1) < 8
  {
  }

  lemma LowBits(word: nat)
    requires word % 4 == 0
    ensures word % 256 % 2 == 0 && word % 256 / 2 % 2 == 0
    ensures AddressOf(word % 256, word / 0x100 % 256, word / 0x1_0000 % 256, word / 0x100_0000 % 256) < 0x2000_0000
  {
  }

  /** A packed message is well sized, has checksum zero, and decodes to itself. */
  lemma Delivers(m: CanMsg, fd: bool)
    requires Packable(m) && m.address < 0x2000_0000 && m.bus < 8
    ensures var p := Encode(m, fd); WellSized(p) && Checksum(p) == 0 && Decode(p) == m
  {
    hide Byte0;
    hide AddressOf;
    hide BusOf;
    hide Checksum;
    var word := AddressWord(m);
    FirstByte(Dlc(|m.dat|), m.bus, fd, word % 256);
    ChecksumClears(Head(m, fd), m.dat);
    FourthPart(word, m.address);
    assert Encode(m, fd)[HEAD..] == m.dat;
  }

  /** The four address bytes put together again. */
  lemma FourthPart(word: nat, address: nat)
    requires address < 0x2000_0000 && address * 8 <= word < address * 8 + 8 && word % 4 == 0
    ensures AddressOf(word % 256, word / 0x100 % 256, word / 0x1_0000 % 256, word / 0x100_0000 % 256) == address
  {
    assert word / 0x1_0000 == word / 0x100 / 0x100;
    assert word / 0x100_0000 == word / 0x1_0000 / 0x100;
  }

  /** In the first header byte, the three fields do not overlap. */
  lemma FirstByte(d: nat, bus: nat, fd: bool, h1: nat)
    requires d < 16 && bus < 8 && h1 % 4 == 0
    ensures Byte0(d, bus, fd) / 16 == d && BusOf(Byte0(d, bus, fd), h1) == bus
  {
    hide Or8;
    var f := if fd then 1 else 0;
    OrFields(d, bus * 2, 4);
    OrFields(d * 8 + bus, f, 1);
  }

  lemma OrFields(a: nat, y: nat, j: nat)
    requires j <= 8 && y < Pow(2, j) && a * Pow(2, j) < 256 && Pow(2, j) <= 256
    ensures Or8(a * Pow(2, j), y) == a * Pow(2, j) + y
    ensures Pow(2, 1) == 2 && Pow(2, 4) == 16
  {
    hide Pow;
    hide Or;
    SmallPowers();
    OrDisjoint(a, y, j, 8);
  }
}
