/**
 The CAN packet format that the panda and its host exchange, as functions on bytes: a
 six-byte header whose first nibble gives the length, and up to 64 bytes of data.
 */
module CanWire {
  import opened Bytes

  const HEAD: nat := 6
  const DLC_TO_LEN: seq<nat> := [0, 1, 2, 3, 4, 5, 6, 7, 8, 12, 16, 20, 24, 32, 48, 64]

  /** The length codes: up to 8 bytes one by one, then in steps of 4 up to 24, then in steps of 16. */
  lemma DlcTable(d: nat)
    requires d < 16
    ensures |DLC_TO_LEN| == 16
    ensures DLC_TO_LEN[d] == if d <= 8 then d else if d <= 12 then 4 * (d - 6) else 16 * (d - 11)
  {
  }

  type Packet = seq<byte>

  /** The length of a packet, declared by its first byte. */
  function PacketLen(b0: byte): (n: nat)
    ensures HEAD <= n <= HEAD + 64
  {
    HEAD + DLC_TO_LEN[b0 / 16]
  }

  /** A packet is as long as it says. */
  predicate WellSized(p: Packet)
  {
    p != [] && |p| == PacketLen(p[0])
  }

  /** No complete packet at the front. */
  predicate Incomplete(s: seq<byte>)
  {
    s == [] || |s| < PacketLen(s[0])
  }

  function Flatten(ps: seq<Packet>): seq<byte>
  {
    if ps == [] then [] else ps[0] + Flatten(ps[1..])
  }

  lemma {:induction false} FlattenConcat(ps: seq<Packet>, qs: seq<Packet>)
    ensures Flatten(ps + qs) == Flatten(ps) + Flatten(qs)
  {
    if ps == [] {
      assert ps + qs == qs;
    } else {
      FlattenConcat(ps[1..], qs);
      assert (ps + qs)[1..] == ps[1..] + qs && (ps + qs)[0] == ps[0];
      Assoc(ps[0], Flatten(ps[1..]), Flatten(qs));
    }
  }

  lemma FlattenEmpty()
    ensures Flatten([]) == [] && Flatten([[]]) == []
  {
  }

  lemma FlattenSnoc(ps: seq<Packet>, k: nat)
    requires k < |ps|
    ensures Flatten(ps[..k + 1]) == Flatten(ps[..k]) + ps[k]
  {
    FlattenConcat(ps[..k], [ps[k]]);
    assert ps[..k + 1] == ps[..k] + [ps[k]];
    assert Flatten([ps[k]]) == ps[k] + Flatten([]);
  }

  /** Extending the last buffer extends the stream. */
  lemma FlattenExtend(ps: seq<Packet>, p: Packet)
    requires |ps| > 0
    ensures Flatten(ps[|ps| - 1 := ps[|ps| - 1] + p]) == Flatten(ps) + p
  {
    var n := |ps| - 1;
    var qs := ps[n := ps[n] + p];
    FlattenSnoc(ps, n);
    FlattenSnoc(qs, n);
    assert ps[..n + 1] == ps && qs[..n + 1] == qs && qs[..n] == ps[..n];
    assert Flatten(ps[..n]) + (ps[n] + p) == (Flatten(ps[..n]) + ps[n]) + p;
  }

  // ---------------------------------------------------------------- cutting a stream into packets

  /** The complete packets at the front of a stream, and what is left. */
  function Parse(s: seq<byte>): (r: (seq<Packet>, seq<byte>))
    ensures Incomplete(r.1)
    ensures forall k | 0 <= k < |r.0| :: WellSized(r.0[k])
    ensures Flatten(r.0) + r.1 == s
    decreases |s|
  {
    if Incomplete(s) then ([], s) else
      var n := PacketLen(s[0]);
      var r := Parse(s[n..]);
      Refilled(s, n, r.0, r.1);
      ([s[..n]] + r.0, r.1)
  }

  lemma Refilled(s: seq<byte>, n: nat, ps: seq<Packet>, rest: seq<byte>)
    requires n <= |s| && Flatten(ps) + rest == s[n..]
    ensures Flatten([s[..n]] + ps) + rest == s
  {
    assert ([s[..n]] + ps)[1..] == ps;
    assert (s[..n] + Flatten(ps)) + rest == s[..n] + (Flatten(ps) + rest) == s;
  }

  lemma ParseIncomplete(s: seq<byte>)
    requires Incomplete(s)
    ensures Parse(s) == ([], s)
  {
  }

  lemma ParseStep(s: seq<byte>, sent: seq<Packet>)
    requires !Incomplete(s)
    ensures var n := PacketLen(s[0]); var r := Parse(s[n..]);
            Parse(s).1 == r.1 && sent + Parse(s).0 == (sent + [s[..n]]) + r.0
  {
    var n := PacketLen(s[0]);
    var r := Parse(s[n..]);
    Assoc(sent, [s[..n]], r.0);
  }

  lemma Assoc<T>(a: seq<T>, b: seq<T>, c: seq<T>)
    ensures a + (b + c) == (a + b) + c
  {
  }

  /** A packet put in front of a stream is the first to come out. */
  lemma ParseCons(p: Packet, s: seq<byte>)
    requires WellSized(p)
    ensures Parse(p + s) == ([p] + Parse(s).0, Parse(s).1)
  {
    assert (p + s)[..|p|] == p && (p + s)[|p|..] == s;
  }

  /** Parsing x and then, with what is left of x, y is the same as parsing x + y. */
  ghost predicate Splits(x: seq<byte>, y: seq<byte>)
  {
    var a := Parse(x);
    var b := Parse(a.1 + y);
    Parse(x + y) == (a.0 + b.0, b.1)
  }

  lemma SplitsCons(p: Packet, x: seq<byte>, y: seq<byte>)
    requires WellSized(p) && Splits(x, y)
    ensures Splits(p + x, y)
  {
    hide Parse;
    hide Flatten;
    hide Incomplete;
    hide WellSized;
    Assoc(p, x, y);
    ParseCons(p, x);
    ParseCons(p, x + y);
    var a := Parse(x);
    var b := Parse(a.1 + y);
    Assoc([p], a.0, b.0);
  }

  /** Parsing is independent of how the stream is cut: what is left over is carried on. */
  lemma {:induction false} ParseConcat(x: seq<byte>, y: seq<byte>)
    ensures Splits(x, y)
    decreases |x|
  {
    if Incomplete(x) {
      assert [] + Parse(x + y).0 == Parse(x + y).0;
    } else {
      hide Splits;
      hide Parse;
      var n := PacketLen(x[0]);
      ParseConcat(x[n..], y);
      SplitsCons(x[..n], x[n..], y);
      assert x == x[..n] + x[n..];
    }
  }

  /** Parsing recovers exactly the packets that were put together. */
  lemma {:induction false} ParseFlatten(ps: seq<Packet>, rest: seq<byte>)
    requires forall k | 0 <= k < |ps| :: WellSized(ps[k])
    requires Incomplete(rest)
    ensures Parse(Flatten(ps) + rest) == (ps, rest)
  {
    if ps == [] {
      assert Flatten(ps) + rest == rest;
    } else {
      ParseFlatten(ps[1..], rest);
      assert Flatten(ps) + rest == ps[0] + (Flatten(ps[1..]) + rest);
      ParseCons(ps[0], Flatten(ps[1..]) + rest);
      assert ps == [ps[0]] + ps[1..];
    }
  }

  /** The packets found so far are a prefix of those found at the end. */
  lemma ParsePrefix(x: seq<byte>, y: seq<byte>)
    ensures Parse(x).0 <= Parse(x + y).0
  {
    ParseConcat(x, y);
  }

  // ---------------------------------------------------------------- checksum

  function Checksum(s: seq<byte>): byte
  {
    if s == [] then 0 else Xor8(Checksum(s[..|s| - 1]), s[|s| - 1])
  }

  lemma Xor8Laws(x: byte, y: byte, z: byte)
    ensures Xor8(Xor8(x, y), z) == Xor8(x, Xor8(y, z))
    ensures Xor8(x, 0) == x && Xor8(0, x) == x && Xor8(x, x) == 0
  {
    ByteFits(x);
    ByteFits(y);
    ByteFits(z);
    XorAssoc(x, y, z, 8);
    XorWithZero(x, 8);
    XorIsZero(x, x, 8);
  }

  lemma {:induction false} ChecksumConcat(s: seq<byte>, t: seq<byte>)
    ensures Checksum(s + t) == Xor8(Checksum(s), Checksum(t))
  {
    if t == [] {
      assert s + t == s;
      Xor8Laws(Checksum(s), 0, 0);
    } else {
      var u, x := t[..|t| - 1], t[|t| - 1];
      assert (s + t)[..|s + t| - 1] == s + u;
      ChecksumConcat(s, u);
      Xor8Laws(Checksum(s), Checksum(u), x);
    }
  }

  /** Putting the checksum of head and data between them makes the whole sum to zero. */
  lemma ChecksumClears(head: seq<byte>, data: seq<byte>)
    ensures Checksum(head + [Checksum(head + data)] + data) == 0
  {
    var h, d, c := Checksum(head), Checksum(data), Checksum(head + data);
    ChecksumConcat(head, data);
    ChecksumConcat(head + [c], data);
    ChecksumConcat(head, [c]);
    assert [c][..0] == [];
    Xor8Laws(c, 0, 0);
    assert Checksum([c]) == c;
    Xor8Laws(h, h, d);
    Xor8Laws(d, 0, 0);
  }
}
