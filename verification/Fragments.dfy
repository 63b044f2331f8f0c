/** IPv4 fragmentation (section 3.2 of RFC 791): the fragments fit, decode, and put together give the data back. */
module Fragments {
  import opened Common
  import Checksum

  const HEADER_SIZE: nat := 20
  const MORE_FRAGMENTS: nat := 1

  type u16 = Checksum.u16

  // ---------------------------------------------------------------- the field

  function SetField(flags: nat, offset: nat): nat {
    flags * 0x2000 + offset / 8
  }

  function GetFlags(field: nat): nat { field / 0x2000 % 8 }

  function GetOffset(field: nat): nat { field % 0x2000 * 8 }

  /** The encoding loses nothing exactly when the offset is a multiple of 8 that fits. */
  lemma FieldRoundTrip(flags: nat, offset: nat)
    requires flags < 8 && offset < 0x1_0000
    ensures SetField(flags, offset) < 0x1_0000 && GetFlags(SetField(flags, offset)) == flags
    ensures GetOffset(SetField(flags, offset)) == offset <==> offset % 8 == 0
  {
  }

  // ---------------------------------------------------------------- packets

  /** A fragment as it is sent: the fields of the header that depend on it, and the payload. */
  datatype Fragment = Fragment(packetLength: nat, field: nat, id: nat, payload: seq<byte>) {
    function Offset(): nat { GetOffset(field) }
    predicate More() { GetFlags(field) % 2 == MORE_FRAGMENTS }
    function End(): nat { Offset() + |payload| }
  }

  function MaxLength(mtu: nat): nat
    requires mtu >= HEADER_SIZE
  {
    AlignDown(mtu - HEADER_SIZE, 8)
  }

  /** ipv4_send_fragment. */
  method SendFragment(data: seq<byte>, offset: nat, length: nat, last: bool, id: nat) returns (f: Fragment)
    requires offset + length <= |data| <= Checksum.MAX_PAYLOAD && offset % 8 == 0
    ensures f.packetLength == length + HEADER_SIZE < 0x1_0000 && f.id == id
    ensures f.payload == data[offset..offset + length] && f.Offset() == offset && (f.More() <==> !last)
    ensures f.field / 0x2000 == (if last then 0 else 1) && f.field % 0x2000 * 8 == offset && f.field < 0x1_0000
  {
    FieldRoundTrip(if last then 0 else MORE_FRAGMENTS, offset);
    f := Fragment(length + HEADER_SIZE, SetField(if last then 0 else MORE_FRAGMENTS, offset), id, data[offset..offset + length]);
  }

  /** Fragment `i` of the data cut into pieces of `max`. */
  ghost predicate IsPiece(f: Fragment, data: seq<byte>, max: nat, id: nat, i: nat)
    requires max > 0
  {
    var offset, count := i * max, |data| / max + 1;
    && offset <= |data|
    && f.Offset() == offset && f.payload == data[offset..offset + Min(max, |data| - offset)]
    && f.id == id && f.packetLength == |f.payload| + HEADER_SIZE && (f.More() <==> i + 1 < count)
    && f.field / 0x2000 == (if i + 1 < count then 1 else 0) && f.field % 0x2000 * 8 == offset && f.field < 0x1_0000
  }

  lemma PieceStarts(length: nat, max: nat, i: nat)
    requires max > 0 && i <= length / max
    ensures i * max <= length
  {
    assert i * max <= length / max * max;
  }

  /** One turn of the loop of ipv4_send. */
  method SendPiece(data: seq<byte>, max: nat, id: nat, i: nat, count: nat, offset: nat) returns (f: Fragment)
    requires |data| <= Checksum.MAX_PAYLOAD && max > 0 && count == |data| / max + 1 && i < count && offset == i * max && max % 8 == 0
    ensures IsPiece(f, data, max, id, i)
  {
    PieceStarts(|data|, max, i);
    MultipleOfEight(i, max);
    var length := Min(max, |data| - offset);
    f := SendFragment(data, offset, length, i == count - 1, id);
  }

  lemma NextOffset(i: nat, max: nat)
    ensures (i + 1) * max == i * max + max
  {
  }

  /** The loop of ipv4_send. */
  method Send(data: seq<byte>, mtu: nat, id: nat) returns (fs: seq<Fragment>)
    requires |data| <= Checksum.MAX_PAYLOAD && mtu >= HEADER_SIZE + 8
    ensures MaxLength(mtu) > 0 && |fs| == |data| / MaxLength(mtu) + 1
    ensures forall i :: 0 <= i < |fs| ==> IsPiece(fs[i], data, MaxLength(mtu), id, i)
  {
    var max := AlignDown(mtu - HEADER_SIZE, 8);
    fs := SendPieces(data, max, id, |data| / max + 1);
  }

  method SendPieces(data: seq<byte>, max: nat, id: nat, count: nat) returns (fs: seq<Fragment>)
    requires |data| <= Checksum.MAX_PAYLOAD && max > 0 && max % 8 == 0 && count == |data| / max + 1
    ensures |fs| == count && forall i :: 0 <= i < |fs| ==> IsPiece(fs[i], data, max, id, i)
  {
    var offset := 0;
    fs := [];
    var i: nat := 0;
    while i < count
      invariant i <= count && |fs| == i && offset == i * max
      invariant forall k :: 0 <= k < i ==> IsPiece(fs[k], data, max, id, k)
    {
      var f := SendPiece(data, max, id, i, count, offset);
      fs := fs + [f];
      NextOffset(i, max);
      offset := offset + max;
      i := i + 1;
    }
  }

  // ---------------------------------------------------------------- what the receiver may rely on

  /** One fragment: it fits the link, its offset can be encoded, and it carries the data at that offset. */
  ghost predicate Sound(f: Fragment, data: seq<byte>, mtu: nat) {
    && f.packetLength == HEADER_SIZE + |f.payload| <= mtu && f.Offset() % 8 == 0
    && f.End() <= |data| && f.payload == data[f.Offset()..f.End()]
    && (f.More() ==> |f.payload| > 0 && |f.payload| % 8 == 0)
    && (!f.More() ==> f.End() == |data|)
  }

  ghost predicate Covered(fs: seq<Fragment>, x: nat) {
    exists i :: 0 <= i < |fs| && fs[i].Offset() <= x < fs[i].End()
  }

  /** The fragments of one datagram, as a receiver that follows RFC 791 needs them. */
  ghost predicate Reassembles(fs: seq<Fragment>, data: seq<byte>, mtu: nat) {
    && (forall i :: 0 <= i < |fs| ==> Sound(fs[i], data, mtu))
    && fs != [] && (forall i :: 0 <= i < |fs| ==> (fs[i].More() <==> i < |fs| - 1))
    && (forall x: nat :: x < |data| ==> Covered(fs, x))
    && (forall i, j :: 0 <= i < j < |fs| ==> fs[i].End() <= fs[j].Offset())
  }

  lemma PieceEnds(length: nat, max: nat, i: nat)
    requires max > 0 && i < length / max
    ensures (i + 1) * max <= length
  {
    PieceStarts(length, max, i + 1);
  }

  lemma LastPiece(length: nat, max: nat)
    requires max > 0
    ensures length < (length / max + 1) * max && length / max * max <= length
  {
    assert (length / max + 1) * max == length / max * max + max;
  }

  lemma PieceFacts(f: Fragment, data: seq<byte>, mtu: nat, id: nat, i: nat)
    requires mtu >= HEADER_SIZE + 8 && MaxLength(mtu) > 0 && i <= |data| / MaxLength(mtu) && IsPiece(f, data, MaxLength(mtu), id, i)
    ensures Sound(f, data, mtu) && f.Offset() == i * MaxLength(mtu)
    ensures if i < |data| / MaxLength(mtu) then f.More() && |f.payload| == MaxLength(mtu) else !f.More() && f.End() == |data|
  {
    var max := MaxLength(mtu);
    if i < |data| / max {
      PieceEnds(|data|, max, i);
      assert (i + 1) * max == i * max + max;
    } else {
      LastPiece(|data|, max);
    }
    MultipleOfEight(i, max);
  }

  lemma MultipleOfEight(i: nat, max: nat)
    requires max % 8 == 0
    ensures (i * max) % 8 == 0
  {
    var k := max / 8;
    assert max == 8 * k;
    assert i * max == 8 * (i * k);
    EightTimes(i * k);
  }

  lemma EightTimes(x: nat)
    ensures (8 * x) % 8 == 0
  {
  }

  lemma {:induction false} Ordered(i: nat, j: nat, max: nat)
    requires i < j
    ensures i * max + max <= j * max
  {
    assert j * max == (j - 1) * max + max;
    if i < j - 1 {
      Ordered(i, j - 1, max);
    }
  }

  /** Whatever order they arrive in, the fragments cover the data exactly and say where it ends. */
  lemma SentReassembles(fs: seq<Fragment>, data: seq<byte>, mtu: nat, id: nat)
    requires mtu >= HEADER_SIZE + 8 && MaxLength(mtu) > 0 && |fs| == |data| / MaxLength(mtu) + 1
    requires forall i :: 0 <= i < |fs| ==> IsPiece(fs[i], data, MaxLength(mtu), id, i)
    ensures Reassembles(fs, data, mtu)
  {
    var max, n := MaxLength(mtu), |fs| - 1;
    forall i | 0 <= i < |fs|
      ensures Sound(fs[i], data, mtu) && (fs[i].More() <==> i < n)
    {
      PieceFacts(fs[i], data, mtu, id, i);
    }
    forall x: nat | x < |data|
      ensures Covered(fs, x)
    {
      PieceCovers(fs, data, mtu, id, x);
    }
    forall i: nat, j: nat | i < j < |fs|
      ensures fs[i].End() <= fs[j].Offset()
    {
      PiecesOrdered(fs[i], fs[j], data, mtu, id, i, j);
    }
  }

  lemma PieceCovers(fs: seq<Fragment>, data: seq<byte>, mtu: nat, id: nat, x: nat)
    requires mtu >= HEADER_SIZE + 8 && MaxLength(mtu) > 0 && |fs| == |data| / MaxLength(mtu) + 1 && x < |data|
    requires forall i :: 0 <= i < |fs| ==> IsPiece(fs[i], data, MaxLength(mtu), id, i)
    ensures Covered(fs, x)
  {
    var i := x / MaxLength(mtu);
    CoveringPiece(|data|, MaxLength(mtu), x);
    PieceFacts(fs[i], data, mtu, id, i);
    assert fs[i].Offset() <= x < fs[i].End();
  }

  lemma PiecesOrdered(f: Fragment, g: Fragment, data: seq<byte>, mtu: nat, id: nat, i: nat, j: nat)
    requires mtu >= HEADER_SIZE + 8 && MaxLength(mtu) > 0 && i < j <= |data| / MaxLength(mtu)
    requires IsPiece(f, data, MaxLength(mtu), id, i) && IsPiece(g, data, MaxLength(mtu), id, j)
    ensures f.End() <= g.Offset()
  {
    PieceFacts(f, data, mtu, id, i);
    PieceFacts(g, data, mtu, id, j);
    Ordered(i, j, MaxLength(mtu));
  }

  lemma CoveringPiece(length: nat, max: nat, x: nat)
    requires max > 0 && x < length
    ensures x / max <= length / max && x / max * max <= x < x / max * max + max
  {
    LastPiece(length, max);
    if x / max > length / max {
      PieceStarts(x, max, length / max + 1);
    }
    LastPiece(x, max);
    assert (x / max + 1) * max == x / max * max + max;
  }

  function Payloads(fs: seq<Fragment>): seq<byte> {
    if fs == [] then [] else fs[0].payload + Payloads(fs[1..])
  }

  /** Each fragment goes on where the one before it ended, and the last one ends with the data. */
  ghost predicate Consecutive(fs: seq<Fragment>, data: seq<byte>, from: nat) {
    if fs == [] then from == |data|
    else
      && fs[0].Offset() == from && fs[0].End() <= |data| && fs[0].payload == data[from..fs[0].End()]
      && Consecutive(fs[1..], data, fs[0].End())
  }

  lemma {:induction false} ConsecutivePayloads(fs: seq<Fragment>, data: seq<byte>, from: nat)
    requires Consecutive(fs, data, from) && from <= |data|
    ensures Payloads(fs) == data[from..]
  {
    if fs != [] {
      ConsecutivePayloads(fs[1..], data, fs[0].End());
    }
  }

  lemma {:induction false} PiecesConsecutive(fs: seq<Fragment>, data: seq<byte>, mtu: nat, id: nat, i: nat)
    requires mtu >= HEADER_SIZE + 8 && MaxLength(mtu) > 0 && |fs| == |data| / MaxLength(mtu) + 1 && i < |fs|
    requires forall k :: 0 <= k < |fs| ==> IsPiece(fs[k], data, MaxLength(mtu), id, k)
    ensures Consecutive(fs[i..], data, fs[i].Offset())
    decreases |fs| - i
  {
    var rest := fs[i..];
    PieceFacts(fs[i], data, mtu, id, i);
    assert rest[0] == fs[i] && rest[1..] == fs[i + 1..];
    if i + 1 < |fs| {
      PieceFacts(fs[i + 1], data, mtu, id, i + 1);
      NextOffset(i, MaxLength(mtu));
      PiecesConsecutive(fs, data, mtu, id, i + 1);
    }
  }

  /** Put in order, the payloads are the data. */
  lemma PayloadsAre(fs: seq<Fragment>, data: seq<byte>, mtu: nat, id: nat)
    requires mtu >= HEADER_SIZE + 8 && MaxLength(mtu) > 0 && |fs| == |data| / MaxLength(mtu) + 1
    requires forall k :: 0 <= k < |fs| ==> IsPiece(fs[k], data, MaxLength(mtu), id, k)
    ensures Payloads(fs) == data
  {
    PiecesConsecutive(fs, data, mtu, id, 0);
    PieceFacts(fs[0], data, mtu, id, 0);
    assert fs[0..] == fs && data[0..] == data;
    ConsecutivePayloads(fs, data, 0);
  }

  /** When the length is a multiple of the piece size the last fragment is empty. */
  lemma LastMayBeEmpty(f: Fragment, data: seq<byte>, max: nat, id: nat)
    requires max > 0 && IsPiece(f, data, max, id, |data| / max)
    ensures f.payload == [] <==> |data| % max == 0
  {
    assert |data| == |data| / max * max + |data| % max;
  }

  // ---------------------------------------------------------------- the header on the wire

  /** The twenty bytes of the header, with the checksum field given. */
  function Header(f: Fragment, protocol: byte, src: seq<byte>, dst: seq<byte>, checksum: u16): (b: seq<byte>)
    requires f.packetLength < 0x1_0000 && f.field < 0x1_0000 && f.id < 0x1_0000 && |src| == 4 && |dst| == 4
    ensures |b| == HEADER_SIZE
  {
    [0x45, 0, (f.packetLength / 0x100) as byte, (f.packetLength % 0x100) as byte, (f.id / 0x100) as byte, (f.id % 0x100) as byte,
     (f.field / 0x100) as byte, (f.field % 0x100) as byte, 0xFF, protocol, (checksum / 0x100) as byte, (checksum % 0x100) as byte] + src + dst
  }

  /** The header as it is sent, field by field (section 3.1 of RFC 791); it passes the receiver's check. */
  method FinishedHeader(f: Fragment, protocol: byte, src: seq<byte>, dst: seq<byte>) returns (b: seq<byte>)
    requires f.packetLength < 0x1_0000 && f.field < 0x1_0000 && f.id < 0x1_0000 && |src| == 4 && |dst| == 4
    ensures |b| == 20 && b[0] == 0x45 && b[1] == 0 && b[8] == 0xFF && b[9] == protocol && b[12..16] == src && b[16..20] == dst
    ensures 0x100 * b[2] as nat + b[3] as nat == f.packetLength && 0x100 * b[4] as nat + b[5] as nat == f.id
    ensures 0x100 * b[6] as nat + b[7] as nat == f.field
    ensures Checksum.RfcChecksum(b) == 0
  {
    b := Header(f, protocol, src, dst, 0);
    var c := Checksum.HeaderChecksum(b);
    Checksum.FilledChecks(b, 10);
    assert Checksum.Filled(b, 10, c) == Header(f, protocol, src, dst, c);
    b := Checksum.Filled(b, 10, c);
  }

  /**
    Packet `i` of a datagram that is cut into pieces of `max`, as it is on the wire: version and
    header length, the length of the packet, the identification, the more-fragments flag in bit 13,
    the offset in units of 8 in the bits below, time to live, protocol, the addresses, the payload.
   */
  ghost predicate OnWire(b: seq<byte>, data: seq<byte>, max: nat, id: nat, protocol: byte, src: seq<byte>, dst: seq<byte>, i: nat)
    requires max > 0
  {
    var from := i * max;
    var to := if from + max <= |data| then from + max else |data|;
    && from <= to && |b| == 20 + (to - from) && b[20..] == data[from..to]
    && b[0] == 0x45 && b[1] == 0 && 0x100 * b[2] as nat + b[3] as nat == |b|
    && 0x100 * b[4] as nat + b[5] as nat == id
    && b[6] as nat / 0x20 == (if i < |data| / max then 1 else 0) && (b[6] as nat % 0x20 * 0x100 + b[7] as nat) * 8 == from
    && b[8] == 0xFF && b[9] == protocol && b[12..16] == src && b[16..20] == dst
    && Checksum.RfcChecksum(b[..20]) == 0
  }

  lemma FieldBytes(field: nat, b6: nat, b7: nat)
    requires b6 < 0x100 && b7 < 0x100 && field == 0x100 * b6 + b7
    ensures field / 0x2000 == b6 / 0x20 && field % 0x2000 == b6 % 0x20 * 0x100 + b7
  {
    assert field == 0x2000 * (b6 / 0x20) + (b6 % 0x20 * 0x100 + b7);
  }

  lemma PieceOnWire(f: Fragment, header: seq<byte>, data: seq<byte>, max: nat, id: nat, protocol: byte, src: seq<byte>, dst: seq<byte>, i: nat)
    requires max > 0 && i <= |data| / max && IsPiece(f, data, max, id, i) && |src| == 4 && |dst| == 4
    requires |header| == 20 && header[0] == 0x45 && header[1] == 0 && header[8] == 0xFF && header[9] == protocol
    requires header[12..16] == src && header[16..20] == dst && Checksum.RfcChecksum(header) == 0
    requires 0x100 * header[2] as nat + header[3] as nat == f.packetLength && 0x100 * header[4] as nat + header[5] as nat == f.id
    requires 0x100 * header[6] as nat + header[7] as nat == f.field
    ensures OnWire(header + f.payload, data, max, id, protocol, src, dst, i)
  {
    var b := header + f.payload;
    PieceStarts(|data|, max, i);
    FieldBytes(f.field, header[6] as nat, header[7] as nat);
    assert b[..20] == header && b[20..] == f.payload;
    assert b[12..16] == header[12..16] && b[16..20] == header[16..20];
  }

  /** ipv4_send, down to the packets that go out. */
  method SendPackets(data: seq<byte>, mtu: nat, id: nat, protocol: byte, src: seq<byte>, dst: seq<byte>) returns (packets: seq<seq<byte>>)
    requires |data| <= Checksum.MAX_PAYLOAD && mtu >= 28 && id < 0x1_0000 && |src| == 4 && |dst| == 4
    ensures (mtu - 20) / 8 * 8 > 0 && |packets| == |data| / ((mtu - 20) / 8 * 8) + 1
    ensures forall i :: 0 <= i < |packets| ==> OnWire(packets[i], data, (mtu - 20) / 8 * 8, id, protocol, src, dst, i)
  {
    var max := AlignDown(mtu - HEADER_SIZE, 8);
    assert max == (mtu - 20) / 8 * 8;
    var fs := Send(data, mtu, id);
    packets := [];
    while |packets| < |fs|
      invariant |packets| <= |fs|
      invariant forall i :: 0 <= i < |packets| ==> OnWire(packets[i], data, max, id, protocol, src, dst, i)
    {
      var f := fs[|packets|];
      assert IsPiece(f, data, max, id, |packets|);
      var header := FinishedHeader(f, protocol, src, dst);
      PieceOnWire(f, header, data, max, id, protocol, src, dst, |packets|);
      packets := packets + [header + f.payload];
    }
  }
}
