/** Local sockets over a ring buffer: a byte stream, or packets framed by a 32-bit length (SOCK_SEQPACKET). */
module SeqPacket {
  import opened Common
  import opened RingBuffer

  const CAPACITY: nat := 208 * 1024
  const HEADER: nat := 4

  // ---------------------------------------------------------------- frames

  /** A u32 as it lies in memory. */
  function Encode(n: nat): (b: seq<byte>)
    ensures |b| == HEADER
  {
    [(n % 0x100) as byte, (n / 0x100 % 0x100) as byte, (n / 0x1_0000 % 0x100) as byte, (n / 0x100_0000 % 0x100) as byte]
  }

  function Decode(b: seq<byte>): nat
    requires |b| == HEADER
  {
    b[0] as nat + 0x100 * b[1] as nat + 0x1_0000 * b[2] as nat + 0x100_0000 * b[3] as nat
  }

  /** A length as a u32. */
  function AsU32(n: nat): (w: nat)
    ensures n < 0x1_0000_0000 ==> w == n
  {
    n % 0x1_0000_0000
  }

  lemma DecodeEncode(n: nat)
    requires n < 0x1_0000_0000
    ensures Decode(Encode(n)) == n
  {
  }

  function Frame(message: seq<byte>): (f: seq<byte>)
    ensures |f| == HEADER + |message|
  {
    Encode(|message|) + message
  }

  /** What a buffer holding these messages looks like. */
  function Frames(messages: seq<seq<byte>>): seq<byte> {
    if messages == [] then [] else Frame(messages[0]) + Frames(messages[1..])
  }

  lemma {:induction false} FramesAppend(messages: seq<seq<byte>>, message: seq<byte>)
    ensures Frames(messages + [message]) == Frames(messages) + Frame(message)
  {
    if messages == [] {
      assert messages + [message] == [message];
      assert Frames([message]) == Frame(message) + Frames([]);
    } else {
      assert (messages + [message])[1..] == messages[1..] + [message];
      FramesAppend(messages[1..], message);
    }
  }

  function Flatten(parts: seq<seq<byte>>): seq<byte> {
    if parts == [] then [] else parts[0] + Flatten(parts[1..])
  }

  lemma {:induction false} FlattenAppend(parts: seq<seq<byte>>, part: seq<byte>)
    ensures Flatten(parts + [part]) == Flatten(parts) + part
  {
    if parts == [] {
      assert parts + [part] == [part];
      assert Flatten([part]) == part + Flatten([]);
    } else {
      assert (parts + [part])[1..] == parts[1..] + [part];
      FlattenAppend(parts[1..], part);
    }
  }

  lemma {:induction false} FlattenSplit(parts: seq<seq<byte>>, i: nat)
    requires i <= |parts|
    ensures Flatten(parts) == Flatten(parts[..i]) + Flatten(parts[i..])
  {
    if i == 0 {
      assert parts[..0] == [] && parts[0..] == parts;
    } else {
      FlattenSplit(parts[1..], i - 1);
      assert parts[..i][1..] == parts[1..][..i - 1] && parts[1..][i - 1..] == parts[i..];
    }
  }

  /** The bytes are a concatenation of whole frames. */
  ghost predicate Framed(bytes: seq<byte>) {
    exists messages: seq<seq<byte>> :: (forall m :: m in messages ==> |m| < 0x1_0000_0000) && Frames(messages) == bytes
  }

  /** A frame whose payload was cut short never becomes part of a concatenation of whole frames. */
  lemma {:induction false} CutFrame(before: seq<seq<byte>>, n: nat, part: seq<byte>, messages: seq<seq<byte>>)
    requires |part| < n < 0x1_0000_0000 && Frames(messages) == Frames(before) + (Encode(n) + part)
    requires forall m :: m in messages || m in before ==> |m| < 0x1_0000_0000
    ensures false
  {
    var whole := Frames(messages);
    assert messages != [];
    assert whole[..HEADER] == Encode(|messages[0]|);
    DecodeEncode(|messages[0]|);
    if before == [] {
      assert whole[..HEADER] == Encode(n);
      DecodeEncode(n);
    } else {
      var m := before[0];
      assert whole == Frame(m) + (Frames(before[1..]) + (Encode(n) + part));
      assert whole[..HEADER] == Encode(|m|);
      DecodeEncode(|m|);
      assert whole[HEADER + |m|..] == Frames(messages[1..]);
      assert whole[HEADER + |m|..] == Frames(before[1..]) + (Encode(n) + part);
      CutFrame(before[1..], n, part, messages[1..]);
    }
  }

  // ---------------------------------------------------------------- scatter and gather

  function Total(lengths: seq<nat>): nat {
    if lengths == [] then 0 else lengths[0] + Total(lengths[1..])
  }

  /** The chunks that a message of bytes fills buffers of the given lengths with. */
  function Scatter(bytes: seq<byte>, lengths: seq<nat>): (chunks: seq<seq<byte>>)
    ensures |chunks| == |lengths|
  {
    if lengths == [] then []
    else
      var n := Min(lengths[0], |bytes|);
      [bytes[..n]] + Scatter(bytes[n..], lengths[1..])
  }

  /** The buffers are filled with the longest prefix that fits. */
  lemma {:induction false} ScatterPrefix(bytes: seq<byte>, lengths: seq<nat>)
    ensures Flatten(Scatter(bytes, lengths)) == bytes[..Min(Total(lengths), |bytes|)]
    ensures forall i :: 0 <= i < |lengths| ==> |Scatter(bytes, lengths)[i]| <= lengths[i]
  {
    if lengths != [] {
      var n := Min(lengths[0], |bytes|);
      ScatterPrefix(bytes[n..], lengths[1..]);
      var k := Min(Total(lengths), |bytes|);
      assert bytes[..k] == bytes[..n] + bytes[n..][..k - n];
    }
  }

  lemma {:induction false} TotalStep(lengths: seq<nat>, i: nat)
    requires i < |lengths|
    ensures Total(lengths[..i + 1]) == Total(lengths[..i]) + lengths[i]
  {
    if i == 0 {
      assert lengths[..0] == [] && lengths[..1][1..] == [];
    } else {
      TotalStep(lengths[1..], i - 1);
      assert lengths[..i][1..] == lengths[1..][..i - 1] && lengths[..i + 1][1..] == lengths[1..][..i];
    }
  }

  /** The part of the bytes between two positions, as far as there are bytes. */
  function Chunk(bytes: seq<byte>, from: nat, n: nat): seq<byte> {
    bytes[Min(from, |bytes|)..Min(from + n, |bytes|)]
  }

  lemma ChunkShift(bytes: seq<byte>, first: nat, from: nat, n: nat)
    ensures Chunk(bytes[Min(first, |bytes|)..], from, n) == Chunk(bytes, first + from, n)
  {
    var k := Min(first, |bytes|);
    var rest := bytes[k..];
    var a, b := Min(from, |rest|), Min(from + n, |rest|);
    assert k + a == Min(first + from, |bytes|) && k + b == Min(first + from + n, |bytes|);
    assert rest[a..b] == bytes[k + a..k + b];
  }

  /** Chunk `i` goes on where the buffers before it stopped. */
  lemma {:induction false} ScatterChunk(bytes: seq<byte>, lengths: seq<nat>, i: nat)
    requires i < |lengths|
    ensures Scatter(bytes, lengths)[i] == Chunk(bytes, Total(lengths[..i]), lengths[i])
  {
    if i == 0 {
      assert lengths[..0] == [];
      assert bytes[0..Min(lengths[0], |bytes|)] == bytes[..Min(lengths[0], |bytes|)];
    } else {
      var tail := lengths[1..];
      ScatterChunk(bytes[Min(lengths[0], |bytes|)..], tail, i - 1);
      ScatterTail(bytes, lengths, i);
      TotalHead(lengths, i);
      ChunkShift(bytes, lengths[0], Total(tail[..i - 1]), lengths[i]);
    }
  }

  lemma ScatterStep(bytes: seq<byte>, lengths: seq<nat>, i: nat)
    requires i < |lengths|
    ensures var t := Min(Total(lengths[..i]), |bytes|);
            Scatter(bytes, lengths)[i] == bytes[t..t + Min(lengths[i], |bytes| - t)]
  {
    ScatterChunk(bytes, lengths, i);
  }

  lemma ScatterTail(bytes: seq<byte>, lengths: seq<nat>, i: nat)
    requires 0 < i < |lengths|
    ensures Scatter(bytes, lengths)[i] == Scatter(bytes[Min(lengths[0], |bytes|)..], lengths[1..])[i - 1]
  {
  }

  lemma TotalHead(lengths: seq<nat>, i: nat)
    requires 0 < i <= |lengths|
    ensures Total(lengths[..i]) == lengths[0] + Total(lengths[1..][..i - 1])
  {
    assert lengths[..i][1..] == lengths[1..][..i - 1];
  }

  lemma {:induction false} TotalMono(lengths: seq<nat>, i: nat, j: nat)
    requires i <= j <= |lengths|
    ensures Total(lengths[..i]) <= Total(lengths[..j])
    decreases j - i
  {
    if i < j {
      TotalStep(lengths, i);
      TotalMono(lengths, i + 1, j);
    }
  }

  /** Once the message is used up the remaining buffers get nothing. */
  lemma ScatterRest(bytes: seq<byte>, lengths: seq<nat>, i: nat)
    requires i <= |lengths| && Total(lengths[..i]) >= |bytes|
    ensures Scatter(bytes, lengths) == Scatter(bytes, lengths)[..i] + seq(|lengths| - i, _ => [])
    ensures Min(Total(lengths), |bytes|) == |bytes|
  {
    var chunks := Scatter(bytes, lengths);
    forall j | i <= j < |lengths|
      ensures chunks[j] == []
    {
      ScatterEmpty(bytes, lengths, i, j);
    }
    TotalMono(lengths, i, |lengths|);
    assert lengths[..|lengths|] == lengths;
  }

  lemma ScatterEmpty(bytes: seq<byte>, lengths: seq<nat>, i: nat, j: nat)
    requires i <= j < |lengths| && Total(lengths[..i]) >= |bytes|
    ensures Scatter(bytes, lengths)[j] == []
  {
    TotalMono(lengths, i, j);
    ScatterStep(bytes, lengths, j);
  }

  /** Part `i` of the gathered bytes. */
  lemma GatherStep(parts: seq<seq<byte>>, i: nat)
    requires i < |parts|
    ensures var t := |Flatten(parts[..i])|;
            && |Flatten(parts[..i + 1])| == t + |parts[i]| <= |Flatten(parts)|
            && Flatten(parts)[t..t + |parts[i]|] == parts[i]
  {
    FlattenSplit(parts, i + 1);
    assert parts[..i + 1] == parts[..i] + [parts[i]];
    FlattenAppend(parts[..i], parts[i]);
  }

  lemma PrefixGrows(before: seq<byte>, bytes: seq<byte>, t: nat, part: seq<byte>, n: nat)
    requires t + |part| <= |bytes| && bytes[t..t + |part|] == part && n <= |part|
    ensures before + bytes[..t] + part[..n] == before + bytes[..t + n]
  {
    assert bytes[t..t + |part|][..n] == bytes[t..t + n];
  }

  /** The copying loop of sendmsg: as much of the gathered bytes as there is room for. */
  method Gather(buffer: RingBuffer<byte>, parts: seq<seq<byte>>) returns (transferred: nat)
    requires buffer.Valid()
    modifies buffer, buffer.data
    ensures buffer.Valid() && transferred == Min(|Flatten(parts)|, buffer.size - |old(buffer.Contents())|)
    ensures buffer.Contents() == old(buffer.Contents()) + Flatten(parts)[..transferred]
  {
    transferred := 0;
    ghost var bytes, before := Flatten(parts), buffer.Contents();
    var i := 0;
    while i < |parts|
      invariant 0 <= i <= |parts| && buffer.Valid()
      invariant transferred == |Flatten(parts[..i])| <= |bytes| && buffer.Contents() == before + bytes[..transferred]
    {
      GatherStep(parts, i);
      if |parts[i]| != 0 {
        var n := buffer.Write(parts[i]);
        PrefixGrows(before, bytes, transferred, parts[i], n);
        transferred := transferred + n;
        if buffer.IsFull() {
          return;
        }
      }
      i := i + 1;
    }
    assert parts[..|parts|] == parts;
  }

  /** One read of the copying loop takes the next chunk of the message from the buffer. */
  lemma ChunkTaken(before: seq<byte>, bytes: seq<byte>, t: nat, length: nat, amount: nat)
    requires bytes <= before && t <= |bytes|
    requires amount == Min(length, |bytes| - t) || (amount == length && bytes == before)
    ensures var n := Min(amount, |before[t..]|);
            && n == Min(length, |bytes| - t)
            && before[t..][..n] == bytes[t..t + n] && before[t..][n..] == before[t + n..]
  {
  }

  ghost predicate Distributed(bytes: seq<byte>, lengths: seq<nat>, i: nat, chunks: seq<seq<byte>>, transferred: nat) {
    i <= |lengths| && transferred == Min(Total(lengths[..i]), |bytes|) && chunks == Scatter(bytes, lengths)[..i]
  }

  lemma DistributeNext(bytes: seq<byte>, lengths: seq<nat>, i: nat, chunks: seq<seq<byte>>, t: nat)
    requires Distributed(bytes, lengths, i, chunks, t) && i < |lengths|
    ensures var n := Min(lengths[i], |bytes| - t);
            Distributed(bytes, lengths, i + 1, chunks + [bytes[t..t + n]], t + n)
  {
    ScatterStep(bytes, lengths, i);
    TotalStep(lengths, i);
  }

  lemma DistributeDone(bytes: seq<byte>, lengths: seq<nat>, i: nat, chunks: seq<seq<byte>>, t: nat)
    requires Distributed(bytes, lengths, i, chunks, t) && (i == |lengths| || t == |bytes|)
    ensures chunks + seq(|lengths| - i, _ => []) == Scatter(bytes, lengths) && t == Min(Total(lengths), |bytes|)
  {
    if i == |lengths| {
      assert lengths[..i] == lengths;
    } else {
      ScatterRest(bytes, lengths, i);
    }
  }

  /** The copying loop of recvmsg; a packet limits what it takes from the buffer. */
  method Distribute(buffer: RingBuffer<byte>, lengths: seq<nat>, packet: Option<nat>, ghost bytes: seq<byte>)
    returns (chunks: seq<seq<byte>>, transferred: nat)
    requires buffer.Valid() && bytes <= buffer.Contents()
    requires if packet.Some? then packet.value == |bytes| else bytes == buffer.Contents()
    modifies buffer
    ensures buffer.Valid() && chunks == Scatter(bytes, lengths) && transferred == Min(Total(lengths), |bytes|)
    ensures buffer.Contents() == old(buffer.Contents())[transferred..]
  {
    ghost var before := buffer.Contents();
    chunks, transferred := [], 0;
    var i := 0;
    while i < |lengths|
      invariant 0 <= i <= |lengths| && buffer.Valid() && transferred <= |bytes|
      invariant Distributed(bytes, lengths, i, chunks, transferred) && buffer.Contents() == before[transferred..]
    {
      DistributeNext(bytes, lengths, i, chunks, transferred);
      var chunk := [];
      if lengths[i] != 0 {
        var amount := lengths[i];
        if packet.Some? {
          amount := Min(amount, packet.value - transferred);
          if amount == 0 {
            break;
          }
        }
        ChunkTaken(before, bytes, transferred, lengths[i], amount);
        chunk := buffer.Read(amount);
      }
      assert chunk == bytes[transferred..transferred + Min(lengths[i], |bytes| - transferred)];
      chunks, transferred, i := chunks + [chunk], transferred + |chunk|, i + 1;
      if lengths[i - 1] != 0 && buffer.IsEmpty() {
        break;
      }
    }
    DistributeDone(bytes, lengths, i, chunks, transferred);
    chunks := chunks + seq(|lengths| - i, _ => []);
  }

  /** The loop of sendmsg that adds up the length of a packet. */
  method PacketHeader(parts: seq<seq<byte>>) returns (header: seq<byte>)
    ensures header == Encode(AsU32(|Flatten(parts)|))
  {
    var length := 0;
    var i := 0;
    while i < |parts|
      invariant 0 <= i <= |parts| && length == |Flatten(parts[..i])|
    {
      GatherStep(parts, i);
      length, i := length + |parts[i]|, i + 1;
    }
    assert parts[..|parts|] == parts;
    header := Encode(AsU32(length));
  }

  /** The header, whose length the source asserts, and then as much of the payload as there is room for. */
  method WriteFrame(buffer: RingBuffer<byte>, header: seq<byte>, parts: seq<seq<byte>>) returns (n: Option<nat>)
    requires buffer.Valid() && |header| == HEADER
    modifies buffer, buffer.data
    ensures buffer.Valid() && (n.None? <==> buffer.size - |old(buffer.Contents())| < HEADER)
    ensures n.Some? ==> n.value == Min(|Flatten(parts)|, buffer.size - |old(buffer.Contents())| - HEADER)
    ensures n.Some? ==> buffer.Contents() == old(buffer.Contents()) + (header + Flatten(parts)[..n.value])
  {
    var written := buffer.Write(header);
    if written != HEADER {
      return None;
    }
    var count := Gather(buffer, parts);
    return Some(count);
  }

  /** Reading the header of the oldest frame. */
  method TakeHeader(buffer: RingBuffer<byte>, ghost message: seq<byte>, ghost rest: seq<byte>) returns (length: nat)
    requires buffer.Valid() && buffer.Contents() == Frame(message) + rest && |message| < 0x1_0000_0000
    modifies buffer
    ensures buffer.Valid() && length == |message| && buffer.Contents() == message + rest
  {
    var header := buffer.Read(HEADER);
    assert header == Encode(|message|);
    DecodeEncode(|message|);
    length := Decode(header);
  }

  lemma Remainder(message: seq<byte>, rest: seq<byte>, t: nat)
    requires t <= |message|
    ensures (message + rest)[t..] == message[t..] + rest && (message + rest)[t..][|message| - t..] == rest
  {
  }

  /** Taking the oldest frame: its header, as much of the payload as there are buffers for, and what is left of it. */
  method TakeFrame(buffer: RingBuffer<byte>, lengths: seq<nat>, ghost message: seq<byte>, ghost rest: seq<byte>)
    returns (chunks: seq<seq<byte>>, truncated: bool)
    requires buffer.Valid() && buffer.Contents() == Frame(message) + rest && |message| < 0x1_0000_0000
    modifies buffer
    ensures buffer.Valid() && buffer.Contents() == rest && chunks == Scatter(message, lengths)
    ensures truncated <==> Total(lengths) < |message|
    ensures Flatten(chunks) == message[..Min(Total(lengths), |message|)]
  {
    var length := TakeHeader(buffer, message, rest);
    var transferred;
    chunks, transferred := Distribute(buffer, lengths, Some(length), message);
    ScatterPrefix(message, lengths);
    Remainder(message, rest, transferred);
    truncated := transferred < length;
    if truncated {
      var dropped := buffer.Truncate(length - transferred);
    }
  }

  // ---------------------------------------------------------------- the socket

  datatype Sent = Transferred(count: nat) | SendWouldBlock | AssertionFailed

  datatype Received = Message(chunks: seq<seq<byte>>, truncated: bool) | ReceiveWouldBlock

  /** One direction of a connected pair: the ring buffer of the receiving socket. */
  class Channel {
    const seqpacket: bool
    const buffer: RingBuffer<byte>
    ghost var messages: seq<seq<byte>>   // of a seqpacket socket: sent and not yet received

    ghost predicate Valid()
      reads this, buffer, buffer.data
    {
      && buffer.Valid() && buffer.size == CAPACITY
      && (seqpacket ==> buffer.Contents() == Frames(messages) && forall m :: m in messages ==> |m| <= CAPACITY)
    }

    constructor (seqpacket: bool)
      ensures Valid() && this.seqpacket == seqpacket && messages == [] && buffer.Contents() == []
      ensures fresh(buffer) && fresh(buffer.data)
    {
      this.seqpacket := seqpacket;
      buffer := new RingBuffer(CAPACITY);
      messages := [];
    }

    /** sendmsg on a byte stream: a prefix of what was given, cut only by the room that is left. */
    method SendStream(parts: seq<seq<byte>>) returns (r: Sent)
      requires Valid() && !seqpacket
      modifies buffer, buffer.data
      ensures Valid() && (r.SendWouldBlock? <==> |old(buffer.Contents())| == CAPACITY) && !r.AssertionFailed?
      ensures r.Transferred? ==> r.count == Min(|Flatten(parts)|, CAPACITY - |old(buffer.Contents())|)
                                 && buffer.Contents() == old(buffer.Contents()) + Flatten(parts)[..r.count]
    {
      if buffer.IsFull() {
        return SendWouldBlock;
      }
      var n := Gather(buffer, parts);
      return Transferred(n);
    }

    /** recvmsg on a byte stream: the longest prefix that fits the buffers. */
    method ReceiveStream(lengths: seq<nat>) returns (r: Received)
      requires Valid() && !seqpacket
      modifies buffer
      ensures Valid() && (r.ReceiveWouldBlock? <==> |old(buffer.Contents())| == 0)
      ensures r.Message? ==> r.chunks == Scatter(old(buffer.Contents()), lengths) && !r.truncated
                             && buffer.Contents() == old(buffer.Contents())[Min(Total(lengths), |old(buffer.Contents())|)..]
    {
      if buffer.IsEmpty() {
        return ReceiveWouldBlock;
      }
      var chunks, transferred := Distribute(buffer, lengths, None, buffer.Contents());
      return Message(chunks, false);
    }

    /**
      sendmsg of a packet. It does not check that the frame fits: when it does, the message joins
      the queue; when it does not, the buffer is left with something that is not a row of frames, or
      the assertion on the header fails. The length in the header is that of a u32.
     */
    method SendPacket(parts: seq<seq<byte>>) returns (r: Sent)
      requires Valid() && seqpacket
      modifies this, buffer, buffer.data
      ensures buffer.Valid() && buffer.size == CAPACITY
      ensures r.SendWouldBlock? <==> |old(buffer.Contents())| == CAPACITY
      ensures r.SendWouldBlock? ==> Valid() && messages == old(messages)
      ensures r.AssertionFailed? <==> 0 < CAPACITY - |old(buffer.Contents())| < HEADER
      ensures r.Transferred? ==>
                var payload, room := Flatten(parts), CAPACITY - |old(buffer.Contents())| - HEADER;
                && r.count == Min(|payload|, room)
                && buffer.Contents() == old(buffer.Contents()) + (Encode(AsU32(|payload|)) + payload[..r.count])
                && (|payload| <= room ==> Valid() && messages == old(messages) + [payload])
                && (|payload| < 0x1_0000_0000 ==> (Framed(buffer.Contents()) <==> |payload| <= room))
    {
      if buffer.IsFull() {
        return SendWouldBlock;
      }
      var header := PacketHeader(parts);
      var n := WriteFrame(buffer, header, parts);
      if n.None? {
        return AssertionFailed;
      }
      PacketWritten(messages, Flatten(parts), n.value, buffer.Contents());
      if n.value == |Flatten(parts)| {
        messages := messages + [Flatten(parts)];
      }
      return Transferred(n.value);
    }

    /** recvmsg of a packet: the longest prefix of the oldest message that fits the buffers; the rest of it is dropped. */
    method ReceivePacket(lengths: seq<nat>) returns (r: Received)
      requires Valid() && seqpacket
      modifies this, buffer
      ensures Valid() && (r.ReceiveWouldBlock? <==> old(messages) == [])
      ensures r.ReceiveWouldBlock? ==> messages == old(messages)
      ensures r.Message? ==>
                && messages == old(messages)[1..] && r.chunks == Scatter(old(messages)[0], lengths)
                && (r.truncated <==> Total(lengths) < |old(messages)[0]|)
                && Flatten(r.chunks) == old(messages)[0][..Min(Total(lengths), |old(messages)[0]|)]
    {
      if buffer.IsEmpty() {
        return ReceiveWouldBlock;
      }
      assert messages[0] in messages;
      var chunks, truncated := TakeFrame(buffer, lengths, messages[0], Frames(messages[1..]));
      messages := messages[1..];
      return Message(chunks, truncated);
    }
  }

  /** The bytes behind a frame that was written as far as it fitted. */
  lemma SentFrame(messages: seq<seq<byte>>, payload: seq<byte>, n: nat)
    requires n <= |payload| < 0x1_0000_0000 && forall m :: m in messages ==> |m| <= CAPACITY
    ensures n == |payload| ==> Frames(messages) + (Encode(|payload|) + payload[..n]) == Frames(messages + [payload])
    ensures Framed(Frames(messages) + (Encode(|payload|) + payload[..n])) <==> n == |payload|
  {
    var bytes := Frames(messages) + (Encode(|payload|) + payload[..n]);
    if n == |payload| {
      FramesAppend(messages, payload);
      assert payload[..n] == payload;
      assert forall m :: m in messages + [payload] ==> |m| < 0x1_0000_0000;
    } else if whole :| (forall m :: m in whole ==> |m| < 0x1_0000_0000) && Frames(whole) == bytes {
      CutFrame(messages, |payload|, payload[..n], whole);
    }
  }

  lemma PacketWritten(messages: seq<seq<byte>>, payload: seq<byte>, n: nat, bytes: seq<byte>)
    requires n <= |payload| && n <= CAPACITY && forall m :: m in messages ==> |m| <= CAPACITY
    requires bytes == Frames(messages) + (Encode(AsU32(|payload|)) + payload[..n])
    ensures n == |payload| ==> bytes == Frames(messages + [payload])
    ensures |payload| < 0x1_0000_0000 ==> (Framed(bytes) <==> n == |payload|)
  {
    if |payload| < 0x1_0000_0000 {
      SentFrame(messages, payload, n);
    }
  }

  /** A packet with one byte more than there is room for ruins the row of frames. */
  method OversizedPacket() returns (channel: Channel, r: Sent)
    ensures channel.buffer.Valid() && r == Transferred(CAPACITY - HEADER) && !Framed(channel.buffer.Contents())
  {
    channel := new Channel(true);
    var payload: seq<byte> := seq(CAPACITY - HEADER + 1, _ => 0);
    OnePart(payload);
    r := channel.SendPacket([payload]);
  }

  /** A packet that leaves room for less than a header makes the next one fail its assertion. */
  method NoRoomForHeader(room: nat, next: seq<seq<byte>>) returns (channel: Channel, r: Sent)
    requires 0 < room < HEADER
    ensures r == AssertionFailed
  {
    channel := new Channel(true);
    var payload: seq<byte> := seq(CAPACITY - HEADER - room, _ => 0);
    OnePart(payload);
    r := channel.SendPacket([payload]);
    r := channel.SendPacket(next);
  }

  lemma OnePart(payload: seq<byte>)
    ensures Flatten([payload]) == payload
  {
    assert Flatten([payload]) == payload + Flatten([]);
  }

  // ---------------------------------------------------------------- whole runs

  datatype Action = Send(parts: seq<seq<byte>>) | Receive(lengths: seq<nat>)

  /** What a receive was given and what it returned. */
  datatype Delivery = Delivery(lengths: seq<nat>, received: Received)

  /** A send that finds the buffer full is refused; any other needs room for its frame. */
  predicate Fits(queue: seq<seq<byte>>, a: Action) {
    a.Send? && |Frames(queue)| < CAPACITY ==> |Frames(queue)| + HEADER + |Flatten(a.parts)| <= CAPACITY
  }

  function Accepted(queue: seq<seq<byte>>, a: Action): seq<seq<byte>> {
    if a.Send? && |Frames(queue)| < CAPACITY then [Flatten(a.parts)] else []
  }

  function Delivered(queue: seq<seq<byte>>, a: Action): seq<Delivery> {
    if a.Receive? && queue != [] then
      [Delivery(a.lengths, Message(Scatter(queue[0], a.lengths), Total(a.lengths) < |queue[0]|))]
    else []
  }

  function QueueNext(queue: seq<seq<byte>>, a: Action): seq<seq<byte>> {
    if a.Receive? && queue != [] then queue[1..] else queue + Accepted(queue, a)
  }

  /** Messages accepted, messages delivered, and the queue, after some actions. */
  datatype Traffic = Traffic(sent: seq<seq<byte>>, received: seq<Delivery>, queue: seq<seq<byte>>)

  function TrafficNext(t: Traffic, a: Action): Traffic {
    Traffic(t.sent + Accepted(t.queue, a), t.received + Delivered(t.queue, a), QueueNext(t.queue, a))
  }

  function After(queue: seq<seq<byte>>, actions: seq<Action>): Traffic {
    if actions == [] then Traffic([], [], queue)
    else TrafficNext(After(queue, actions[..|actions| - 1]), actions[|actions| - 1])
  }

  lemma AfterNext(queue: seq<seq<byte>>, actions: seq<Action>, i: nat)
    requires i < |actions|
    ensures After(queue, actions[..i + 1]) == TrafficNext(After(queue, actions[..i]), actions[i])
  {
    assert actions[..i + 1][..i] == actions[..i];
  }

  /** Each of the first actions finds room. */
  predicate AllFit(queue: seq<seq<byte>>, actions: seq<Action>, n: nat)
    requires n <= |actions|
  {
    forall i :: 0 <= i < n ==> Fits(After(queue, actions[..i]).queue, actions[i])
  }

  /** A receive fills its buffers with the message and says exactly when some of it was dropped. */
  predicate Delivers(d: Delivery, message: seq<byte>) {
    d.received == Message(Scatter(message, d.lengths), Total(d.lengths) < |message|)
  }

  /** The k-th message received is the k-th one sent, and the messages behind it are queued. */
  ghost predicate Accounted(queue: seq<seq<byte>>, t: Traffic) {
    && |t.received| <= |queue| + |t.sent| && (queue + t.sent)[|t.received|..] == t.queue
    && forall k :: 0 <= k < |t.received| ==> Delivers(t.received[k], (queue + t.sent)[k])
  }

  lemma AccountSent(queue: seq<seq<byte>>, t: Traffic, message: seq<byte>)
    requires Accounted(queue, t)
    ensures Accounted(queue, Traffic(t.sent + [message], t.received, t.queue + [message]))
  {
    assert queue + (t.sent + [message]) == (queue + t.sent) + [message];
  }

  lemma AccountReceived(queue: seq<seq<byte>>, t: Traffic, d: Delivery)
    requires Accounted(queue, t) && t.queue != [] && Delivers(d, t.queue[0])
    ensures Accounted(queue, Traffic(t.sent, t.received + [d], t.queue[1..]))
  {
    assert t.queue[0] == (queue + t.sent)[|t.received|];
  }

  /** So it is in any run. */
  lemma {:induction false} InOrder(queue: seq<seq<byte>>, actions: seq<Action>)
    ensures Accounted(queue, After(queue, actions))
  {
    if actions != [] {
      var a, t := actions[|actions| - 1], After(queue, actions[..|actions| - 1]);
      InOrder(queue, actions[..|actions| - 1]);
      assert t.sent + [] == t.sent && t.received + [] == t.received && t.queue + [] == t.queue;
      if Accepted(t.queue, a) != [] {
        AccountSent(queue, t, Accepted(t.queue, a)[0]);
      } else if Delivered(t.queue, a) != [] {
        AccountReceived(queue, t, Delivered(t.queue, a)[0]);
      }
    }
  }

  predicate Fitting(channel: Channel, a: Action): (fits: bool)
    requires channel.Valid() && channel.seqpacket
    reads channel, channel.buffer, channel.buffer.data
    ensures fits <==> Fits(channel.messages, a)
  {
    a.Send? && channel.buffer.FreeCount() > 0 ==> HEADER + |Flatten(a.parts)| <= channel.buffer.FreeCount()
  }

  /** Runs the actions, up to the first packet that does not fit. */
  method Run(channel: Channel, actions: seq<Action>) returns (done: nat, sent: seq<seq<byte>>, received: seq<Delivery>)
    requires channel.Valid() && channel.seqpacket
    modifies channel, channel.buffer, channel.buffer.data
    ensures channel.Valid() && done <= |actions| && Traffic(sent, received, channel.messages) == After(old(channel.messages), actions[..done])
    ensures Accounted(old(channel.messages), Traffic(sent, received, channel.messages))
    ensures AllFit(old(channel.messages), actions, done) && (done < |actions| ==> !Fits(channel.messages, actions[done]))
  {
    sent, received, done := [], [], 0;
    while done < |actions|
      invariant done <= |actions| && channel.Valid()
      invariant Traffic(sent, received, channel.messages) == After(old(channel.messages), actions[..done])
      invariant AllFit(old(channel.messages), actions, done)
    {
      AfterNext(old(channel.messages), actions, done);
      InOrder(old(channel.messages), actions[..done]);
      if !Fitting(channel, actions[done]) {
        return;
      }
      var accepted, delivered := Perform(channel, actions[done]);
      sent, received := sent + accepted, received + delivered;
      done := done + 1;
    }
    InOrder(old(channel.messages), actions[..done]);
  }

  /** One action; a packet that does not fit is not sent. */
  method Perform(channel: Channel, a: Action) returns (accepted: seq<seq<byte>>, delivered: seq<Delivery>)
    requires channel.Valid() && channel.seqpacket && Fits(channel.messages, a)
    modifies channel, channel.buffer, channel.buffer.data
    ensures channel.Valid() && channel.messages == QueueNext(old(channel.messages), a)
    ensures accepted == Accepted(old(channel.messages), a) && delivered == Delivered(old(channel.messages), a)
  {
    accepted, delivered := [], [];
    match a
    case Send(parts) =>
      var r := channel.SendPacket(parts);
      if r.Transferred? {
        accepted := [Flatten(parts)];
      }
    case Receive(lengths) =>
      var r := channel.ReceivePacket(lengths);
      if r.Message? {
        delivered := [Delivery(lengths, r)];
      }
  }
}
