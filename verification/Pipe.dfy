/** Pipes: bytes come out as they went in, and the ends are counted. */
module Pipe {
  import opened Common
  import opened RingBuffer

  /** The ends of a pipe that a description holds, from its access mode. */
  datatype Ends = Ends(canRead: bool, canWrite: bool)

  /** What read and write return at once; Blocks is where the source waits for the pipe's event. */
  datatype Result = Bytes(bytes: seq<byte>) | Count(count: nat) | BrokenPipe | WouldBlock | Blocks | Changed | Refused

  class Pipe {
    const buffer: RingBuffer<byte>
    var readers: nat
    var writers: nat
    ghost var accepted: seq<byte>
    ghost var delivered: seq<byte>

    ghost predicate Valid()
      reads this, buffer, buffer.data
    {
      buffer.Valid() && accepted == delivered + buffer.Contents()
    }

    constructor (capacity: nat)
      requires capacity > 0
      ensures Valid() && readers == 0 && writers == 0 && accepted == [] && fresh(buffer) && fresh(buffer.data)
    {
      buffer := new RingBuffer(capacity);
      readers, writers := 0, 0;
      accepted, delivered := [], [];
    }

    method Open(ends: Ends)
      requires Valid()
      modifies this`readers, this`writers
      ensures Valid()
      ensures readers == old(readers) + (if ends.canRead then 1 else 0)
      ensures writers == old(writers) + (if ends.canWrite then 1 else 0)
    {
      if ends.canRead {
        readers := readers + 1;
      }
      if ends.canWrite {
        writers := writers + 1;
      }
    }

    method Close(ends: Ends)
      requires Valid() && (ends.canRead ==> readers > 0) && (ends.canWrite ==> writers > 0)
      modifies this`readers, this`writers
      ensures Valid()
      ensures readers == old(readers) - (if ends.canRead then 1 else 0)
      ensures writers == old(writers) - (if ends.canWrite then 1 else 0)
    {
      if ends.canRead {
        readers := readers - 1;
      }
      if ends.canWrite {
        writers := writers - 1;
      }
    }

    /** End of file is reported only when everything accepted has been delivered and no writer is left. */
    method Read(count: nat, nonblock: bool) returns (r: Result)
      requires Valid()
      modifies this, buffer
      ensures Valid() && accepted == old(accepted) && readers == old(readers) && writers == old(writers)
      ensures r.Bytes? ==> delivered == old(delivered) + r.bytes && |r.bytes| <= count
      ensures !r.Bytes? ==> delivered == old(delivered)
      ensures r.Bytes? && r.bytes == [] ==> count == 0 || (writers == 0 && delivered == accepted)
      ensures r.WouldBlock? || r.Blocks? <==> old(delivered) == accepted && writers > 0
      ensures r.Bytes? || r.WouldBlock? || r.Blocks?
      ensures r.Bytes? ==> r.bytes == old(buffer.Contents())[..Min(count, |old(buffer.Contents())|)]
      ensures buffer.Contents() == if r.Bytes? then old(buffer.Contents())[|r.bytes|..] else old(buffer.Contents())
      ensures (r.WouldBlock? ==> nonblock) && (r.Blocks? ==> !nonblock)
    {
      if buffer.IsEmpty() {
        if writers == 0 {
          return Bytes([]);
        }
        return if nonblock then WouldBlock else Blocks;
      }
      var bytes := buffer.Read(count);
      delivered := delivered + bytes;
      return Bytes(bytes);
    }

    /** What is accepted is a prefix, cut only by the room that is left. */
    method Write(bytes: seq<byte>, nonblock: bool) returns (r: Result)
      requires Valid()
      modifies this, buffer, buffer.data
      ensures Valid() && delivered == old(delivered) && readers == old(readers) && writers == old(writers)
      ensures r.Count? ==> r.count <= |bytes| && accepted == old(accepted) + bytes[..r.count]
      ensures r.Count? ==> r.count == Min(|bytes|, buffer.size - (|old(accepted)| - |delivered|))
      ensures !r.Count? ==> accepted == old(accepted)
      ensures r.BrokenPipe? <==> readers == 0
      ensures r.WouldBlock? || r.Blocks? <==> readers > 0 && |old(accepted)| - |delivered| == buffer.size
      ensures r.Count? || r.BrokenPipe? || r.WouldBlock? || r.Blocks?
      ensures buffer.Contents() == if r.Count? then old(buffer.Contents()) + bytes[..r.count] else old(buffer.Contents())
      ensures (r.WouldBlock? ==> nonblock) && (r.Blocks? ==> !nonblock)
    {
      if readers == 0 {
        return BrokenPipe;
      }
      if buffer.IsFull() {
        return if nonblock then WouldBlock else Blocks;
      }
      var count := buffer.Write(bytes);
      accepted := accepted + bytes[..count];
      return Count(count);
    }
  }

  // ---------------------------------------------------------------- whole runs

  datatype Action = Put(bytes: seq<byte>, nonblock: bool) | Get(count: nat, nonblock: bool) | Attach(ends: Ends) | Detach(ends: Ends)

  /** What a run has done: the results so far, the bytes that went in and came out, and the state. */
  datatype Traffic = Traffic(results: seq<Result>, sent: seq<byte>, received: seq<byte>, readers: nat, writers: nat, queue: seq<byte>)

  /** What an action returns; no description closes an end that is not open. */
  function Response(t: Traffic, size: nat, a: Action): Result {
    match a
    case Put(bytes, nonblock) =>
      if t.readers == 0 then BrokenPipe
      else if |t.queue| >= size then (if nonblock then WouldBlock else Blocks)
      else Count(Min(|bytes|, size - |t.queue|))
    case Get(count, nonblock) =>
      if t.queue == [] && t.writers > 0 then (if nonblock then WouldBlock else Blocks)
      else Bytes(t.queue[..Min(count, |t.queue|)])
    case Attach(ends) => Changed
    case Detach(ends) => if (ends.canRead ==> t.readers > 0) && (ends.canWrite ==> t.writers > 0) then Changed else Refused
  }

  function BytesIn(a: Action, r: Result): seq<byte> {
    if a.Put? && r.Count? && r.count <= |a.bytes| then a.bytes[..r.count] else []
  }

  function BytesOut(r: Result): seq<byte> {
    if r.Bytes? then r.bytes else []
  }

  function QueueNext(queue: seq<byte>, a: Action, r: Result): seq<byte> {
    if r.Count? then queue + BytesIn(a, r)
    else if r.Bytes? && |r.bytes| <= |queue| then queue[|r.bytes|..]
    else queue
  }

  /** The number of open ends of one kind. */
  function EndsNext(n: nat, concerned: bool, a: Action, r: Result): nat {
    if !concerned || !r.Changed? then n else if a.Attach? then n + 1 else if n > 0 then n - 1 else 0
  }

  function EndsOf(a: Action): Ends {
    if a.Attach? || a.Detach? then a.ends else Ends(false, false)
  }

  function Next(t: Traffic, size: nat, a: Action): Traffic {
    var r := Response(t, size, a);
    Traffic(t.results + [r], t.sent + BytesIn(a, r), t.received + BytesOut(r), EndsNext(t.readers, EndsOf(a).canRead, a, r),
            EndsNext(t.writers, EndsOf(a).canWrite, a, r), QueueNext(t.queue, a, r))
  }

  function After(t: Traffic, size: nat, actions: seq<Action>): Traffic {
    if actions == [] then t else Next(After(t, size, actions[..|actions| - 1]), size, actions[|actions| - 1])
  }

  lemma Conserved(before: seq<byte>, sent: seq<byte>, received: seq<byte>, queue: seq<byte>, into: seq<byte>, out: seq<byte>)
    requires before + sent == received + queue && out <= queue
    ensures before + (sent + into) == (received + out) + (queue[|out|..] + into)
  {
    assert before + (sent + into) == (before + sent) + into;
    assert (received + out) + (queue[|out|..] + into) == received + (out + queue[|out|..]) + into;
    assert out + queue[|out|..] == queue;
  }

  lemma StepInOrder(before: seq<byte>, t: Traffic, size: nat, a: Action)
    requires before + t.sent == t.received + t.queue
    ensures var u := Next(t, size, a); before + u.sent == u.received + u.queue
  {
    var r := Response(t, size, a);
    Conserved(before, t.sent, t.received, t.queue, BytesIn(a, r), BytesOut(r));
    assert QueueNext(t.queue, a, r) == t.queue[|BytesOut(r)|..] + BytesIn(a, r);
  }

  /** In any run the bytes that went in are those that came out followed by those still queued, in order. */
  lemma {:induction false} InOrder(before: seq<byte>, t: Traffic, size: nat, actions: seq<Action>)
    requires before + t.sent == t.received + t.queue
    ensures var u := After(t, size, actions); before + u.sent == u.received + u.queue
  {
    if actions != [] {
      InOrder(before, t, size, actions[..|actions| - 1]);
      StepInOrder(before, After(t, size, actions[..|actions| - 1]), size, actions[|actions| - 1]);
    }
  }

  /** Each result of a run is the response to its action in the state the actions before it led to. */
  lemma {:induction false} ResultsAre(t: Traffic, size: nat, actions: seq<Action>, i: nat)
    requires i < |actions|
    ensures |After(t, size, actions).results| == |t.results| + |actions|
    ensures After(t, size, actions).results[|t.results| + i] == Response(After(t, size, actions[..i]), size, actions[i])
  {
    var init := actions[..|actions| - 1];
    if |init| > 0 {
      ResultsAre(t, size, init, if i < |init| then i else 0);
    }
    if i < |init| {
      assert init[..i] == actions[..i];
    } else {
      assert init == actions[..i];
    }
  }

  /**
    End of file, in any run: the i-th action, a read that asked for something, gets nothing exactly
    when every byte that went in before it has come out and no writer is left.
   */
  lemma EndOfFile(before: seq<byte>, t: Traffic, size: nat, actions: seq<Action>, i: nat)
    requires before + t.sent == t.received + t.queue && t.results == []
    requires i < |actions| && actions[i].Get? && actions[i].count > 0
    ensures |After(t, size, actions).results| == |actions|
    ensures var u := After(t, size, actions[..i]);
            After(t, size, actions).results[i] == Bytes([]) <==> before + u.sent == u.received && u.writers == 0
  {
    ResultsAre(t, size, actions, i);
    InOrder(before, t, size, actions[..i]);
    var u := After(t, size, actions[..i]);
    assert |before + u.sent| == |u.received| + |u.queue|;
    assert u.queue == [] ==> u.received + u.queue == u.received;
  }

  /** One action on a pipe. */
  method Perform(pipe: Pipe, ghost t: Traffic, a: Action) returns (r: Result)
    requires pipe.Valid() && Pictures(t, pipe)
    modifies pipe, pipe.buffer, pipe.buffer.data
    ensures pipe.Valid() && r == Response(t, pipe.buffer.size, a) && Pictures(Next(t, pipe.buffer.size, a), pipe)
  {
    match a
    case Put(bytes, nonblock) => r := pipe.Write(bytes, nonblock);
    case Get(count, nonblock) => r := pipe.Read(count, nonblock);
    case Attach(ends) =>
      pipe.Open(ends);
      r := Changed;
    case Detach(ends) =>
      r := Refused;
      if (ends.canRead ==> pipe.readers > 0) && (ends.canWrite ==> pipe.writers > 0) {
        pipe.Close(ends);
        r := Changed;
      }
  }

  ghost predicate Pictures(t: Traffic, pipe: Pipe)
    requires pipe.buffer.Valid()
    reads pipe, pipe.buffer, pipe.buffer.data
  {
    t.readers == pipe.readers && t.writers == pipe.writers && t.queue == pipe.buffer.Contents()
  }

  /** The results, the bytes in and the bytes out of a run are exactly what the actions make of the pipe. */
  method Run(pipe: Pipe, actions: seq<Action>) returns (results: seq<Result>, sent: seq<byte>, received: seq<byte>)
    requires pipe.Valid()
    modifies pipe, pipe.buffer, pipe.buffer.data
    ensures pipe.Valid()
    ensures Traffic(results, sent, received, pipe.readers, pipe.writers, pipe.buffer.Contents()) ==
            After(Traffic([], [], [], old(pipe.readers), old(pipe.writers), old(pipe.buffer.Contents())), pipe.buffer.size, actions)
    ensures old(pipe.buffer.Contents()) + sent == received + pipe.buffer.Contents()
  {
    results, sent, received := [], [], [];
    ghost var t0 := Traffic([], [], [], pipe.readers, pipe.writers, pipe.buffer.Contents());
    ghost var t := t0;
    var i := 0;
    while i < |actions|
      invariant 0 <= i <= |actions| && pipe.Valid() && t == After(t0, pipe.buffer.size, actions[..i]) && Pictures(t, pipe)
      invariant t.results == results && t.sent == sent && t.received == received
    {
      assert actions[..i + 1][..i] == actions[..i];
      var r := Perform(pipe, t, actions[i]);
      t := Next(t, pipe.buffer.size, actions[i]);
      results, sent, received := results + [r], sent + BytesIn(actions[i], r), received + BytesOut(r);
      i := i + 1;
    }
    assert actions[..|actions|] == actions;
    InOrder(t0.queue, t0, pipe.buffer.size, actions);
  }
}
