/**
  The virtio block queue: driver and device take turns on a split virtqueue (section 2.7 of
  VIRTIO 1.2). Each request is one chain of three descriptors.
 */
module Virtio {
  import opened Common

  const LENGTH: nat := 128
  const REQUESTS: nat := 85         // PAGE_SIZE / sizeof(Request)
  const WRAP: nat := 0x1_0000       // the ring indices are 16 bits wide

  const FLAG_NEXT: nat := 1
  const FLAG_DEVICE_WRITE: nat := 2

  datatype Direction = Read | Write

  /** The part of a request that the device reads first: what to do, and from which sector on. */
  datatype RequestHeader = RequestHeader(out: bool, sector: nat)

  /** What a descriptor points to. */
  datatype Address = Nowhere | Header(request: nat) | Page(phy: nat) | Status(request: nat)

  datatype Buffer = Buffer(address: Address, length: nat, flags: nat)

  /** The shared memory and the driver's own variables. Field `next` of the descriptors is kept apart from the rest. */
  datatype Queue = Queue(
    next: seq<nat>,
    buffers: seq<Buffer>,
    freeHead: nat,
    numFree: nat,
    avail: seq<nat>,
    availIndex: nat,
    used: seq<nat>,
    usedIndex: nat,
    lastSeenUsed: nat,
    requestNext: seq<nat>,         // REQUESTS stands for a null pointer
    firstFreeRequest: nat,
    headers: seq<RequestHeader>,
    deviceIndex: nat,              // the device's own position in the available ring
    held: seq<nat>,                // the chains the device is working on
    world: World)

  /** The bytes of the device and those of the memory that pages for transfers are in. */
  datatype World = World(disk: seq<byte>, ram: seq<byte>)

  /** One call of read_write_block: a page of memory to or from a block of the device. */
  datatype Transfer = Transfer(block: nat, phy: nat, direction: Direction)

  datatype Chain = Chain(first: nat, second: nat, third: nat, request: nat, transfer: Transfer)

  datatype Stage = Pending | Taken | Done

  /** What has happened so far; every submission has a serial number. */
  datatype History = History(
    free: seq<nat>,
    requests: seq<nat>,
    owner: seq<Option<nat>>,
    requestOwner: seq<Option<nat>>,
    chains: map<nat, Chain>,
    stage: map<nat, Stage>,
    pending: seq<nat>,             // submitted, not yet read by the device
    taken: seq<nat>,               // read by the device
    done: seq<nat>,                // returned by the device, not yet handled
    submitted: nat,
    called: seq<nat>,              // callbacks invoked
    world: World)

  // ---------------------------------------------------------------- linked free lists

  function Nth(l: seq<nat>, i: nat, end: nat): nat {
    if i < |l| then l[i] else end
  }

  /** Following `next` from `head` visits exactly `l` and then leaves the array. */
  ghost predicate Linked(next: seq<nat>, head: nat, l: seq<nat>) {
    && head == Nth(l, 0, |next|)
    && (forall i {:trigger LinkOk(next, l, i)} :: 0 <= i < |l| ==> LinkOk(next, l, i))
  }

  ghost predicate LinkOk(next: seq<nat>, l: seq<nat>, i: nat)
    requires i < |l|
  {
    l[i] < |next| && next[l[i]] == Nth(l, i + 1, |next|)
  }

  lemma LinkedPop(next: seq<nat>, head: nat, l: seq<nat>)
    requires Linked(next, head, l) && l != []
    ensures head < |next| && head == l[0] && Linked(next, next[head], l[1..])
  {
    var t := l[1..];
    assert LinkOk(next, l, 0);
    forall i | 0 <= i < |t|
      ensures LinkOk(next, t, i)
    {
      assert LinkOk(next, l, i + 1);
    }
  }

  lemma LinkedPush(next: seq<nat>, head: nat, l: seq<nat>, i: nat)
    requires Linked(next, head, l) && i < |next| && i !in l
    ensures Linked(next[i := head], i, [i] + l)
  {
    var t, next' := [i] + l, next[i := head];
    forall k: nat | k < |t|
      ensures LinkOk(next', t, k)
    {
      if k > 0 {
        assert LinkOk(next, l, k - 1) && l[k - 1] in l;
      }
    }
  }

  lemma LinkedFrame(next: seq<nat>, head: nat, l: seq<nat>, i: nat, v: nat)
    requires Linked(next, head, l) && i < |next| && i !in l
    ensures Linked(next[i := v], head, l)
  {
    var next' := next[i := v];
    forall k: nat | k < |l|
      ensures LinkOk(next', l, k)
    {
      assert LinkOk(next, l, k) && l[k] in l;
    }
  }

  // ---------------------------------------------------------------- the invariant

  function InFlight(h: History): nat {
    |h.pending| + |h.taken| + |h.done|
  }

  ghost predicate Shape(q: Queue, h: History) {
    && |q.next| == LENGTH && |q.buffers| == LENGTH && |q.avail| == LENGTH && |q.used| == LENGTH
    && |q.requestNext| == REQUESTS && |q.headers| == REQUESTS
    && |h.owner| == LENGTH && |h.requestOwner| == REQUESTS
  }

  /** One acyclic free list of exactly `num_free_descs` indices, holding just the descriptors of no chain. */
  ghost predicate FreeOk(q: Queue, h: History) {
    && Linked(q.next, q.freeHead, h.free) && NoDup(h.free) && q.numFree == |h.free|
    && |h.owner| == LENGTH && (forall d: nat :: d in h.free <==> d < LENGTH && h.owner[d] == None)
  }

  ghost predicate RequestsOk(q: Queue, h: History) {
    && Linked(q.requestNext, q.firstFreeRequest, h.requests) && NoDup(h.requests)
    && |h.requestOwner| == REQUESTS && (forall r: nat :: r in h.requests <==> r < REQUESTS && h.requestOwner[r] == None)
  }

  /** A chain as the device must see it: three descriptors, of which the first two say that there is a next one. */
  ghost predicate ChainOk(q: Queue, h: History, s: nat)
    requires s in h.chains && Shape(q, h)
  {
    var c := h.chains[s];
    && c.first < LENGTH && c.second < LENGTH && c.third < LENGTH && c.request < REQUESTS
    && c.first != c.second && c.first != c.third && c.second != c.third
    && h.owner[c.first] == Some(s) && h.owner[c.second] == Some(s) && h.owner[c.third] == Some(s)
    && h.requestOwner[c.request] == Some(s)
    && q.next[c.first] == c.second && q.next[c.second] == c.third
    && q.buffers[c.first] == HeaderBuffer(c.request)
    && q.buffers[c.second] == PageBuffer(c.transfer) && q.headers[c.request] == HeaderOf(c.transfer)
    && q.buffers[c.third] == Buffer(Status(c.request), 1, FLAG_DEVICE_WRITE)
  }

  ghost predicate ChainsOk(q: Queue, h: History)
    requires Shape(q, h)
  {
    forall s {:trigger ChainOk(q, h, s)} :: s in h.chains ==> ChainOk(q, h, s)
  }

  ghost predicate OwnedOk(h: History, d: nat)
    requires |h.owner| == LENGTH && d < LENGTH
  {
    match h.owner[d]
    case None => true
    case Some(s) => s in h.chains && (d == h.chains[s].first || d == h.chains[s].second || d == h.chains[s].third)
  }

  ghost predicate RequestOwnedOk(h: History, r: nat)
    requires |h.requestOwner| == REQUESTS && r < REQUESTS
  {
    match h.requestOwner[r]
    case None => true
    case Some(s) => s in h.chains && r == h.chains[s].request
  }

  ghost predicate OwnersOk(h: History) {
    && |h.owner| == LENGTH && |h.requestOwner| == REQUESTS
    && (forall d: nat {:trigger OwnedOk(h, d)} :: d < LENGTH ==> OwnedOk(h, d))
    && (forall r: nat {:trigger RequestOwnedOk(h, r)} :: r < REQUESTS ==> RequestOwnedOk(h, r))
  }

  ghost predicate StageList(h: History, l: seq<nat>, stage: Stage) {
    && NoDup(l)
    && (forall s :: s in l <==> s in h.stage && h.stage[s] == stage)
  }

  ghost predicate StagesOk(h: History) {
    && h.stage.Keys == h.chains.Keys
    && StageList(h, h.pending, Pending) && StageList(h, h.taken, Taken) && StageList(h, h.done, Done)
  }

  /** Slot (from + i) mod LENGTH of the ring holds the first descriptor of the i-th chain of the list. */
  ghost predicate RingOk(ring: seq<nat>, from: nat, l: seq<nat>, chains: map<nat, Chain>) {
    && |ring| == LENGTH
    && (forall i: nat {:trigger SlotOk(ring, from, l, chains, i)} :: i < |l| ==> SlotOk(ring, from, l, chains, i))
  }

  ghost predicate SlotOk(ring: seq<nat>, from: nat, l: seq<nat>, chains: map<nat, Chain>, i: nat)
    requires i < |l| && |ring| == LENGTH
  {
    l[i] in chains && ring[(from + i) % LENGTH] == chains[l[i]].first
  }

  ghost predicate AvailOk(ring: seq<nat>, index: nat, deviceIndex: nat, submitted: nat, l: seq<nat>, chains: map<nat, Chain>) {
    && |l| <= submitted && index == submitted % WRAP && deviceIndex == (submitted - |l|) % WRAP
    && RingOk(ring, submitted - |l|, l, chains)
  }

  ghost predicate UsedOk(ring: seq<nat>, index: nat, seen: nat, handled: nat, l: seq<nat>, chains: map<nat, Chain>) {
    && index == (handled + |l|) % WRAP && seen == handled % LENGTH
    && RingOk(ring, handled, l, chains)
  }

  /** Position `seen` is where the driver goes on reading the used ring. */
  ghost predicate RingsOk(q: Queue, h: History, seen: nat) {
    && AvailOk(q.avail, q.availIndex, q.deviceIndex, h.submitted, h.pending, h.chains)
    && UsedOk(q.used, q.usedIndex, seen, |h.called|, h.done, h.chains)
  }

  ghost predicate HeldAt(held: seq<nat>, h: History, k: nat)
    requires k < |held| == |h.taken|
  {
    h.taken[k] in h.chains && held[k] == h.chains[h.taken[k]].first
  }

  /** The device knows the chains it has read by their first descriptors. */
  ghost predicate HeldOk(held: seq<nat>, h: History) {
    |held| == |h.taken| && forall k: nat {:trigger HeldAt(held, h, k)} :: k < |held| ==> HeldAt(held, h, k)
  }

  /** Every descriptor and every request is accounted for. */
  ghost predicate CountsOk(h: History) {
    |h.free| + 3 * InFlight(h) == LENGTH && |h.requests| + InFlight(h) == REQUESTS
  }

  /** Of the requests submitted so far, exactly those not in flight have been called back, and each once. */
  ghost predicate CalledOk(h: History) {
    && NoDup(h.called)
    && (forall s: nat :: s in h.called <==> s < h.submitted && s !in h.chains)
    && (forall s :: s in h.chains ==> s < h.submitted)
  }

  ghost predicate Clauses(q: Queue, h: History, seen: nat) {
    && Shape(q, h) && FreeOk(q, h) && RequestsOk(q, h) && ChainsOk(q, h) && OwnersOk(h)
    && StagesOk(h) && RingsOk(q, h, seen) && HeldOk(q.held, h) && CountsOk(h) && CalledOk(h) && q.world == h.world
  }

  ghost predicate Inv(q: Queue, h: History, seen: nat) {
    Clauses(q, h, seen) == true
  }

  /** At most 42 chains are outstanding and the request pool never runs out. */
  lemma Bounded(q: Queue, h: History, seen: nat)
    requires Inv(q, h, seen)
    ensures InFlight(h) <= 42 && |h.requests| >= 43
  {
  }

  // ---------------------------------------------------------------- the driver's helpers

  /** alloc_descriptor takes the first element of the free list; LENGTH means that there is none. */
  method AllocDescriptor(q0: Queue, ghost l: seq<nat>) returns (index: nat, q: Queue)
    requires |q0.next| == LENGTH && Linked(q0.next, q0.freeHead, l) && q0.numFree == |l|
    ensures index == Nth(l, 0, LENGTH)
    ensures q == q0.(freeHead := q.freeHead, numFree := q.numFree)
    ensures Linked(q.next, q.freeHead, if l == [] then [] else l[1..]) && q.numFree == if l == [] then 0 else |l| - 1
  {
    index, q := q0.freeHead, q0;
    if l != [] {
      LinkedPop(q0.next, q0.freeHead, l);
    }
    if index == LENGTH {
      return;
    }
    q := q.(freeHead := q.next[index]);
    q := q.(numFree := q.numFree - 1);
  }

  function DescriptorFreed(q: Queue, index: nat): Queue
    requires index < |q.next|
  {
    q.(next := q.next[index := q.freeHead], freeHead := index, numFree := q.numFree + 1)
  }

  /** free_descriptor puts a descriptor that is not in the free list at its front. */
  method FreeDescriptor(q0: Queue, index: nat, ghost l: seq<nat>) returns (q: Queue)
    requires index < |q0.next| && index !in l && Linked(q0.next, q0.freeHead, l)
    ensures q == DescriptorFreed(q0, index)
    ensures Linked(q.next, q.freeHead, [index] + l)
  {
    LinkedPush(q0.next, q0.freeHead, l, index);
    q := q0.(next := q0.next[index := q0.freeHead]);
    q := q.(freeHead := index);
    q := q.(numFree := q.numFree + 1);
  }

  /** alloc_request takes the first element of the pool; REQUESTS means that there is none. */
  method AllocRequest(q0: Queue, ghost l: seq<nat>) returns (request: nat, q: Queue)
    requires |q0.requestNext| == REQUESTS && Linked(q0.requestNext, q0.firstFreeRequest, l)
    ensures request == Nth(l, 0, REQUESTS)
    ensures q == q0.(firstFreeRequest := q.firstFreeRequest)
    ensures Linked(q.requestNext, q.firstFreeRequest, if l == [] then [] else l[1..])
  {
    request, q := q0.firstFreeRequest, q0;
    if l != [] {
      LinkedPop(q0.requestNext, q0.firstFreeRequest, l);
    }
    if request == REQUESTS {
      return;
    }
    q := q.(firstFreeRequest := q.requestNext[request]);
  }

  function RequestFreed(q: Queue, request: nat): Queue
    requires request < |q.requestNext|
  {
    q.(requestNext := q.requestNext[request := q.firstFreeRequest], firstFreeRequest := request)
  }

  /** free_request puts a request at the front of the pool. */
  method FreeRequest(q0: Queue, request: nat, ghost l: seq<nat>) returns (q: Queue)
    requires request < |q0.requestNext| && request !in l && Linked(q0.requestNext, q0.firstFreeRequest, l)
    ensures q == RequestFreed(q0, request)
    ensures Linked(q.requestNext, q.firstFreeRequest, [request] + l)
  {
    LinkedPush(q0.requestNext, q0.firstFreeRequest, l, request);
    q := q0.(requestNext := q0.requestNext[request := q0.firstFreeRequest]);
    q := q.(firstFreeRequest := request);
  }

  method SubmitDescriptor(q0: Queue, index: nat) returns (q: Queue)
    requires |q0.avail| == LENGTH
    ensures q == q0.(avail := q0.avail[q0.availIndex % LENGTH := index], availIndex := (q0.availIndex + 1) % WRAP)
  {
    q := q0.(avail := q0.avail[q0.availIndex % LENGTH := index]);
    q := q.(availIndex := (q.availIndex + 1) % WRAP);
  }

  // ---------------------------------------------------------------- submission

  /** The first three free descriptors, and the first free request, become a chain. */
  function NewChain(h: History, t: Transfer): Chain
    requires |h.free| >= 3 && |h.requests| >= 1
  {
    Chain(h.free[0], h.free[1], h.free[2], h.requests[0], t)
  }

  function HeaderBuffer(request: nat): Buffer { Buffer(Header(request), 16, FLAG_NEXT) }

  function PageBuffer(t: Transfer): Buffer {
    Buffer(Page(t.phy), PAGE_SIZE, FLAG_NEXT + if t.direction == Write then 0 else FLAG_DEVICE_WRITE)
  }

  function HeaderOf(t: Transfer): RequestHeader { RequestHeader(t.direction == Write, t.block * 8) }

  function StatusBuffer(request: nat): Buffer { Buffer(Status(request), 1, FLAG_DEVICE_WRITE) }

  ghost predicate Ready(h: History) {
    && |h.free| >= 3 && |h.requests| >= 1 && |h.owner| == LENGTH && |h.requestOwner| == REQUESTS
    && h.free[0] < LENGTH && h.free[1] < LENGTH && h.free[2] < LENGTH && h.requests[0] < REQUESTS
  }

  ghost function Submitted(q: Queue, h: History, t: Transfer): Queue
    requires Ready(h) && Shape(q, h) && q.numFree >= 3
  {
    var c := NewChain(h, t);
    q.(next := q.next[c.first := c.second][c.second := c.third],
       buffers := q.buffers[c.first := HeaderBuffer(c.request)][c.second := PageBuffer(t)][c.third := StatusBuffer(c.request)],
       freeHead := Nth(h.free, 3, LENGTH),
       numFree := q.numFree - 3,
       avail := q.avail[q.availIndex % LENGTH := c.first],
       availIndex := (q.availIndex + 1) % WRAP,
       firstFreeRequest := Nth(h.requests, 1, REQUESTS),
       headers := q.headers[c.request := HeaderOf(t)])
  }

  ghost function SubmittedHistory(h: History, t: Transfer): History
    requires Ready(h)
  {
    var c, s := NewChain(h, t), h.submitted;
    h.(free := h.free[3..], requests := h.requests[1..],
       owner := h.owner[c.first := Some(s)][c.second := Some(s)][c.third := Some(s)],
       requestOwner := h.requestOwner[c.request := Some(s)],
       chains := h.chains[s := c], stage := h.stage[s := Pending],
       pending := h.pending + [s], submitted := s + 1)
  }

  ghost predicate CanSubmit(q: Queue, h: History, seen: nat) {
    Inv(q, h, seen) && |h.free| >= 3
  }

  lemma IsReady(q: Queue, h: History, seen: nat)
    requires CanSubmit(q, h, seen)
    ensures Ready(h)
  {
    Bounded(q, h, seen);
    assert h.free[0] in h.free && h.free[1] in h.free && h.free[2] in h.free && h.requests[0] in h.requests;
  }

  /** Taking the first three elements of a linked list and rewriting two of their links. */
  lemma TakeThree(next: seq<nat>, head: nat, l: seq<nat>)
    requires Linked(next, head, l) && NoDup(l) && |l| >= 3 && l[0] < |next| && l[1] < |next| && l[2] < |next|
    ensures Linked(next[l[0] := l[1]][l[1] := l[2]], Nth(l, 3, |next|), l[3..])
    ensures NoDup(l[3..]) && forall d :: d in l[3..] <==> d in l && d != l[0] && d != l[1] && d != l[2]
  {
    LinkedPop(next, head, l);
    LinkedPop(next, l[1], l[1..]);
    LinkedPop(next, l[2], l[1..][1..]);
    assert l[1..][1..][1..] == l[3..];
    assert l == [l[0], l[1], l[2]] + l[3..];
    LinkedFrame(next, Nth(l, 3, |next|), l[3..], l[0], l[1]);
    LinkedFrame(next[l[0] := l[1]], Nth(l, 3, |next|), l[3..], l[1], l[2]);
  }

  lemma SubmitFree(q: Queue, h: History, seen: nat, t: Transfer)
    requires CanSubmit(q, h, seen) && Ready(h)
    ensures FreeOk(Submitted(q, h, t), SubmittedHistory(h, t))
    ensures RequestsOk(Submitted(q, h, t), SubmittedHistory(h, t))
  {
    TakeThree(q.next, q.freeHead, h.free);
    LinkedPop(q.requestNext, q.firstFreeRequest, h.requests);
    assert LinkOk(q.requestNext, h.requests, 0);
    assert h.requests == [h.requests[0]] + h.requests[1..];
  }

  /** The new chain takes only free descriptors, so it shares nothing with the chains in flight. */
  lemma SubmitChain(q: Queue, h: History, t: Transfer, s: nat)
    requires Shape(q, h) && FreeOk(q, h) && RequestsOk(q, h) && Ready(h) && q.numFree >= 3 && h.submitted !in h.chains
    requires s in h.chains ==> ChainOk(q, h, s)
    ensures s in SubmittedHistory(h, t).chains ==> ChainOk(Submitted(q, h, t), SubmittedHistory(h, t), s)
  {
    assert h.free[0] in h.free && h.free[1] in h.free && h.free[2] in h.free && h.requests[0] in h.requests;
  }

  lemma SubmitOwners(q: Queue, h: History, t: Transfer)
    requires FreeOk(q, h) && RequestsOk(q, h) && Ready(h) && OwnersOk(h) && h.submitted !in h.chains
    ensures OwnersOk(SubmittedHistory(h, t))
  {
    var h' := SubmittedHistory(h, t);
    assert h.free[0] in h.free && h.free[1] in h.free && h.free[2] in h.free && h.requests[0] in h.requests;
    forall d: nat | d < LENGTH
      ensures OwnedOk(h', d)
    {
      assert OwnedOk(h, d);
    }
    forall r: nat | r < REQUESTS
      ensures RequestOwnedOk(h', r)
    {
      assert RequestOwnedOk(h, r);
    }
  }

  lemma SubmitChains(q: Queue, h: History, t: Transfer)
    requires Shape(q, h) && FreeOk(q, h) && RequestsOk(q, h) && ChainsOk(q, h) && OwnersOk(h)
    requires Ready(h) && q.numFree >= 3 && h.submitted !in h.chains
    ensures ChainsOk(Submitted(q, h, t), SubmittedHistory(h, t)) && OwnersOk(SubmittedHistory(h, t))
  {
    var q', h' := Submitted(q, h, t), SubmittedHistory(h, t);
    SubmitOwners(q, h, t);
    forall s | s in h'.chains
      ensures ChainOk(q', h', s)
    {
      assert s in h.chains ==> ChainOk(q, h, s);
      SubmitChain(q, h, t, s);
    }
  }

  /** The slot written is not one that is still to be read, whatever the indices have wrapped to. */
  lemma RingPush(ring: seq<nat>, from: nat, l: seq<nat>, chains: map<nat, Chain>, s: nat)
    requires RingOk(ring, from, l, chains) && |l| < LENGTH && s in chains
    ensures RingOk(ring[(from + |l|) % LENGTH := chains[s].first], from, l + [s], chains)
  {
    var ring', l' := ring[(from + |l|) % LENGTH := chains[s].first], l + [s];
    forall i: nat | i < |l'|
      ensures SlotOk(ring', from, l', chains, i)
    {
      if i < |l| {
        assert SlotOk(ring, from, l, chains, i);
        assert (from + i) % LENGTH != (from + |l|) % LENGTH;
      }
    }
  }

  lemma RingPop(ring: seq<nat>, from: nat, l: seq<nat>, chains: map<nat, Chain>)
    requires RingOk(ring, from, l, chains) && l != []
    ensures RingOk(ring, from + 1, l[1..], chains)
    ensures l[0] in chains && ring[from % LENGTH] == chains[l[0]].first
  {
    var from', l' := from + 1, l[1..];
    assert SlotOk(ring, from, l, chains, 0);
    forall i: nat | i < |l'|
      ensures SlotOk(ring, from', l', chains, i)
    {
      assert SlotOk(ring, from, l, chains, i + 1);
    }
  }

  lemma RingKept(ring: seq<nat>, from: nat, l: seq<nat>, chains: map<nat, Chain>, chains': map<nat, Chain>)
    requires RingOk(ring, from, l, chains)
    requires forall s :: s in l && s in chains ==> s in chains' && chains'[s] == chains[s]
    ensures RingOk(ring, from, l, chains')
  {
    forall i: nat | i < |l|
      ensures SlotOk(ring, from, l, chains', i)
    {
      assert SlotOk(ring, from, l, chains, i);
    }
  }

  /** A 16-bit index that wraps still points at the right slot. */
  lemma IndexWraps(n: nat)
    ensures n % WRAP % LENGTH == n % LENGTH && (n % WRAP + 1) % WRAP == (n + 1) % WRAP && (n % LENGTH + 1) % LENGTH == (n + 1) % LENGTH
  {
    SlotOfIndex(n);
    NextIndex(n);
    NextSlot(n);
  }

  lemma SlotOfIndex(n: nat)
    ensures n % WRAP % LENGTH == n % LENGTH
  {
  }

  lemma NextIndex(n: nat)
    ensures (n % WRAP + 1) % WRAP == (n + 1) % WRAP
  {
  }

  lemma NextSlot(n: nat)
    ensures (n % LENGTH + 1) % LENGTH == (n + 1) % LENGTH
  {
  }

  lemma AvailPush(ring: seq<nat>, index: nat, deviceIndex: nat, submitted: nat, l: seq<nat>, chains: map<nat, Chain>, s: nat)
    requires AvailOk(ring, index, deviceIndex, submitted, l, chains) && |l| < LENGTH && s in chains
    ensures AvailOk(ring[index % LENGTH := chains[s].first], (index + 1) % WRAP, deviceIndex, submitted + 1, l + [s], chains)
  {
    IndexWraps(submitted);
    RingPush(ring, submitted - |l|, l, chains, s);
  }

  lemma AvailPop(ring: seq<nat>, index: nat, deviceIndex: nat, submitted: nat, l: seq<nat>, chains: map<nat, Chain>)
    requires AvailOk(ring, index, deviceIndex, submitted, l, chains) && l != []
    ensures AvailOk(ring, index, (deviceIndex + 1) % WRAP, submitted, l[1..], chains)
    ensures l[0] in chains && ring[deviceIndex % LENGTH] == chains[l[0]].first
  {
    IndexWraps(submitted - |l|);
    RingPop(ring, submitted - |l|, l, chains);
  }

  lemma UsedPush(ring: seq<nat>, index: nat, seen: nat, handled: nat, l: seq<nat>, chains: map<nat, Chain>, s: nat)
    requires UsedOk(ring, index, seen, handled, l, chains) && |l| < LENGTH && s in chains
    ensures UsedOk(ring[index % LENGTH := chains[s].first], (index + 1) % WRAP, seen, handled, l + [s], chains)
  {
    IndexWraps(handled + |l|);
    RingPush(ring, handled, l, chains, s);
  }

  lemma UsedPop(ring: seq<nat>, index: nat, seen: nat, handled: nat, l: seq<nat>, chains: map<nat, Chain>)
    requires UsedOk(ring, index, seen, handled, l, chains) && l != []
    ensures UsedOk(ring, index, (seen + 1) % LENGTH, handled + 1, l[1..], chains)
    ensures l[0] in chains && seen < LENGTH && ring[seen] == chains[l[0]].first
  {
    IndexWraps(handled);
    RingPop(ring, handled, l, chains);
  }

  lemma SubmitRings(q: Queue, h: History, seen: nat, t: Transfer)
    requires Shape(q, h) && RingsOk(q, h, seen) && Ready(h) && q.numFree >= 3 && |h.pending| < LENGTH && h.submitted !in h.chains
    ensures RingsOk(Submitted(q, h, t), SubmittedHistory(h, t), seen)
  {
    var h', from := SubmittedHistory(h, t), h.submitted - |h.pending|;
    RingKept(q.avail, from, h.pending, h.chains, h'.chains);
    AvailPush(q.avail, q.availIndex, q.deviceIndex, h.submitted, h.pending, h'.chains, h.submitted);
    RingKept(q.used, |h.called|, h.done, h.chains, h'.chains);
  }

  lemma SubmitStages(h: History, t: Transfer)
    requires Ready(h) && StagesOk(h) && CountsOk(h) && CalledOk(h)
    ensures StagesOk(SubmittedHistory(h, t)) && CountsOk(SubmittedHistory(h, t)) && CalledOk(SubmittedHistory(h, t))
  {
    NoDupPush(h.pending, h.submitted);
  }

  lemma SubmitInv(q: Queue, h: History, seen: nat, t: Transfer)
    requires CanSubmit(q, h, seen)
    ensures Ready(h) && Inv(Submitted(q, h, t), SubmittedHistory(h, t), seen)
  {
    IsReady(q, h, seen);
    Bounded(q, h, seen);
    SubmitFree(q, h, seen, t);
    SubmitChains(q, h, t);
    SubmitRings(q, h, seen, t);
    SubmitStages(h, t);
    HeldKept(q.held, h, SubmittedHistory(h, t));
  }

  lemma HeldKept(held: seq<nat>, h: History, h': History)
    requires HeldOk(held, h) && h'.taken == h.taken
    requires forall s :: s in h.taken && s in h.chains ==> s in h'.chains && h'.chains[s] == h.chains[s]
    ensures HeldOk(held, h')
  {
    forall k: nat | k < |held|
      ensures HeldAt(held, h', k)
    {
      assert HeldAt(held, h, k) && h.taken[k] in h.taken;
    }
  }

  /** Where the first descriptors are, for a queue that has any. */
  lemma FreeHeads(q: Queue, h: History, seen: nat)
    requires Inv(q, h, seen)
    ensures q.freeHead == Nth(h.free, 0, LENGTH)
    ensures |h.free| > 0 ==> h.free[0] < LENGTH && q.next[h.free[0]] == Nth(h.free, 1, LENGTH)
    ensures |h.free| > 1 ==> h.free[1] < LENGTH && q.next[h.free[1]] == Nth(h.free, 2, LENGTH) && h.free[0] != h.free[1]
    ensures |h.free| > 2 ==> h.free[2] < LENGTH && q.next[h.free[2]] == Nth(h.free, 3, LENGTH)
                             && h.free[2] != h.free[0] && h.free[2] != h.free[1]
    ensures |h.requests| > 0 && q.firstFreeRequest == h.requests[0] < REQUESTS
            && q.requestNext[h.requests[0]] == Nth(h.requests, 1, REQUESTS)
  {
    Bounded(q, h, seen);
    assert |h.free| > 0 ==> LinkOk(q.next, h.free, 0);
    assert |h.free| > 1 ==> LinkOk(q.next, h.free, 1);
    assert |h.free| > 2 ==> LinkOk(q.next, h.free, 2);
    assert LinkOk(q.requestNext, h.requests, 0);
  }

  /** The error paths put back what they took; only free descriptors and free requests have been scribbled on. */
  lemma ScribbleInv(q: Queue, h: History, seen: nat, buffers: seq<Buffer>, headers: seq<RequestHeader>)
    requires Inv(q, h, seen) && |buffers| == LENGTH && |headers| == REQUESTS
    requires forall d :: 0 <= d < LENGTH && d !in h.free ==> buffers[d] == q.buffers[d]
    requires forall r :: 0 <= r < REQUESTS && r !in h.requests ==> headers[r] == q.headers[r]
    ensures Inv(q.(buffers := buffers, headers := headers), h, seen)
  {
    var q' := q.(buffers := buffers, headers := headers);
    forall s | s in h.chains
      ensures ChainOk(q', h, s)
    {
      assert ChainOk(q, h, s);
    }
  }

  /** What a submission does to the history: three free descriptors become a chain, or nothing happens. */
  ghost function Submission(h: History, t: Transfer): History {
    if Ready(h) then SubmittedHistory(h, t) else h
  }

  /**
    read_write_block up to the point where it waits, as one step. It succeeds exactly when three
    descriptors are free; otherwise everything it took is back in place.
   */
  method ReadWriteBlock(q0: Queue, ghost h0: History, t: Transfer, ghost seen: nat)
    returns (ok: bool, q: Queue, ghost h: History)
    requires Inv(q0, h0, seen)
    ensures Inv(q, h, seen) && q.lastSeenUsed == q0.lastSeenUsed
    ensures (ok <==> |h0.free| >= 3) && h == Submission(h0, t)
    ensures ok ==> Ready(h0) && h == SubmittedHistory(h0, t) && h0.submitted in h.chains && h.chains[h0.submitted].transfer == t
    ensures !ok ==> h == h0 && q == q0.(buffers := q.buffers, headers := q.headers)
  {
    FreeHeads(q0, h0, seen);
    var request, first, second, third;
    request, q := AllocRequest(q0, h0.requests);
    h := h0;
    assert request != REQUESTS;
    q := q.(headers := q.headers[request := RequestHeader(t.direction == Write, t.block * 8)]);
    first, q := AllocDescriptor(q, h0.free);
    if first == LENGTH {
      q := PutBack(q0, h0, seen, q, request, []);
      return false, q, h;
    }
    q := q.(buffers := q.buffers[first := HeaderBuffer(request)]);
    second, q := AllocDescriptor(q, h0.free[1..]);
    if second == LENGTH {
      q := PutBack(q0, h0, seen, q, request, [first]);
      return false, q, h;
    }
    q := q.(buffers := q.buffers[second := PageBuffer(t)]);
    third, q := AllocDescriptor(q, h0.free[2..]);
    if third == LENGTH {
      q := PutBack(q0, h0, seen, q, request, [first, second]);
      return false, q, h;
    }
    q := q.(buffers := q.buffers[third := StatusBuffer(request)]);
    q := q.(next := q.next[first := second]);
    q := q.(next := q.next[second := third]);
    q := SubmitDescriptor(q, first);
    SubmitInv(q0, h0, seen, t);
    assert q == Submitted(q0, h0, t);
    h := SubmittedHistory(h0, t);
    return true, q, h;
  }

  /** The state in which a submission runs out of descriptors, having taken a request and all the free ones there were. */
  ghost predicate RanOut(q0: Queue, h0: History, q: Queue, request: nat, taken: seq<nat>) {
    && q == q0.(buffers := q.buffers, headers := q.headers, freeHead := LENGTH, numFree := 0, firstFreeRequest := Nth(h0.requests, 1, REQUESTS))
    && |q.buffers| == LENGTH == |q0.buffers| && |q.headers| == REQUESTS == |q0.headers|
    && h0.free == taken && |taken| < 3 && h0.requests != [] && request == h0.requests[0]
    && (forall d :: 0 <= d < LENGTH && d !in taken ==> q.buffers[d] == q0.buffers[d])
    && (forall r :: 0 <= r < REQUESTS && r != request ==> q.headers[r] == q0.headers[r])
  }

  /** The deferred calls of the error paths: the descriptors go back in the reverse order, then the request. */
  method PutBack(ghost q0: Queue, ghost h0: History, ghost seen: nat, q1: Queue, request: nat, taken: seq<nat>) returns (q: Queue)
    requires Inv(q0, h0, seen) && RanOut(q0, h0, q1, request, taken)
    ensures Inv(q, h0, seen) && q == q0.(buffers := q.buffers, headers := q.headers)
  {
    FreeHeads(q0, h0, seen);
    LinkedPop(q0.requestNext, q0.firstFreeRequest, h0.requests);
    NoDupPop(h0.requests);
    assert request in h0.requests && forall d :: d in taken ==> d in h0.free;
    q := q1;
    if |taken| > 1 {
      q := FreeDescriptor(q, taken[1], []);
    }
    if |taken| > 0 {
      q := FreeDescriptor(q, taken[0], taken[1..]);
    }
    q := FreeRequest(q, request, h0.requests[1..]);
    assert q.next == q0.next && q.requestNext == q0.requestNext;
    ScribbleInv(q0, h0, seen, q.buffers, q.headers);
  }

  // ---------------------------------------------------------------- the device

  /** The device reads one entry of the available ring, if it has not read them all. */
  method DeviceTake(q0: Queue, ghost h0: History, ghost seen: nat) returns (q: Queue, ghost h: History)
    requires Inv(q0, h0, seen)
    ensures Inv(q, h, seen) && q == q0.(deviceIndex := q.deviceIndex, held := q.held)
    ensures h0.pending == [] ==> q == q0 && h == h0
    ensures h0.pending != [] ==>
              && h == h0.(pending := h0.pending[1..], taken := h0.taken + [h0.pending[0]], stage := h0.stage[h0.pending[0] := Taken])
              && h0.pending[0] in h0.chains && q.held == q0.held + [h0.chains[h0.pending[0]].first]
  {
    Bounded(q0, h0, seen);
    q, h := q0, h0;
    if q.deviceIndex != q.availIndex {
      q := q.(held := q.held + [q.avail[q.deviceIndex % LENGTH]]);
      q := q.(deviceIndex := (q.deviceIndex + 1) % WRAP);
      ghost var s := h0.pending[0];
      h := h0.(pending := h0.pending[1..], taken := h0.taken + [s], stage := h0.stage[s := Taken]);
      TakeInv(q0, h0, q, h, seen);
    }
  }

  /** Moving a chain between stages leaves descriptors, requests and their owners alone. */
  lemma ChainsKept(q: Queue, h: History, q': Queue, h': History)
    requires Shape(q, h) && FreeOk(q, h) && RequestsOk(q, h) && ChainsOk(q, h) && OwnersOk(h)
    requires q' == q.(used := q'.used, usedIndex := q'.usedIndex, deviceIndex := q'.deviceIndex, held := q'.held) && |q'.used| == LENGTH
    requires h' == h.(pending := h'.pending, taken := h'.taken, done := h'.done, stage := h'.stage)
    ensures Shape(q', h') && FreeOk(q', h') && RequestsOk(q', h') && ChainsOk(q', h') && OwnersOk(h')
  {
    forall t | t in h'.chains
      ensures ChainOk(q', h', t)
    {
      assert ChainOk(q, h, t);
    }
    forall d: nat | d < LENGTH
      ensures OwnedOk(h', d)
    {
      assert OwnedOk(h, d);
    }
    forall r: nat | r < REQUESTS
      ensures RequestOwnedOk(h', r)
    {
      assert RequestOwnedOk(h, r);
    }
  }

  lemma TakeStages(h: History)
    requires StagesOk(h) && CountsOk(h) && CalledOk(h) && h.pending != []
    ensures var h' := h.(pending := h.pending[1..], taken := h.taken + [h.pending[0]], stage := h.stage[h.pending[0] := Taken]);
            StagesOk(h') && CountsOk(h') && CalledOk(h')
  {
    assert h.pending[0] in h.pending;
    NoDupPop(h.pending);
    NoDupPush(h.taken, h.pending[0]);
  }

  lemma TakeInv(q: Queue, h: History, q': Queue, h': History, seen: nat)
    requires Inv(q, h, seen) && h.pending != []
    requires q' == q.(deviceIndex := (q.deviceIndex + 1) % WRAP, held := q.held + [q.avail[q.deviceIndex % LENGTH]])
    requires h' == h.(pending := h.pending[1..], taken := h.taken + [h.pending[0]], stage := h.stage[h.pending[0] := Taken])
    ensures Inv(q', h', seen) && h.pending[0] in h.chains
    ensures q.avail[q.deviceIndex % LENGTH] == h.chains[h.pending[0]].first
  {
    ChainsKept(q, h, q', h');
    TakeStages(h);
    TakeRings(q, h, q', h', seen);
    forall k: nat | k < |q'.held|
      ensures HeldAt(q'.held, h', k)
    {
      assert k < |q.held| ==> HeldAt(q.held, h, k);
    }
  }

  lemma TakeRings(q: Queue, h: History, q': Queue, h': History, seen: nat)
    requires RingsOk(q, h, seen) && h.pending != [] && q' == q.(deviceIndex := (q.deviceIndex + 1) % WRAP, held := q'.held)
    requires h' == h.(pending := h.pending[1..], taken := h.taken + [h.pending[0]], stage := h.stage[h.pending[0] := Taken])
    ensures RingsOk(q', h', seen) && h.pending[0] in h.chains
    ensures q.avail[q.deviceIndex % LENGTH] == h.chains[h.pending[0]].first
  {
    AvailPop(q.avail, q.availIndex, q.deviceIndex, h.submitted, h.pending, h.chains);
  }

  /**
    What the device does for the chain that starts at descriptor `head`. It follows the links and
    goes by the words it finds (section 5.2.6 of VIRTIO 1.2): the header says which way and from
    which sector of 512 bytes on, the second descriptor where in memory and how much.
   */
  function Executed(q: Queue, head: nat): World {
    if head >= |q.buffers| || head >= |q.next| || !q.buffers[head].address.Header? then q.world
    else
      var r, second := q.buffers[head].address.request, q.next[head];
      if q.buffers[head].flags % 2 == 0 || q.buffers[head].length != 16 || r >= |q.headers| || second >= |q.buffers| || second >= |q.next| then q.world
      else if !q.buffers[second].address.Page? || q.buffers[second].flags % 2 == 0 || !TakesStatus(q, q.next[second]) then q.world
      else Moved(q.world, q.headers[r].out, q.headers[r].sector * 512, q.buffers[second])
  }

  /** The last descriptor of a chain: a byte for the status, which the device may write. */
  predicate TakesStatus(q: Queue, third: nat) {
    && third < |q.buffers| && q.buffers[third].address.Status? && q.buffers[third].length == 1
    && q.buffers[third].flags % 2 == 0 && q.buffers[third].flags / 2 % 2 == 1
  }

  /** Bytes move between the device, from byte `at` on, and a buffer, which the device may write or only read. */
  function Moved(w: World, out: bool, at: nat, b: Buffer): World
    requires b.address.Page?
  {
    var phy, n := b.address.phy, b.length;
    if at + n > |w.disk| || phy + n > |w.ram| || out != (b.flags / 2 % 2 == 0) then w
    else if out then w.(disk := w.disk[..at] + w.ram[phy..phy + n] + w.disk[at + n..])
    else w.(ram := w.ram[..phy] + w.disk[at..at + n] + w.ram[phy + n..])
  }

  /** A block of 4096 bytes moves; a transfer to or from where there is no device or no memory moves nothing. */
  function Transferred(w: World, t: Transfer): World {
    if t.block * 4096 + 4096 > |w.disk| || t.phy + 4096 > |w.ram| then w
    else
      match t.direction
      case Write => w.(disk := w.disk[..t.block * 4096] + w.ram[t.phy..t.phy + 4096] + w.disk[t.block * 4096 + 4096..])
      case Read => w.(ram := w.ram[..t.phy] + w.disk[t.block * 4096..t.block * 4096 + 4096] + w.ram[t.phy + 4096..])
  }

  /** What the device does by the words of a chain is the transfer the chain was made for. */
  lemma ExecutedIs(q: Queue, h: History, s: nat)
    requires Shape(q, h) && s in h.chains && ChainOk(q, h, s)
    ensures Executed(q, h.chains[s].first) == Transferred(q.world, h.chains[s].transfer)
  {
    var t := h.chains[s].transfer;
    assert t.block * 8 * 512 == t.block * 4096;
  }

  /** A read of block b puts bytes b * 4096 to b * 4096 + 4095 of the device into the page; a write puts the page there. */
  lemma TransferredBytes(w: World, block: nat, phy: nat, direction: Direction)
    ensures var w' := Transferred(w, Transfer(block, phy, direction));
            && |w'.disk| == |w.disk| && |w'.ram| == |w.ram|
            && (block * 4096 + 4096 <= |w.disk| && phy + 4096 <= |w.ram| ==>
                  if direction == Read then
                    && w'.disk == w.disk
                    && forall i :: 0 <= i < |w.ram| ==>
                         w'.ram[i] == if phy <= i < phy + 4096 then w.disk[block * 4096 + (i - phy)] else w.ram[i]
                  else
                    && w'.ram == w.ram
                    && forall i :: 0 <= i < |w.disk| ==>
                         w'.disk[i] == if block * 4096 <= i < block * 4096 + 4096 then w.ram[phy + (i - block * 4096)] else w.disk[i])
  {
  }

  lemma WorldInv(q: Queue, h: History, seen: nat, w: World)
    requires Inv(q, h, seen)
    ensures Inv(q.(world := w), h.(world := w), seen)
  {
    var q', h' := q.(world := w), h.(world := w);
    ChainsWorld(q, h, q', h');
    forall k: nat | k < |q'.held|
      ensures HeldAt(q'.held, h', k)
    {
      assert HeldAt(q.held, h, k);
    }
  }

  lemma ChainsWorld(q: Queue, h: History, q': Queue, h': History)
    requires Shape(q, h) && ChainsOk(q, h) && OwnersOk(h) && q' == q.(world := q'.world) && h' == h.(world := h'.world)
    ensures ChainsOk(q', h') && OwnersOk(h')
  {
    forall s | s in h'.chains
      ensures ChainOk(q', h', s)
    {
      assert ChainOk(q, h, s);
    }
    forall d: nat | d < LENGTH
      ensures OwnedOk(h', d)
    {
      assert OwnedOk(h, d);
    }
    forall r: nat | r < REQUESTS
      ensures RequestOwnedOk(h', r)
    {
      assert RequestOwnedOk(h, r);
    }
  }

  /** What completing the k-th chain the device works on does to the history. */
  ghost function Completed(h: History, k: nat): History
    requires k < |h.taken|
  {
    var s := h.taken[k];
    h.(taken := h.taken[..k] + h.taken[k+1..], done := h.done + [s], stage := h.stage[s := Done],
       world := if s in h.chains then Transferred(h.world, h.chains[s].transfer) else h.world)
  }

  /**
    The device carries out and returns any one of the chains it has read, in whatever order it
    likes. What it does by the words of the chain is what was asked for.
   */
  method DeviceComplete(q0: Queue, ghost h0: History, k: nat, ghost seen: nat) returns (q: Queue, ghost h: History)
    requires Inv(q0, h0, seen) && k < |q0.held|
    ensures Inv(q, h, seen)
    ensures q == q0.(used := q.used, usedIndex := q.usedIndex, held := q0.held[..k] + q0.held[k+1..], world := Executed(q0, q0.held[k]))
    ensures h == Completed(h0, k) && h0.taken[k] in h0.chains
    ensures var t, w0, w := h0.chains[h0.taken[k]].transfer, q0.world, q.world;
            t.block * 4096 + 4096 <= |w0.disk| && t.phy + 4096 <= |w0.ram| ==>
              && |w.disk| == |w0.disk| && |w.ram| == |w0.ram|
              && (t.direction == Read ==>
                    && w.disk == w0.disk
                    && forall i :: 0 <= i < |w.ram| ==>
                         w.ram[i] == if t.phy <= i < t.phy + 4096 then w0.disk[t.block * 4096 + (i - t.phy)] else w0.ram[i])
              && (t.direction == Write ==>
                    && w.ram == w0.ram
                    && forall i :: 0 <= i < |w.disk| ==>
                         w.disk[i] == if t.block * 4096 <= i < t.block * 4096 + 4096 then w0.ram[t.phy + (i - t.block * 4096)] else w0.disk[i])
  {
    assert HeldAt(q0.held, h0, k);
    ghost var c := h0.chains[h0.taken[k]];
    assert ChainOk(q0, h0, h0.taken[k]);
    ExecutedIs(q0, h0, h0.taken[k]);
    TransferredBytes(q0.world, c.transfer.block, c.transfer.phy, c.transfer.direction);
    var w := Executed(q0, q0.held[k]);
    q, h := DeviceReturn(q0, h0, k, seen);
    WorldInv(q, h, seen, w);
    q := q.(world := w);
    h := Completed(h0, k);
  }

  /** A chain goes back through the used ring. */
  method DeviceReturn(q0: Queue, ghost h0: History, k: nat, ghost seen: nat) returns (q: Queue, ghost h: History)
    requires Inv(q0, h0, seen) && k < |q0.held|
    ensures Inv(q, h, seen) && q == q0.(used := q.used, usedIndex := q.usedIndex, held := q0.held[..k] + q0.held[k+1..])
    ensures h == h0.(taken := h0.taken[..k] + h0.taken[k+1..], done := h0.done + [h0.taken[k]], stage := h0.stage[h0.taken[k] := Done])
  {
    assert HeldAt(q0.held, h0, k);
    q := q0.(used := q0.used[q0.usedIndex % LENGTH := q0.held[k]]);
    q := q.(usedIndex := (q.usedIndex + 1) % WRAP);
    q := q.(held := q.held[..k] + q.held[k+1..]);
    ghost var s := h0.taken[k];
    h := h0.(taken := h0.taken[..k] + h0.taken[k+1..], done := h0.done + [s], stage := h0.stage[s := Done]);
    Bounded(q0, h0, seen);
    ChainsKept(q0, h0, q, h);
    CompleteStages(h0, k);
    CompleteRings(q0, h0, q, h, seen, k);
    forall j: nat | j < |q.held|
      ensures HeldAt(q.held, h, j)
    {
      assert HeldAt(q0.held, h0, if j < k then j else j + 1);
    }
  }

  lemma CompleteStages(h: History, k: nat)
    requires StagesOk(h) && CountsOk(h) && CalledOk(h) && k < |h.taken|
    ensures var h' := h.(taken := h.taken[..k] + h.taken[k+1..], done := h.done + [h.taken[k]], stage := h.stage[h.taken[k] := Done]);
            StagesOk(h') && CountsOk(h') && CalledOk(h')
  {
    assert h.taken[k] in h.taken;
    NoDupCut(h.taken, k);
    NoDupPush(h.done, h.taken[k]);
  }

  lemma CompleteRings(q: Queue, h: History, q': Queue, h': History, seen: nat, k: nat)
    requires RingsOk(q, h, seen) && |h.done| < LENGTH && k < |h.taken| && h.taken[k] in h.chains
    requires q' == q.(used := q.used[q.usedIndex % LENGTH := h.chains[h.taken[k]].first], usedIndex := (q.usedIndex + 1) % WRAP, held := q'.held)
    requires h' == h.(taken := h.taken[..k] + h.taken[k+1..], done := h.done + [h.taken[k]], stage := h.stage[h.taken[k] := Done])
    ensures RingsOk(q', h', seen)
  {
    UsedPush(q.used, q.usedIndex, seen, |h.called|, h.done, h.chains, h.taken[k]);
  }

  // ---------------------------------------------------------------- the interrupt

  /** The state after the callback of one completion. */
  ghost function Handled(q: Queue, c: Chain): Queue
    requires |q.next| == LENGTH && |q.requestNext| == REQUESTS
    requires c.first < LENGTH && c.second < LENGTH && c.third < LENGTH && c.request < REQUESTS
  {
    DescriptorFreed(DescriptorFreed(DescriptorFreed(RequestFreed(q, c.request), c.third), c.second), c.first)
  }

  ghost predicate CanFree(h: History) {
    && h.done != [] && h.done[0] in h.chains && |h.owner| == LENGTH && |h.requestOwner| == REQUESTS
    && var c := h.chains[h.done[0]]; c.first < LENGTH && c.second < LENGTH && c.third < LENGTH && c.request < REQUESTS
  }

  ghost function HandledHistory(h: History): History
    requires CanFree(h)
  {
    var s := h.done[0];
    var c := h.chains[s];
    h.(free := [c.first, c.second, c.third] + h.free, requests := [c.request] + h.requests,
       owner := h.owner[c.first := None][c.second := None][c.third := None],
       requestOwner := h.requestOwner[c.request := None],
       chains := h.chains - {s}, stage := h.stage - {s}, done := h.done[1..], called := h.called + [s])
  }

  ghost predicate CanHandle(q: Queue, h: History, seen: nat) {
    Inv(q, h, seen) && CanFree(h)
  }

  /** The completion read is that of the chain at the head of the list, and freeing it descriptor by descriptor meets each of its three. */
  lemma HandleReads(q: Queue, h: History, seen: nat)
    requires Inv(q, h, seen) && h.done != []
    ensures CanHandle(q, h, seen) && ChainOk(q, h, h.done[0])
    ensures seen < LENGTH && q.used[seen] == h.chains[h.done[0]].first
  {
    assert h.done[0] in h.done;
    UsedPop(q.used, q.usedIndex, seen, |h.called|, h.done, h.chains);
    assert ChainOk(q, h, h.done[0]);
  }

  lemma HandleFree(q: Queue, h: History, seen: nat)
    requires CanHandle(q, h, seen) && ChainOk(q, h, h.done[0])
    ensures var c := h.chains[h.done[0]]; FreeOk(Handled(q, c), HandledHistory(h)) && RequestsOk(Handled(q, c), HandledHistory(h))
  {
    var c := h.chains[h.done[0]];
    var l := h.free;
    assert c.first !in l && c.second !in l && c.third !in l && c.request !in h.requests;
    LinkedPush(q.next, q.freeHead, l, c.third);
    LinkedPush(q.next[c.third := q.freeHead], c.third, [c.third] + l, c.second);
    LinkedPush(q.next[c.third := q.freeHead][c.second := c.third], c.second, [c.second] + ([c.third] + l), c.first);
    assert [c.first] + ([c.second] + ([c.third] + l)) == [c.first, c.second, c.third] + l;
    LinkedPush(q.requestNext, q.firstFreeRequest, h.requests, c.request);
  }

  /** The chains that stay share nothing with the one that is freed. */
  lemma HandleChain(q: Queue, h: History, s: nat)
    requires Shape(q, h) && CanFree(h) && ChainOk(q, h, h.done[0])
    requires s in h.chains && s != h.done[0] && ChainOk(q, h, s)
    ensures ChainOk(Handled(q, h.chains[h.done[0]]), HandledHistory(h), s)
  {
  }

  lemma HandleChains(q: Queue, h: History)
    requires Shape(q, h) && ChainsOk(q, h) && OwnersOk(h) && CanFree(h) && ChainOk(q, h, h.done[0])
    ensures ChainsOk(Handled(q, h.chains[h.done[0]]), HandledHistory(h)) && OwnersOk(HandledHistory(h))
  {
    var q', h' := Handled(q, h.chains[h.done[0]]), HandledHistory(h);
    forall s | s in h'.chains
      ensures ChainOk(q', h', s)
    {
      assert ChainOk(q, h, s);
      HandleChain(q, h, s);
    }
    forall d: nat | d < LENGTH
      ensures OwnedOk(h', d)
    {
      assert OwnedOk(h, d);
    }
    forall r: nat | r < REQUESTS
      ensures RequestOwnedOk(h', r)
    {
      assert RequestOwnedOk(h, r);
    }
  }

  lemma OthersRemain(h: History)
    requires StagesOk(h) && CanFree(h)
    ensures forall s :: s in h.pending || s in h.taken || s in h.done[1..] ==> s != h.done[0]
  {
    assert h.done[0] in h.done;
    NoDupPop(h.done);
  }

  lemma HandleRings(q: Queue, h: History, seen: nat)
    requires RingsOk(q, h, seen) && Shape(q, h) && CanFree(h)
    requires forall s :: s in h.pending || s in h.done[1..] ==> s != h.done[0]
    ensures RingsOk(Handled(q, h.chains[h.done[0]]), HandledHistory(h), (seen + 1) % LENGTH)
  {
    var chains := h.chains - {h.done[0]};
    RingKept(q.avail, h.submitted - |h.pending|, h.pending, h.chains, chains);
    UsedPop(q.used, q.usedIndex, seen, |h.called|, h.done, h.chains);
    RingKept(q.used, |h.called| + 1, h.done[1..], h.chains, chains);
  }

  lemma HandleStages(h: History)
    requires StagesOk(h) && CountsOk(h) && CalledOk(h) && CanFree(h)
    ensures StagesOk(HandledHistory(h)) && CountsOk(HandledHistory(h)) && CalledOk(HandledHistory(h))
  {
    assert h.done[0] in h.done;
    NoDupPop(h.done);
    NoDupPush(h.called, h.done[0]);
  }

  /** The part of a turn behind the callback: the request and the three descriptors are freed. */
  method FreeChain(q0: Queue, ghost h0: History, ghost i: nat, ghost next: nat, desc: nat, request: nat) returns (q: Queue, ghost h: History)
    requires Inv(q0, h0, i) && h0.done != [] && h0.done[0] in h0.chains && next == (i + 1) % LENGTH
    requires desc == h0.chains[h0.done[0]].first && request == h0.chains[h0.done[0]].request
    ensures Inv(q, h, next) && q.lastSeenUsed == q0.lastSeenUsed
    ensures CanFree(h0) && h == HandledHistory(h0)
  {
    HandleReads(q0, h0, i);
    HandleFree(q0, h0, i);
    HandleChains(q0, h0);
    OthersRemain(h0);
    HandleRings(q0, h0, i);
    HandleStages(h0);
    HeldKept(q0.held, h0, HandledHistory(h0));
    ghost var c, l := h0.chains[h0.done[0]], h0.free;
    assert c.first !in l && c.second !in l && c.third !in l && c.request !in h0.requests;
    q := FreeRequest(q0, request, h0.requests);
    q := FreeDescriptor(q, q.next[q.next[desc]], l);
    q := FreeDescriptor(q, q.next[desc], [c.third] + l);
    q := FreeDescriptor(q, desc, [c.second] + ([c.third] + l));
    assert q == Handled(q0, c);
    h := HandledHistory(h0);
  }

  // ---------------------------------------------------------------- what driver and device do

  datatype DeviceStep = Take | Complete(k: nat)

  datatype Action = Device(step: DeviceStep) | Submit(transfer: Transfer)

  /**
    One turn of the interrupt loop: what the device does before the loop condition is tested, and
    what happens while the callback runs. The callback resumes the coroutine that waited for the
    request, which may submit further requests on the spot.
   */
  datatype Turn = Turn(before: seq<DeviceStep>, during: seq<Action>)

  datatype Event = Act(action: Action) | Interrupt(turns: seq<Turn>)

  ghost function Next(h: History, a: Action): History {
    match a
    case Submit(t) => Submission(h, t)
    case Device(Take) =>
      if h.pending == [] then h
      else h.(pending := h.pending[1..], taken := h.taken + [h.pending[0]], stage := h.stage[h.pending[0] := Taken])
    case Device(Complete(k)) =>
      if k < |h.taken| then Completed(h, k) else h
  }

  ghost function After(h: History, actions: seq<Action>): History {
    if actions == [] then h
    else Next(After(h, actions[..|actions| - 1]), actions[|actions| - 1])
  }

  function Lifted(steps: seq<DeviceStep>): seq<Action> {
    seq(|steps|, i requires 0 <= i < |steps| => Device(steps[i]))
  }

  /** A completion is handled: its callback has run, its request and its descriptors are free again. */
  ghost function Answered(h: History): History {
    if CanFree(h) then HandledHistory(h) else h
  }

  /** All completions are handled, and nothing else happens. */
  ghost function Drained(h: History): History
    decreases |h.done|
  {
    if CanFree(h) then Drained(HandledHistory(h)) else h
  }

  /** The interrupt handler: turn after turn, until the loop condition finds no completion. */
  ghost function Serviced(h: History, turns: seq<Turn>): History
    decreases |turns|
  {
    if turns == [] then Drained(h)
    else
      var h1 := After(h, Lifted(turns[0].before));
      if h1.done == [] then h1 else Serviced(Answered(After(h1, turns[0].during)), turns[1..])
  }

  ghost function Outcome(h: History, events: seq<Event>): History {
    if events == [] then h
    else
      var h1 := Outcome(h, events[..|events| - 1]);
      match events[|events| - 1]
      case Act(a) => Next(h1, a)
      case Interrupt(turns) => Serviced(h1, turns)
  }

  function Submissions(actions: seq<Action>): nat {
    if actions == [] then 0
    else Submissions(actions[..|actions| - 1]) + if actions[|actions| - 1].Submit? then 1 else 0
  }

  /** The submissions that callbacks have yet to make. */
  function Left(turns: seq<Turn>): nat {
    if turns == [] then 0 else Submissions(turns[0].during) + Left(turns[1..])
  }

  /** One action of driver or device; the device cannot return what it does not hold. */
  method Perform(q0: Queue, ghost h0: History, a: Action, ghost seen: nat) returns (q: Queue, ghost h: History)
    requires Inv(q0, h0, seen)
    ensures Inv(q, h, seen) && h == Next(h0, a) && q.lastSeenUsed == q0.lastSeenUsed
  {
    q, h := q0, h0;
    match a
    case Submit(t) =>
      var ok;
      ok, q, h := ReadWriteBlock(q, h, t, seen);
    case Device(Take) => q, h := DeviceTake(q, h, seen);
    case Device(Complete(k)) =>
      if k < |q.held| {
        q, h := DeviceComplete(q, h, k, seen);
      }
  }

  /** What later actions leave as it is: the chains in flight, and the completions already returned. */
  ghost predicate Grows(h: History, h': History) {
    && h.done <= h'.done && h'.called == h.called && h.submitted <= h'.submitted
    && (forall s :: s in h.chains ==> s in h'.chains && h'.chains[s] == h.chains[s])
  }

  lemma NextGrows(q: Queue, h: History, seen: nat, a: Action)
    requires Inv(q, h, seen)
    ensures Grows(h, Next(h, a)) && InFlight(Next(h, a)) <= InFlight(h) + if a.Submit? then 1 else 0
    ensures a.Device? ==> InFlight(Next(h, a)) == InFlight(h)
  {
    assert h.submitted !in h.chains;
  }

  /** A number of actions in a row. */
  method PerformAll(q0: Queue, ghost h0: History, actions: seq<Action>, ghost seen: nat) returns (q: Queue, ghost h: History)
    requires Inv(q0, h0, seen)
    ensures Inv(q, h, seen) && h == After(h0, actions) && q.lastSeenUsed == q0.lastSeenUsed
    ensures Grows(h0, h) && InFlight(h) <= InFlight(h0) + Submissions(actions)
  {
    q, h := q0, h0;
    var i := 0;
    while i < |actions|
      invariant 0 <= i <= |actions| && Inv(q, h, seen) && h == After(h0, actions[..i]) && q.lastSeenUsed == q0.lastSeenUsed
      invariant Grows(h0, h) && InFlight(h) <= InFlight(h0) + Submissions(actions[..i])
    {
      GrowsOn(q, h0, h, seen, actions, i);
      q, h := Perform(q, h, actions[i], seen);
      i := i + 1;
    }
    assert actions[..|actions|] == actions;
  }

  lemma GrowsOn(q: Queue, h0: History, h: History, seen: nat, actions: seq<Action>, i: nat)
    requires Inv(q, h, seen) && i < |actions| && h == After(h0, actions[..i])
    requires Grows(h0, h) && InFlight(h) <= InFlight(h0) + Submissions(actions[..i])
    ensures Next(h, actions[i]) == After(h0, actions[..i + 1])
    ensures Grows(h0, Next(h, actions[i])) && InFlight(Next(h, actions[i])) <= InFlight(h0) + Submissions(actions[..i + 1])
  {
    assert actions[..i + 1][..i] == actions[..i];
    NextGrows(q, h, seen, actions[i]);
    GrowsTrans(h0, h, Next(h, actions[i]));
  }

  lemma GrowsTrans(a: History, b: History, c: History)
    requires Grows(a, b) && Grows(b, c)
    ensures Grows(a, c)
  {
  }

  lemma {:induction false} NoSubmissions(steps: seq<DeviceStep>)
    ensures Submissions(Lifted(steps)) == 0
  {
    if steps != [] {
      NoSubmissions(steps[..|steps| - 1]);
      assert Lifted(steps)[..|steps| - 1] == Lifted(steps[..|steps| - 1]);
    }
  }

  /**
    One turn of the interrupt loop. Descriptor and request are read, the callback runs and
    meanwhile anything may happen; then the chain is freed. What was read is still right.
   */
  method HandleOne(q0: Queue, ghost h0: History, i: nat, ghost next: nat, during: seq<Action>) returns (q: Queue, ghost h: History)
    requires Inv(q0, h0, i) && h0.done != [] && next == (i + 1) % LENGTH
    ensures Inv(q, h, next) && q.lastSeenUsed == q0.lastSeenUsed
    ensures CanFree(After(h0, during)) && h == Answered(After(h0, during)) && h.called == h0.called + [h0.done[0]]
    ensures InFlight(h) + 1 <= InFlight(h0) + Submissions(during)
  {
    HandleReads(q0, h0, i);
    var desc := q0.used[i];
    var request := q0.buffers[desc].address.request;
    q, h := PerformAll(q0, h0, during, i);
    ghost var h1 := h;
    assert h1.done[0] == h0.done[0];
    q, h := FreeChain(q, h, i, next, desc, request);
    assert InFlight(h) + 1 == InFlight(h1);
  }

  /** The driver has nothing left to read exactly when its position and the device's agree modulo the length. */
  lemma NothingLeft(q: Queue, h: History, seen: nat)
    requires Inv(q, h, seen)
    ensures seen == q.usedIndex % LENGTH <==> h.done == []
    ensures h.done == [] <==> !CanFree(h)
  {
    Bounded(q, h, seen);
    CaughtUp(|h.called|, |h.done|);
    if h.done != [] {
      HandleReads(q, h, seen);
    }
  }

  lemma CaughtUp(handled: nat, n: nat)
    requires n < LENGTH
    ensures handled % LENGTH == (handled + n) % WRAP % LENGTH <==> n == 0
  {
    IndexWraps(handled + n);
  }

  /** What is left to do when the loop condition is about to be tested for turn `k`. */
  ghost function Remaining(h: History, turns: seq<Turn>, k: nat): History {
    if h.done == [] then h
    else if k < |turns| then Serviced(Answered(After(h, turns[k].during)), turns[k+1..])
    else Drained(h)
  }

  function Before(turns: seq<Turn>, k: nat): seq<Action> {
    if k < |turns| then Lifted(turns[k].before) else []
  }

  function During(turns: seq<Turn>, k: nat): seq<Action> {
    if k < |turns| then turns[k].during else []
  }

  lemma DrainedStep(h: History)
    requires CanFree(h)
    ensures Drained(h) == Drained(HandledHistory(h))
  {
  }

  lemma DrainedDone(h: History)
    requires !CanFree(h)
    ensures Drained(h) == h
  {
  }

  /** The handler from turn `k` on, up to the first test of its condition. */
  lemma ServicedFrom(x: History, turns: seq<Turn>, k: nat)
    requires k < |turns|
    ensures Serviced(x, turns[k..]) == Remaining(After(x, Lifted(turns[k].before)), turns, k)
  {
    var rest := turns[k..];
    assert rest[0] == turns[k] && rest[1..] == turns[k+1..];
  }

  lemma RemainingLast(x: History, turns: seq<Turn>, k: nat)
    requires k >= |turns| && (x.done == [] <==> !CanFree(x))
    ensures Remaining(x, turns, k) == Drained(x)
  {
    if x.done == [] {
      DrainedDone(x);
    }
  }

  lemma RemainingNext(h: History, x: History, h1: History, turns: seq<Turn>, k: nat, k': nat)
    requires k' == k + 1 && h.done != [] && (h1.done == [] <==> !CanFree(h1))
    requires k < |turns| ==> x == Answered(After(h, turns[k].during))
    requires k >= |turns| ==> CanFree(h) && x == HandledHistory(h)
    requires h1 == if k' < |turns| then After(x, Lifted(turns[k'].before)) else x
    ensures Remaining(h1, turns, k') == Remaining(h, turns, k)
  {
    if k' < |turns| {
      ServicedFrom(x, turns, k');
    } else {
      RemainingLast(h1, turns, k');
      if k < |turns| {
        assert turns[k+1..] == [];
      } else {
        DrainedStep(h);
      }
    }
  }

  lemma LeftNext(turns: seq<Turn>, k: nat)
    ensures k < |turns| ==> Left(turns[k..]) == Submissions(turns[k].during) + Left(turns[k+1..])
  {
    if k < |turns| {
      assert turns[k..][1..] == turns[k+1..];
    }
  }

  function LeftFrom(turns: seq<Turn>, k: nat): nat {
    if k < |turns| then Left(turns[k..]) else 0
  }

  lemma LeftFromNext(turns: seq<Turn>, k: nat)
    ensures LeftFrom(turns, k) == Submissions(During(turns, k)) + LeftFrom(turns, k + 1)
  {
    LeftNext(turns, k);
    if k + 1 == |turns| {
      assert turns[k+1..] == [];
    }
  }

  /**
    BlockDevice::irq. The device goes on working and the callbacks go on submitting while the loop
    runs. It ends once the submissions stop, and every completion found is called back, once.
   */
  method Irq(q0: Queue, ghost h0: History, turns: seq<Turn>) returns (q: Queue, ghost h: History)
    requires Inv(q0, h0, q0.lastSeenUsed)
    ensures Inv(q, h, q.lastSeenUsed) && h == Serviced(h0, turns) && h.done == []
  {
    var i: nat, k: nat := q0.lastSeenUsed, 0;
    q, h := PerformAll(q0, h0, Before(turns, 0), i);
    NothingLeft(q, h, i);
    assert turns != [] ==> turns[0..][0] == turns[0];
    while i != q.usedIndex % LENGTH
      invariant Inv(q, h, i) && (i != q.usedIndex % LENGTH <==> h.done != []) && (h.done == [] <==> !CanFree(h))
      invariant Remaining(h, turns, k) == Serviced(h0, turns)
      decreases InFlight(h) + LeftFrom(turns, k)
    {
      LeftFromNext(turns, k);
      var next, k' := (i + 1) % LENGTH, k + 1;
      q, h := TurnOnce(q, h, i, next, turns, k, k');
      i, k := next, k';
    }
    SeenInv(q, h, i);
    q := q.(lastSeenUsed := i);
  }

  /** One turn and the device's steps up to the next test. */
  method TurnOnce(q0: Queue, ghost h0: History, i: nat, next: nat, turns: seq<Turn>, k: nat, k': nat) returns (q: Queue, ghost h: History)
    requires Inv(q0, h0, i) && h0.done != [] && next == (i + 1) % LENGTH && k' == k + 1
    ensures Inv(q, h, next) && Remaining(h, turns, k') == Remaining(h0, turns, k)
    ensures (next != q.usedIndex % LENGTH <==> h.done != []) && (h.done == [] <==> !CanFree(h))
    ensures InFlight(h) + 1 <= InFlight(h0) + Submissions(During(turns, k))
  {
    q, h := HandleOne(q0, h0, i, next, During(turns, k));
    q, h := PerformAll(q, h, Before(turns, k'), next);
    NothingLeft(q, h, next);
    NoneBefore(turns, k');
    RemainingNext(h0, Answered(After(h0, During(turns, k))), h, turns, k, k');
  }

  lemma NoneBefore(turns: seq<Turn>, k: nat)
    ensures Submissions(Before(turns, k)) == 0
  {
    if k < |turns| {
      NoSubmissions(turns[k].before);
    }
  }

  lemma SeenInv(q: Queue, h: History, i: nat)
    requires Inv(q, h, i)
    ensures Inv(q.(lastSeenUsed := i), h, i)
  {
    var q' := q.(lastSeenUsed := i);
    forall s | s in h.chains
      ensures ChainOk(q', h, s)
    {
      assert ChainOk(q, h, s);
    }
  }

  function FirstQueue(world: World): Queue {
    Queue(seq(LENGTH, i => i + 1), seq(LENGTH, _ => Buffer(Nowhere, 0, 0)), 0, LENGTH, seq(LENGTH, _ => 0), 0, seq(LENGTH, _ => 0), 0, 0,
          seq(REQUESTS, i => i + 1), 0, seq(REQUESTS, _ => RequestHeader(false, 0)), 0, [], world)
  }

  ghost function FirstHistory(world: World): History {
    History(seq(LENGTH, i => i), seq(REQUESTS, i => i), seq(LENGTH, _ => None), seq(REQUESTS, _ => None), map[], map[], [], [], [], 0, [], world)
  }

  lemma CountingList(n: nat)
    ensures Linked(seq(n, i => i + 1), 0, seq(n, i => i)) && NoDup(seq<nat>(n, i => i))
    ensures var l: seq<nat> := seq(n, i => i); forall d: nat :: d in l <==> d < n
  {
    var next: seq<nat>, l: seq<nat> := seq(n, i => i + 1), seq(n, i => i);
    forall i: nat | i < |l|
      ensures LinkOk(next, l, i)
    {
    }
    forall d: nat
      ensures d in l <==> d < n
    {
      if d < n {
        assert l[d] == d;
      }
    }
  }

  lemma FirstInv(world: World)
    ensures Inv(FirstQueue(world), FirstHistory(world), 0)
  {
    CountingList(LENGTH);
    CountingList(REQUESTS);
    forall d: nat | d < LENGTH
      ensures OwnedOk(FirstHistory(world), d)
    {
    }
    forall r: nat | r < REQUESTS
      ensures RequestOwnedOk(FirstHistory(world), r)
    {
    }
    var q, h := FirstQueue(world), FirstHistory(world);
    assert Shape(q, h);
    assert FreeOk(q, h);
    assert RequestsOk(q, h);
    assert OwnersOk(h) && StagesOk(h);
    assert RingsOk(q, h, 0);
    assert CalledOk(h);
  }

  class BlockDevice {
    var queue: Queue
    ghost var history: History

    ghost predicate Valid()
      reads this
    {
      Inv(queue, history, queue.lastSeenUsed)
    }

    /** Queue::init and the request pool of BlockDevice::init. */
    constructor (world: World)
      ensures Valid() && queue == FirstQueue(world) && history == FirstHistory(world)
    {
      FirstInv(world);
      var next: seq<nat>, i: nat := [], 0;
      while i < LENGTH
        invariant i <= LENGTH && next == seq(i, k => k + 1)
      {
        next, i := next + [i + 1], i + 1;
      }
      var requestNext: seq<nat>, r: nat := [], 0;
      while r < REQUESTS
        invariant r <= REQUESTS && requestNext == seq(r, k => k + 1)
      {
        requestNext, r := requestNext + [if r != REQUESTS - 1 then r + 1 else REQUESTS], r + 1;
      }
      queue := Queue(next, seq(LENGTH, _ => Buffer(Nowhere, 0, 0)), 0, LENGTH, seq(LENGTH, _ => 0), 0, seq(LENGTH, _ => 0), 0, 0,
                     requestNext, 0, seq(REQUESTS, _ => RequestHeader(false, 0)), 0, [], world);
      history := FirstHistory(world);
    }

    /**
      Any interleaving of submissions, device steps and interrupts, the handler resuming waiting
      coroutines among them. The history is exactly what the events make of it; what was accepted
      is in flight or has been called back exactly once.
     */
    method Run(events: seq<Event>)
      requires Valid()
      modifies this
      ensures Valid() && history == Outcome(old(history), events)
      ensures InFlight(history) <= 42 && NoDup(history.called)
      ensures forall s: nat :: s in history.called <==> s < history.submitted && s !in history.chains
    {
      var i := 0;
      while i < |events|
        invariant 0 <= i <= |events| && Valid() && history == Outcome(old(history), events[..i])
      {
        assert events[..i + 1][..i] == events[..i];
        match events[i] {
          case Act(a) => queue, history := Perform(queue, history, a, queue.lastSeenUsed);
          case Interrupt(turns) => queue, history := Irq(queue, history, turns);
        }
        i := i + 1;
      }
      assert events[..|events|] == events;
      Bounded(queue, history, queue.lastSeenUsed);
    }
  }
}
