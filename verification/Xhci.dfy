/**
  The TRB rings of the xHCI driver (section 4.9 of the xHCI 1.2 specification): a producer ring that
  ends in a Link TRB, the event ring, and the command ring with its pool of requests.
 */
module Xhci {
  import opened Common

  const SIZE: nat := 256            // PAGE_SIZE / sizeof(TRB)
  const SLOTS: nat := 255           // the last TRB of a producer ring is the link
  const TRB_SIZE: nat := 16
  const POOL: nat := 102            // PAGE_SIZE / sizeof(Request)
  const TYPE_LINK: nat := 6
  const TOGGLE_CYCLE: nat := 2

  datatype TRB = TRB(parameter: nat, status: nat, control: nat) {
    function Cycle(): nat { control % 2 }
    function Kind(): nat { control / 0x400 % 0x40 }
    function WithCycle(bit: nat): TRB
      requires bit <= 1
    {
      this.(control := control - control % 2 + bit)
    }
  }

  /** Passes over a ring are written with alternating cycle bits, the first one with 1. */
  function Bit(pass: int): (b: nat)
    ensures b <= 1
  {
    if pass % 2 == 0 then 1 else 0
  }

  function Link(base: nat, bit: nat): TRB {
    TRB(base, 0, TYPE_LINK * 0x400 + TOGGLE_CYCLE + bit)
  }

  // ---------------------------------------------------------------- the producer

  datatype EnqueueRing = EnqueueRing(base: nat, ring: seq<TRB>, index: nat, cycle: nat)

  /**
    What slot `k` of a ring of `n` slots holds when `pass` whole passes and `e` slots more have been
    written: a TRB of this pass, or one of the pass before, or what was there at first.
   */
  ghost predicate SlotOk(t: TRB, written: seq<TRB>, n: nat, pass: nat, e: nat, k: nat)
    requires k < n
  {
    var from := |written| - e;
    if k < e then 0 <= from && from + k < |written| && t == written[from + k].WithCycle(Bit(pass))
    else if pass > 0 then 0 <= from - n + k < |written| && t == written[from - n + k].WithCycle(Bit(pass - 1))
    else t.Cycle() == Bit(-1)
  }

  ghost predicate SlotsOk(ring: seq<TRB>, written: seq<TRB>, n: nat, pass: nat, e: nat) {
    && n <= |ring| && e < n && e <= |written| && (pass > 0 ==> |written| - e >= n)
    && (forall k: nat {:trigger SlotOk(ring[k], written, n, pass, e, k)} :: k < n ==> SlotOk(ring[k], written, n, pass, e, k))
  }

  /** The driver's side of a producer ring that has been given the TRBs `written`. */
  ghost predicate RingOk(r: EnqueueRing, written: seq<TRB>) {
    && |r.ring| == SIZE && SlotsOk(r.ring, written, SLOTS, |written| / SLOTS, |written| % SLOTS)
    && r.index == |written| % SLOTS && r.cycle == Bit(|written| / SLOTS)
    && r.ring[SLOTS] == Link(r.base, if |written| < SLOTS then 1 else Bit(|written| / SLOTS - 1))
    && (forall i :: 0 <= i < |written| ==> written[i].Kind() != TYPE_LINK)
  }

  /** Writing the next slot of the pass. */
  lemma WriteSlot(ring: seq<TRB>, ring': seq<TRB>, written: seq<TRB>, n: nat, pass: nat, e: nat, trb: TRB)
    requires SlotsOk(ring, written, n, pass, e) && |ring'| == |ring|
    requires forall k: nat :: k < n ==> ring'[k] == if k == e then trb.WithCycle(Bit(pass)) else ring[k]
    ensures if e + 1 == n then SlotsOk(ring', written + [trb], n, pass + 1, 0) else SlotsOk(ring', written + [trb], n, pass, e + 1)
  {
    var pass', e' := if e + 1 == n then pass + 1 else pass, if e + 1 == n then 0 else e + 1;
    forall k: nat | k < n
      ensures SlotOk(ring'[k], written + [trb], n, pass', e', k)
    {
      assert SlotOk(ring[k], written, n, pass, e, k);
    }
  }

  lemma NextPass(w: nat)
    ensures w % SLOTS == SLOTS - 1 ==> (w + 1) / SLOTS == w / SLOTS + 1 && (w + 1) % SLOTS == 0
    ensures w % SLOTS != SLOTS - 1 ==> (w + 1) / SLOTS == w / SLOTS && (w + 1) % SLOTS == w % SLOTS + 1
  {
  }

  lemma NextPassEvents(w: nat)
    ensures w % SIZE == SIZE - 1 ==> (w + 1) / SIZE == w / SIZE + 1 && (w + 1) % SIZE == 0
    ensures w % SIZE != SIZE - 1 ==> (w + 1) / SIZE == w / SIZE && (w + 1) % SIZE == w % SIZE + 1
  {
  }

  /** EnqueueRing::init. */
  method InitRing(base: nat) returns (r: EnqueueRing)
    ensures RingOk(r, []) && r.base == base && r.ring[255] == TRB(base, 0, 0x1803)
  {
    var ring := seq(SIZE, _ => TRB(0, 0, 0));
    r := EnqueueRing(base, ring[SIZE - 1 := Link(base, 1)], 0, 1);
    forall k: nat | k < SLOTS
      ensures SlotOk(r.ring[k], [], SLOTS, 0, 0, k)
    {
    }
  }

  /** EnqueueRing::enqueue. There is no check that the ring has room. */
  method Enqueue(r0: EnqueueRing, ghost written: seq<TRB>, trb: TRB) returns (phy: nat, r: EnqueueRing)
    requires RingOk(r0, written) && trb.Kind() != TYPE_LINK
    ensures RingOk(r, written + [trb]) && r.base == r0.base
    ensures phy == r0.base + |written| % 255 * 16
    ensures r.ring[255] == if |written| % 255 == 254 then TRB(r0.base, 0, 0x1802 + r0.cycle) else r0.ring[255]
  {
    phy := r0.base + r0.index * TRB_SIZE;
    r := r0.(ring := r0.ring[r0.index := trb.WithCycle(r0.cycle)]);
    r := r.(index := r.index + 1);
    NextPass(|written|);
    if r.index == SIZE - 1 {
      r := r.(ring := r.ring[SIZE - 1 := Link(r.base, r.cycle)]);
      r := r.(index := 0, cycle := 1 - r.cycle);
    }
    WriteSlot(r0.ring, r.ring, written, SLOTS, |written| / SLOTS, |written| % SLOTS, trb);
  }

  // ---------------------------------------------------------------- the consumer

  /** The controller's dequeue position and cycle state. */
  datatype Consumer = Consumer(index: nat, cycle: nat)

  datatype Step = Nothing | Item(trb: TRB, next: Consumer) | Follow(next: Consumer)

  /** What the controller does at its position: stop, take a TRB, or follow a link. */
  function Look(r: EnqueueRing, c: Consumer): Step {
    if c.index >= |r.ring| then Nothing
    else
      var t := r.ring[c.index];
      if t.Cycle() != c.cycle then Nothing
      else if t.Kind() != TYPE_LINK then Item(t, c.(index := c.index + 1))
      else if t.parameter < r.base then Nothing
      else
        Follow(Consumer((t.parameter - r.base) / TRB_SIZE,
                        if t.control / TOGGLE_CYCLE % 2 == 1 && c.cycle <= 1 then 1 - c.cycle else c.cycle))
  }

  /** The consumer stands before TRB number `read`; at index SLOTS it has yet to follow the link. */
  ghost predicate Reading(c: Consumer, read: nat) {
    && c.index <= SLOTS && c.index <= read && (read - c.index) % SLOTS == 0
    && c.cycle == Bit((read - c.index) / SLOTS)
  }

  /** Nothing the consumer has yet to look at has been overwritten. */
  ghost predicate Room(c: Consumer, read: nat, w: nat) {
    read <= w <= read + if c.index == SLOTS then SLOTS - 1 else SLOTS
  }

  ghost predicate Synced(r: EnqueueRing, written: seq<TRB>, c: Consumer, read: nat) {
    RingOk(r, written) && Reading(c, read) && Room(c, read, |written|)
  }

  /** How the two positions lie to each other. */
  lemma Positions(c: Consumer, read: nat, w: nat)
    requires Reading(c, read) && Room(c, read, w)
    ensures var p := (read - c.index) / SLOTS;
            && (c.index == SLOTS ==> w / SLOTS == p + 1)
            && (c.index < SLOTS && read == w ==> w / SLOTS == p && w % SLOTS == c.index)
            && (c.index < SLOTS && read < w ==>
                  (w / SLOTS == p && c.index < w % SLOTS) || (w / SLOTS == p + 1 && w % SLOTS <= c.index))
            && read == p * SLOTS + c.index
  {
  }

  /** The consumer sees exactly the next TRB that was enqueued, or stops, exactly at the enqueue point. */
  lemma LookSees(r: EnqueueRing, written: seq<TRB>, c: Consumer, read: nat)
    requires Synced(r, written, c, read)
    ensures c.index == SLOTS ==>
              Look(r, c).Follow? && Look(r, c).next.index == 0 && Synced(r, written, Look(r, c).next, read)
    ensures c.index < SLOTS && read < |written| ==>
              Look(r, c).Item? && Look(r, c).trb == written[read].WithCycle(c.cycle) && Synced(r, written, Look(r, c).next, read + 1)
    ensures c.index < SLOTS && read == |written| ==> Look(r, c).Nothing?
  {
    Positions(c, read, |written|);
    if c.index < SLOTS {
      assert SlotOk(r.ring[c.index], written, SLOTS, |written| / SLOTS, |written| % SLOTS, c.index);
      if read < |written| {
        KindWithCycle(written[read], c.cycle);
      }
    }
  }

  /** The same TRB apart from its cycle bit. */
  predicate SameTrb(t: TRB, u: TRB) {
    t.parameter == u.parameter && t.status == u.status && t.control / 2 == u.control / 2
  }

  lemma CycleOnly(t: TRB, bit: nat)
    requires bit <= 1
    ensures SameTrb(t.WithCycle(bit), t) && t.WithCycle(bit).control % 2 == bit
  {
  }

  lemma KindWithCycle(t: TRB, bit: nat)
    requires bit <= 1
    ensures t.WithCycle(bit).Kind() == t.Kind() && t.WithCycle(bit).Cycle() == bit
  {
    var c := t.control;
    assert (c - c % 2 + bit) / 0x400 == c / 0x400;
  }

  /** There is room for one more: a consumer that has yet to follow the link needs one slot more. */
  predicate CanEnqueue(c: Consumer, unread: nat) {
    unread < SLOTS - 1 || (unread == SLOTS - 1 && c.index != SLOTS)
  }

  /**
    With room the consumer stays in step; without it, and only then, the consumer stops at once
    although TRBs are waiting. Fewer than 254 unread TRBs always suffice.
   */
  lemma EnqueueSafe(r: EnqueueRing, written: seq<TRB>, trb: TRB, r': EnqueueRing, c: Consumer, read: nat)
    requires Synced(r, written, c, read) && RingOk(r', written + [trb]) && r'.base == r.base
    ensures CanEnqueue(c, |written| - read) ==> Synced(r', written + [trb], c, read)
    ensures !Look(r', c).Nothing? <==> CanEnqueue(c, |written| - read)
  {
    Positions(c, read, |written|);
    NextPass(|written|);
    if CanEnqueue(c, |written| - read) {
      LookSees(r', written + [trb], c, read);
    } else if c.index < SLOTS {
      var w := |written + [trb]|;
      assert SlotOk(r'.ring[c.index], written + [trb], SLOTS, w / SLOTS, w % SLOTS, c.index);
      KindWithCycle(trb, Bit(|written| / SLOTS));
    }
  }

  /** A consumer left alone takes everything that was enqueued, in order, and ends at the enqueue point. */
  method Drain(r: EnqueueRing, ghost written: seq<TRB>, c0: Consumer, ghost read: nat) returns (items: seq<TRB>, c: Consumer)
    requires Synced(r, written, c0, read)
    ensures |items| == |written| - read
    ensures forall i :: 0 <= i < |items| ==> items[i] == written[read + i].WithCycle(items[i].Cycle())
    ensures Synced(r, written, c, |written|) && Look(r, c).Nothing?
  {
    items, c := [], c0;
    LookSees(r, written, c, read);
    while !Look(r, c).Nothing?
      invariant |items| <= |written| - read && Synced(r, written, c, read + |items|)
      invariant forall i :: 0 <= i < |items| ==> items[i] == written[read + i].WithCycle(items[i].Cycle())
      decreases |written| - read - |items|, c.index
    {
      LookSees(r, written, c, read + |items|);
      match Look(r, c) {
        case Item(trb, next) =>
          KindWithCycle(written[read + |items|], c.cycle);
          items, c := items + [trb], next;
        case Follow(next) => c := next;
      }
    }
    LookSees(r, written, c, read + |items|);
  }

  /** Enqueueing a 255th TRB while the consumer waits at the link strands it there. */
  lemma LinkStrands(r: EnqueueRing, written: seq<TRB>, trb: TRB, r': EnqueueRing)
    requires |written| == 2 * SLOTS - 1 && RingOk(r, written) && RingOk(r', written + [trb]) && r'.base == r.base
    ensures Synced(r, written, Consumer(SLOTS, 1), SLOTS) && Look(r', Consumer(SLOTS, 1)).Nothing?
  {
    assert Room(Consumer(SLOTS, 1), SLOTS, |written|);
    EnqueueSafe(r, written, trb, r', Consumer(SLOTS, 1), SLOTS);
  }

  // ---------------------------------------------------------------- the event ring

  datatype EventRing = EventRing(ring: seq<TRB>, index: nat, cycle: nat)

  /** The driver has taken `read` of the events the controller has posted. */
  ghost predicate EventsOk(r: EventRing, posted: seq<TRB>, read: nat) {
    && |r.ring| == SIZE && SlotsOk(r.ring, posted, SIZE, |posted| / SIZE, |posted| % SIZE)
    && r.index == read % SIZE && r.cycle == Bit(read / SIZE)
    && read <= |posted| <= read + SIZE
  }

  method InitEvents() returns (r: EventRing)
    ensures EventsOk(r, [], 0)
  {
    r := EventRing(seq(SIZE, _ => TRB(0, 0, 0)), 0, 1);
    forall k: nat | k < SIZE
      ensures SlotOk(r.ring[k], [], SIZE, 0, 0, k)
    {
    }
  }

  /** The controller posts an event; it does not do so while the ring is full. */
  method Post(r0: EventRing, posted: nat, ghost events: seq<TRB>, ghost read: nat, event: TRB) returns (r: EventRing)
    requires EventsOk(r0, events, read) && posted == |events| && |events| < read + SIZE
    ensures EventsOk(r, events + [event], read)
  {
    r := r0.(ring := r0.ring[posted % SIZE := event.WithCycle(Bit(posted / SIZE))]);
    NextPassEvents(posted);
    WriteSlot(r0.ring, r.ring, events, SIZE, posted / SIZE, posted % SIZE, event);
  }

  /** EventRing::dequeue delivers the events in order, and -EWOULDBLOCK exactly when there is none. */
  method Dequeue(r0: EventRing, ghost events: seq<TRB>, ghost read: nat) returns (event: Option<TRB>, r: EventRing)
    requires EventsOk(r0, events, read)
    ensures event.None? <==> read == |events|
    ensures event.None? ==> r == r0
    ensures event.Some? ==> event.value == events[read].WithCycle(Bit(read / SIZE)) && EventsOk(r, events, read + 1)
  {
    EventAt(r0, events, read);
    NextPassEvents(read);
    if r0.ring[r0.index].Cycle() != r0.cycle {
      return None, r0;
    }
    event := Some(r0.ring[r0.index]);
    r := r0.(index := r0.index + 1);
    if r.index == SIZE {
      r := r.(index := 0, cycle := 1 - r.cycle);
    }
  }

  lemma EventAt(r: EventRing, events: seq<TRB>, read: nat)
    requires EventsOk(r, events, read)
    ensures read == |events| ==> r.ring[r.index].Cycle() != r.cycle
    ensures read < |events| ==> r.ring[r.index].Cycle() == r.cycle && r.ring[r.index] == events[read].WithCycle(Bit(read / SIZE))
  {
    assert SlotOk(r.ring[r.index], events, SIZE, |events| / SIZE, |events| % SIZE, r.index);
    EventPositions(read, |events|);
    if read < |events| {
      KindWithCycle(events[read], Bit(read / SIZE));
    } else if |events| >= SIZE {
      KindWithCycle(events[(|events| / SIZE - 1) * SIZE + r.index], Bit(|events| / SIZE - 1));
    }
  }

  lemma EventPositions(read: nat, w: nat)
    requires read <= w <= read + SIZE
    ensures read < w ==> (w / SIZE == read / SIZE && read % SIZE < w % SIZE) || (w / SIZE == read / SIZE + 1 && w % SIZE <= read % SIZE)
    ensures read == read / SIZE * SIZE + read % SIZE
  {
  }
}
