/**
  Commands on the xHCI command ring: a fixed pool of requests, completions in any order, matched by
  the physical address of the command, and callbacks that send the next command on the spot.
 */
module XhciCommands {
  import opened Common
  import opened Xhci

  const COMMAND_COMPLETION: nat := 33

  /** A request; its callback resumes the coroutine that sent the command of that number. */
  datatype Request = Request(id: nat, trbPhy: nat, callback: nat)

  /** The driver's state, and the controller's own: its position, how many commands it has fetched, and which it works on. */
  datatype Host = Host(
    ring: EnqueueRing,
    events: EventRing,
    free: seq<nat>,
    inFlight: seq<Request>,
    sent: nat,                  // tells the waiting coroutines apart
    resumed: seq<Resumption>,
    consumer: Consumer,
    fetched: nat,
    held: seq<nat>,
    posted: nat)

  /** A callback that was invoked, and the event it was given. */
  datatype Resumption = Resumption(callback: nat, event: TRB)

  /** What has happened so far. Commands are numbered as they are sent. */
  datatype Record = Record(
    base: nat,
    commands: seq<TRB>,
    consumer: Consumer,
    read: nat,                  // commands fetched by the controller
    held: seq<nat>,             // fetched and not completed
    log: seq<nat>,              // completed, in the order of their events
    posts: seq<TRB>,            // and the events
    outstanding: seq<nat>,      // for each request in flight, a command of its address that has not been answered
    senders: seq<nat>,          // for each request in flight, the command it was taken for
    answered: seq<nat>,         // for each event handled, the command whose sender was resumed
    clean: bool,                // no command was ever sent while one of the same address was in flight
    fair: bool)                 // no command ever completed while an older one of the same address was in flight

  /** The address of the TRB of command number `n`. */
  function Phy(base: nat, n: nat): nat {
    base + n % SLOTS * TRB_SIZE
  }

  /** The event the controller posts for command number `n`; the status is its own affair. */
  function Completion(base: nat, n: nat, status: nat): TRB {
    TRB(Phy(base, n), status, COMMAND_COMPLETION * 0x400)
  }

  predicate Alias(n: nat, m: nat) {
    n % SLOTS == m % SLOTS
  }

  lemma PhyAlias(base: nat, n: nat, m: nat)
    ensures Phy(base, n) == Phy(base, m) <==> Alias(n, m)
  {
  }

  // ---------------------------------------------------------------- what the steps do to the record

  datatype DeviceStep = Fetch | Complete(k: nat, status: nat)

  datatype Action = Device(step: DeviceStep) | Send(trb: TRB)

  /**
    One turn of the interrupt loop: what the controller does before the event ring is looked at, and
    what happens while the callback runs.
   */
  datatype Turn = Turn(before: seq<DeviceStep>, during: seq<Action>)

  datatype Event = Act(action: Action) | Interrupt(turns: seq<Turn>)

  function Cut<T>(s: seq<T>, k: nat): seq<T>
    requires k < |s|
  {
    s[..k] + s[k+1..]
  }

  /** The first command of the list that has the address of command `n`. */
  function FirstAlias(l: seq<nat>, n: nat): (k: nat)
    ensures k <= |l| && (k < |l| ==> Alias(l[k], n)) && forall j :: 0 <= j < k ==> !Alias(l[j], n)
  {
    if l == [] || Alias(l[0], n) then 0 else 1 + FirstAlias(l[1..], n)
  }

  function IndexOf(l: seq<nat>, n: nat): (k: nat)
    ensures k <= |l| && (k < |l| <==> n in l) && (k < |l| ==> l[k] == n)
  {
    if l == [] || l[0] == n then 0 else 1 + IndexOf(l[1..], n)
  }

  ghost function Next(r: Record, a: Action): Record {
    match a
    case Send(trb) =>
      if |r.outstanding| < POOL && trb.Kind() != TYPE_LINK then
        var n := |r.commands|;
        r.(commands := r.commands + [trb], outstanding := r.outstanding + [n], senders := r.senders + [n],
           clean := r.clean && FirstAlias(r.outstanding, n) == |r.outstanding|)
      else r
    case Device(Fetch) =>
      if r.consumer.index == SLOTS then r.(consumer := Consumer(0, if r.consumer.cycle <= 1 then 1 - r.consumer.cycle else r.consumer.cycle))
      else if r.read < |r.commands| then
        r.(consumer := r.consumer.(index := r.consumer.index + 1), read := r.read + 1, held := r.held + [r.read])
      else r
    case Device(Complete(k, status)) =>
      if k < |r.held| then
        r.(held := Cut(r.held, k), log := r.log + [r.held[k]], posts := r.posts + [Completion(r.base, r.held[k], status)])
      else r
  }

  ghost function After(r: Record, actions: seq<Action>): Record {
    if actions == [] then r
    else Next(After(r, actions[..|actions| - 1]), actions[|actions| - 1])
  }

  function Lifted(steps: seq<DeviceStep>): seq<Action> {
    seq(|steps|, i requires 0 <= i < |steps| => Device(steps[i]))
  }

  ghost predicate Waiting(r: Record) {
    |r.answered| < |r.log|
  }

  /** The oldest event is handled: the first request of its address is called back and freed. */
  ghost function Answer(r: Record): Record {
    if !Waiting(r) then r
    else
      var n := r.log[|r.answered|];
      var k, j := FirstAlias(r.outstanding, n), IndexOf(r.outstanding, n);
      if k < |r.outstanding| && j < |r.outstanding| && k < |r.senders| then
        r.(outstanding := Cut(r.outstanding[j := r.outstanding[k]], k), senders := Cut(r.senders, k), answered := r.answered + [r.senders[k]],
           fair := r.fair && k == j)
      else r
  }

  ghost predicate CanAnswer(r: Record) {
    && Waiting(r) && r.log[|r.answered|] in r.outstanding && |r.senders| == |r.outstanding|
  }

  ghost function Drained(r: Record): Record
    decreases |r.log| - |r.answered|
  {
    if CanAnswer(r) then Drained(Answer(r)) else r
  }

  ghost function Serviced(r: Record, turns: seq<Turn>): Record
    decreases |turns|
  {
    if turns == [] then Drained(r)
    else
      var r1 := After(r, Lifted(turns[0].before));
      if !Waiting(r1) then r1 else Serviced(Answer(After(r1, turns[0].during)), turns[1..])
  }

  ghost function Effect(r: Record, e: Event): Record {
    match e
    case Act(a) => Next(r, a)
    case Interrupt(turns) => Serviced(r, turns)
  }

  ghost function Outcome(r: Record, events: seq<Event>): Record {
    if events == [] then r else Effect(Outcome(r, events[..|events| - 1]), events[|events| - 1])
  }

  // ---------------------------------------------------------------- the invariant

  /** Every request of the pool is free or in flight, once. */
  ghost predicate PoolOk(free: seq<nat>, inFlight: seq<Request>) {
    && |free| + |inFlight| == POOL && NoDup(free)
    && (forall j, k :: 0 <= j < k < |inFlight| ==> inFlight[j].id != inFlight[k].id)
    && (forall j :: 0 <= j < |inFlight| ==> inFlight[j].id !in free)
  }

  ghost predicate PostAt(r: Record, i: nat)
    requires i < |r.posts| == |r.log|
  {
    r.posts[i] == Completion(r.base, r.log[i], r.posts[i].status)
  }

  ghost predicate PostsOk(r: Record) {
    |r.posts| == |r.log| && forall i: nat {:trigger PostAt(r, i)} :: i < |r.log| ==> PostAt(r, i)
  }

  ghost predicate FlightAt(base: nat, inFlight: seq<Request>, outstanding: seq<nat>, senders: seq<nat>, j: nat)
    requires j < |inFlight| == |outstanding| == |senders|
  {
    inFlight[j].trbPhy == Phy(base, outstanding[j]) && inFlight[j].callback == senders[j]
  }

  /** The requests in flight have the addresses of the commands outstanding. */
  ghost predicate FlightOk(base: nat, inFlight: seq<Request>, outstanding: seq<nat>, senders: seq<nat>) {
    && |inFlight| == |outstanding| == |senders|
    && (forall j: nat {:trigger FlightAt(base, inFlight, outstanding, senders, j)} :: j < |inFlight| ==>
          FlightAt(base, inFlight, outstanding, senders, j))
  }

  /** What the controller holds has been fetched and is not completed; what it completed, it completed once. */
  ghost predicate DeviceOk(r: Record) {
    && NoDup(r.held) && NoDup(r.log) && r.read <= |r.commands|
    && (forall n :: n in r.held ==> n < r.read && n !in r.log)
    && (forall n :: n in r.log ==> n < r.read)
  }

  /** The commands outstanding are those whose event has not been handled. */
  ghost predicate OutstandingOk(r: Record) {
    && |r.answered| <= |r.log| && NoDup(r.outstanding)
    && |r.outstanding| == |r.commands| - r.read + |r.held| + (|r.log| - |r.answered|)
    && (forall n: nat :: n in r.outstanding <==> n < |r.commands| && n !in r.log[..|r.answered|])
  }

  /** Every sender waits for its callback or has had it, once. */
  ghost predicate SendersOk(r: Record) {
    && NoDup(r.senders) && NoDup(r.answered)
    && (forall n: nat :: n in r.senders <==> n < |r.commands| && n !in r.answered)
    && (forall n :: n in r.answered ==> n < |r.commands|)
  }

  /** Callback `i` was given event `i`, and was that of the sender that the record names. */
  ghost predicate ResumedAt(resumed: seq<Resumption>, r: Record, i: nat)
    requires i < |resumed| <= |r.posts|
  {
    SameTrb(resumed[i].event, r.posts[i]) && (i < |r.answered| ==> resumed[i].callback == r.answered[i])
  }

  ghost predicate ResumedOk(resumed: seq<Resumption>, r: Record, seen: nat) {
    && |resumed| == seen <= |r.posts|
    && forall i: nat {:trigger ResumedAt(resumed, r, i)} :: i < |resumed| ==> ResumedAt(resumed, r, i)
  }

  ghost predicate NoAlias(l: seq<nat>) {
    forall j, k :: 0 <= j < k < |l| ==> !Alias(l[j], l[k])
  }

  /** Every event handled has resumed the sender of its own command. */
  ghost predicate Straight(r: Record) {
    |r.answered| <= |r.log| && r.answered == r.log[..|r.answered|]
  }

  /** That is so exactly when no event ever came for a command behind one of the same address. */
  ghost predicate FairOk(r: Record) {
    (r.fair <==> Straight(r)) && (r.fair ==> r.senders == r.outstanding)
  }

  ghost predicate CleanOk(r: Record) {
    r.clean ==> r.fair && NoAlias(r.outstanding)
  }

  ghost predicate RecordOk(r: Record) {
    PostsOk(r) && DeviceOk(r) && OutstandingOk(r) && SendersOk(r) && FairOk(r) && CleanOk(r)
  }

  /** `seen` is the number of events taken from the event ring. */
  ghost predicate Clauses(h: Host, r: Record, seen: nat) {
    && Synced(h.ring, r.commands, h.consumer, r.read) && h.ring.base == r.base
    && h.sent == |r.commands| && h.consumer == r.consumer && h.fetched == r.read && h.held == r.held && h.posted == |r.posts|
    && EventsOk(h.events, r.posts, seen) && |r.answered| <= seen
    && FlightOk(r.base, h.inFlight, r.outstanding, r.senders) && PoolOk(h.free, h.inFlight)
    && RecordOk(r) && ResumedOk(h.resumed, r, seen)
  }

  ghost predicate Inv(h: Host, r: Record, seen: nat) {
    Clauses(h, r, seen) == true
  }

  /** What was delivered stays so while nothing is answered. */
  lemma ResumedLater(resumed: seq<Resumption>, r: Record, r': Record, seen: nat)
    requires ResumedOk(resumed, r, seen) && r'.answered == r.answered && r.posts <= r'.posts
    ensures ResumedOk(resumed, r', seen)
  {
    forall i: nat | i < |resumed|
      ensures ResumedAt(resumed, r', i)
    {
      assert ResumedAt(resumed, r, i);
    }
  }

  /** The next callback is given its event. */
  lemma ResumedNext(resumed: seq<Resumption>, r: Record, seen: nat, callback: nat, event: TRB, next: nat)
    requires ResumedOk(resumed, r, seen) && next == seen + 1 && seen < |r.posts| && |r.answered| <= seen && SameTrb(event, r.posts[seen])
    ensures ResumedOk(resumed + [Resumption(callback, event)], r, next)
  {
    var resumed' := resumed + [Resumption(callback, event)];
    forall i: nat | i < |resumed'|
      ensures ResumedAt(resumed', r, i)
    {
      assert i < |resumed| ==> ResumedAt(resumed, r, i);
    }
  }

  lemma ResumedAnswered(resumed: seq<Resumption>, r: Record, r': Record, seen: nat, callback: nat)
    requires ResumedOk(resumed, r, seen) && seen == |r.answered| + 1 && resumed[seen - 1].callback == callback
    requires r'.answered == r.answered + [callback] && r'.posts == r.posts
    ensures ResumedOk(resumed, r', seen)
  {
    forall i: nat | i < |resumed|
      ensures ResumedAt(resumed, r', i)
    {
      assert ResumedAt(resumed, r, i);
    }
  }

  // ---------------------------------------------------------------- sending

  lemma PoolTake(free: seq<nat>, inFlight: seq<Request>, phy: nat, callback: nat)
    requires PoolOk(free, inFlight) && free != []
    ensures PoolOk(free[1..], inFlight + [Request(free[0], phy, callback)])
  {
    NoDupPop(free);
  }

  lemma FlightPush(base: nat, inFlight: seq<Request>, outstanding: seq<nat>, senders: seq<nat>, id: nat, n: nat)
    requires FlightOk(base, inFlight, outstanding, senders)
    ensures FlightOk(base, inFlight + [Request(id, Phy(base, n), n)], outstanding + [n], senders + [n])
  {
    var f, o, s := inFlight + [Request(id, Phy(base, n), n)], outstanding + [n], senders + [n];
    forall j: nat | j < |f|
      ensures FlightAt(base, f, o, s, j)
    {
      assert j < |inFlight| ==> FlightAt(base, inFlight, outstanding, senders, j);
    }
  }

  lemma SendRecord(r: Record, trb: TRB)
    requires RecordOk(r) && |r.outstanding| < POOL && trb.Kind() != TYPE_LINK
    ensures RecordOk(Next(r, Send(trb)))
  {
    var n, r' := |r.commands|, Next(r, Send(trb));
    assert n !in r.outstanding && n !in r.senders;
    forall i: nat | i < |r.log|
      ensures PostAt(r', i) && r.log[i] < n
    {
      assert PostAt(r, i) && r.log[i] in r.log;
    }
    assert forall m :: m in r.log[..|r.answered|] ==> m in r.log;
    NoDupPush(r.outstanding, n);
    NoDupPush(r.senders, n);
  }

  /** send_command. The pool keeps the number of commands in flight far below the size of the ring. */
  method SendCommand(h0: Host, ghost r0: Record, trb: TRB, ghost seen: nat) returns (ok: bool, h: Host, ghost r: Record)
    requires Inv(h0, r0, seen) && trb.Kind() != TYPE_LINK
    ensures Inv(h, r, seen) && r == Next(r0, Send(trb))
    ensures ok <==> |r0.outstanding| < POOL
    ensures h0.inFlight <= h.inFlight && h.resumed == h0.resumed
  {
    h, r := h0, r0;
    if h.free == [] {
      return false, h, r;
    }
    var id := h.free[0];
    var phy, ring := Enqueue(h.ring, r0.commands, trb);
    EnqueueSafe(h.ring, r0.commands, trb, ring, h.consumer, r0.read);
    PoolTake(h.free, h.inFlight, phy, h.sent);
    FlightPush(r0.base, h.inFlight, r0.outstanding, r0.senders, id, h.sent);
    SendRecord(r0, trb);
    ResumedLater(h.resumed, r0, Next(r0, Send(trb)), seen);
    h := h.(free := h.free[1..], ring := ring, inFlight := h.inFlight + [Request(id, phy, h.sent)], sent := h.sent + 1);
    r := Next(r0, Send(trb));
    return true, h, r;
  }

  // ---------------------------------------------------------------- the controller

  /** The controller moves on in the command ring; it sees exactly the commands sent. */
  method FetchCommand(h0: Host, ghost r0: Record, ghost seen: nat) returns (step: Step, h: Host, ghost r: Record)
    requires Inv(h0, r0, seen)
    ensures Inv(h, r, seen) && r == Next(r0, Device(Fetch)) && h.inFlight == h0.inFlight && h.resumed == h0.resumed
    ensures step.Nothing? ==> r0.read == |r0.commands|
    ensures step.Item? ==> r0.read < |r0.commands| && SameTrb(step.trb, r0.commands[r0.read])
  {
    FetchSees(h0.ring, r0);
    FetchRecord(r0);
    ResumedLater(h0.resumed, r0, Next(r0, Device(Fetch)), seen);
    h, r := h0, Next(r0, Device(Fetch));
    step := Look(h.ring, h.consumer);
    match step
    case Nothing =>
    case Item(trb, next) => h := h.(consumer := next, fetched := h.fetched + 1, held := h.held + [h.fetched]);
    case Follow(next) => h := h.(consumer := next);
  }

  lemma FetchSees(ring: EnqueueRing, r: Record)
    requires Synced(ring, r.commands, r.consumer, r.read)
    ensures var step, r' := Look(ring, r.consumer), Next(r, Device(Fetch));
            && Synced(ring, r'.commands, r'.consumer, r'.read)
            && (step.Nothing? ==> r' == r && r.read == |r.commands|)
            && (step.Item? ==> r.read < |r.commands| && SameTrb(step.trb, r.commands[r.read])
                               && r' == r.(consumer := step.next, read := r.read + 1, held := r.held + [r.read]))
            && (step.Follow? ==> r' == r.(consumer := step.next))
  {
    LookSees(ring, r.commands, r.consumer, r.read);
    if r.consumer.index < SLOTS && r.read < |r.commands| {
      CycleOnly(r.commands[r.read], r.consumer.cycle);
    }
  }

  lemma FetchRecord(r: Record)
    requires RecordOk(r)
    ensures RecordOk(Next(r, Device(Fetch)))
  {
    var r' := Next(r, Device(Fetch));
    assert r.read !in r.held && r.read !in r.log;
    NoDupPush(r.held, r.read);
    forall i: nat | i < |r'.log|
      ensures PostAt(r', i)
    {
      assert PostAt(r, i);
    }
  }

  lemma CompleteRecord(r: Record, k: nat, status: nat)
    requires RecordOk(r) && k < |r.held|
    ensures RecordOk(Next(r, Device(Complete(k, status))))
  {
    var n, r' := r.held[k], Next(r, Device(Complete(k, status)));
    assert n in r.held;
    NoDupCut(r.held, k);
    NoDupPush(r.log, n);
    forall i: nat | i < |r'.log|
      ensures PostAt(r', i)
    {
      assert i < |r.log| ==> PostAt(r, i);
    }
    assert r'.log[..|r.answered|] == r.log[..|r.answered|];
  }

  /** The controller completes any of the commands it works on. */
  method CompleteCommand(h0: Host, ghost r0: Record, k: nat, status: nat, ghost seen: nat) returns (h: Host, ghost r: Record)
    requires Inv(h0, r0, seen)
    ensures Inv(h, r, seen) && r == Next(r0, Device(Complete(k, status))) && h.inFlight == h0.inFlight && h.resumed == h0.resumed
  {
    h, r := h0, r0;
    if k < |h.held| {
      CompleteRecord(r0, k, status);
      ResumedLater(h.resumed, r0, Next(r0, Device(Complete(k, status))), seen);
      var event := Completion(h.ring.base, h.held[k], status);
      var events := Post(h.events, h.posted, r0.posts, seen, event);
      h := h.(held := Cut(h.held, k), events := events, posted := h.posted + 1);
      r := Next(r0, Device(Complete(k, status)));
    }
  }

  // ---------------------------------------------------------------- actions

  method Perform(h0: Host, ghost r0: Record, a: Action, ghost seen: nat) returns (h: Host, ghost r: Record)
    requires Inv(h0, r0, seen)
    ensures Inv(h, r, seen) && r == Next(r0, a) && h0.inFlight <= h.inFlight && h.resumed == h0.resumed
  {
    h, r := h0, r0;
    match a
    case Send(trb) =>
      if trb.Kind() != TYPE_LINK {
        var ok;
        ok, h, r := SendCommand(h, r, trb, seen);
      }
    case Device(Fetch) =>
      var step;
      step, h, r := FetchCommand(h, r, seen);
    case Device(Complete(k, status)) => h, r := CompleteCommand(h, r, k, status, seen);
  }

  function Sends(actions: seq<Action>): nat {
    if actions == [] then 0
    else Sends(actions[..|actions| - 1]) + if actions[|actions| - 1].Send? then 1 else 0
  }

  /** What later actions leave as it is. */
  ghost predicate Grows(r: Record, r': Record) {
    && r.log <= r'.log && r.outstanding <= r'.outstanding && r.senders <= r'.senders && r'.answered == r.answered
    && r.commands <= r'.commands && r'.base == r.base
  }

  lemma NextGrows(r: Record, a: Action)
    ensures Grows(r, Next(r, a)) && |Next(r, a).outstanding| <= |r.outstanding| + if a.Send? then 1 else 0
  {
  }

  method PerformAll(h0: Host, ghost r0: Record, actions: seq<Action>, ghost seen: nat) returns (h: Host, ghost r: Record)
    requires Inv(h0, r0, seen)
    ensures Inv(h, r, seen) && r == After(r0, actions) && h0.inFlight <= h.inFlight && h.resumed == h0.resumed
    ensures Grows(r0, r) && |r.outstanding| <= |r0.outstanding| + Sends(actions)
  {
    h, r := h0, r0;
    var i := 0;
    while i < |actions|
      invariant 0 <= i <= |actions| && Inv(h, r, seen) && r == After(r0, actions[..i]) && h0.inFlight <= h.inFlight && h.resumed == h0.resumed
      invariant Grows(r0, r) && |r.outstanding| <= |r0.outstanding| + Sends(actions[..i])
    {
      assert actions[..i + 1][..i] == actions[..i];
      NextGrows(r, actions[i]);
      h, r := Perform(h, r, actions[i], seen);
      i := i + 1;
    }
    assert actions[..|actions|] == actions;
  }

  // ---------------------------------------------------------------- answering an event

  /** Exchanging two elements and taking out the one that is now at `k`. */
  lemma SwapCut(l: seq<nat>, k: nat, j: nat)
    requires NoDup(l) && k <= j < |l|
    ensures var t := Cut(l[j := l[k]], k); NoDup(t) && forall x :: x in t <==> x in l && x != l[j]
  {
    var swapped := l[j := l[k]][k := l[j]];
    assert Cut(l[j := l[k]], k) == Cut(swapped, k);
    forall a, b | 0 <= a < b < |swapped|
      ensures swapped[a] != swapped[b]
    {
    }
    NoDupCut(swapped, k);
    assert forall x :: x in swapped <==> x in l by {
      forall x | x in l ensures x in swapped {
        var i :| 0 <= i < |l| && l[i] == x;
        assert swapped[if i == j then k else if i == k then j else i] == x;
      }
    }
  }

  lemma NoAliasCut(l: seq<nat>, k: nat)
    requires NoAlias(l) && k < |l|
    ensures NoAlias(Cut(l, k))
  {
    var t := Cut(l, k);
    forall a, b | 0 <= a < b < |t|
      ensures !Alias(t[a], t[b])
    {
      assert t[a] == l[if a < k then a else a + 1] && t[b] == l[if b < k then b else b + 1];
    }
  }

  /** The command of the oldest event is outstanding, and the first one of its address is not behind it. */
  lemma AnswerReady(r: Record)
    requires RecordOk(r) && Waiting(r) && |r.senders| == |r.outstanding|
    ensures var n := r.log[|r.answered|];
            CanAnswer(r) && FirstAlias(r.outstanding, n) <= IndexOf(r.outstanding, n) < |r.outstanding|
  {
    var a := |r.answered|;
    var n := r.log[a];
    assert n in r.log;
    forall i | 0 <= i < a
      ensures r.log[..a][i] != n
    {
      assert r.log[i] != r.log[a];
    }
    assert Alias(r.outstanding[IndexOf(r.outstanding, n)], n);
  }

  lemma AnswerOutstanding(r: Record)
    requires RecordOk(r) && Waiting(r) && |r.senders| == |r.outstanding|
    ensures OutstandingOk(Answer(r)) && DeviceOk(Answer(r)) && PostsOk(Answer(r))
  {
    AnswerReady(r);
    var a, r' := |r.answered|, Answer(r);
    var n := r.log[a];
    SwapCut(r.outstanding, FirstAlias(r.outstanding, n), IndexOf(r.outstanding, n));
    assert r.log[..a + 1] == r.log[..a] + [n];
    forall i: nat | i < |r'.log|
      ensures PostAt(r', i)
    {
      assert PostAt(r, i);
    }
  }

  lemma AnswerSenders(r: Record)
    requires RecordOk(r) && Waiting(r) && |r.senders| == |r.outstanding|
    ensures SendersOk(Answer(r))
  {
    AnswerReady(r);
    var k, r' := FirstAlias(r.outstanding, r.log[|r.answered|]), Answer(r);
    var s := r.senders[k];
    assert s in r.senders;
    NoDupCut(r.senders, k);
    NoDupPush(r.answered, s);
    forall n: nat
      ensures n in r'.senders <==> n < |r.commands| && n !in r'.answered
    {
      assert n in r'.senders <==> n in r.senders && n != s;
    }
  }

  lemma AnswerClean(r: Record)
    requires RecordOk(r) && Waiting(r) && r.clean
    ensures CleanOk(Answer(r))
  {
    AnswerReady(r);
    var n := r.log[|r.answered|];
    var k, j := FirstAlias(r.outstanding, n), IndexOf(r.outstanding, n);
    FirstOfNoAlias(r.outstanding, k, j);
    assert r.outstanding[j := r.outstanding[k]] == r.outstanding;
    NoAliasCut(r.outstanding, k);
  }

  /** Once a sender was resumed for another's command, the record never is straight again. */
  lemma AnswerStraight(r: Record)
    requires RecordOk(r) && Waiting(r) && |r.senders| == |r.outstanding|
    ensures var n := r.log[|r.answered|];
            && CanAnswer(r) && FirstAlias(r.outstanding, n) < |r.senders|
            && (Straight(Answer(r)) <==> Straight(r) && r.senders[FirstAlias(r.outstanding, n)] == n)
  {
    AnswerReady(r);
    var a := |r.answered|;
    var n, r' := r.log[a], Answer(r);
    var x := r.senders[FirstAlias(r.outstanding, n)];
    assert r.log[..a + 1] == r.log[..a] + [n] && r'.answered == r.answered + [x];
    assert Straight(r') ==> r'.answered[..a] == r.log[..a + 1][..a] && r'.answered[a] == r.log[..a + 1][a];
    assert r'.answered[..a] == r.answered && r.log[..a + 1][..a] == r.log[..a];
  }

  lemma AnswerFair(r: Record)
    requires RecordOk(r) && Waiting(r) && |r.senders| == |r.outstanding|
    ensures FairOk(Answer(r))
  {
    AnswerReady(r);
    AnswerStraight(r);
    var n := r.log[|r.answered|];
    var k, j := FirstAlias(r.outstanding, n), IndexOf(r.outstanding, n);
    SameIndex(r.outstanding, k, j);
    if r.fair && k == j {
      assert r.outstanding[j := r.outstanding[k]] == r.outstanding;
    }
  }

  lemma FirstOfNoAlias(l: seq<nat>, k: nat, j: nat)
    requires NoAlias(l) && k <= j < |l| && Alias(l[k], l[j])
    ensures k == j
  {
  }

  /** Handling an event keeps the record right: exactly one waiting sender is resumed. */
  lemma AnswerRecord(r: Record)
    requires RecordOk(r) && Waiting(r) && |r.senders| == |r.outstanding|
    ensures RecordOk(Answer(r)) && CanAnswer(r) && |Answer(r).outstanding| + 1 == |r.outstanding|
  {
    AnswerReady(r);
    AnswerOutstanding(r);
    AnswerSenders(r);
    AnswerFair(r);
    if r.clean {
      AnswerClean(r);
    }
  }

  /**
    Handling an event keeps events and senders together exactly when they were together before and
    no command sent before the completed one and still in flight has the same address.
   */
  lemma OwnSender(r: Record)
    requires RecordOk(r) && Waiting(r) && |r.senders| == |r.outstanding|
    ensures var n := r.log[|r.answered|];
            Straight(Answer(r)) <==>
            Straight(r) && forall j :: 0 <= j < IndexOf(r.outstanding, n) ==> !Alias(r.outstanding[j], n)
  {
    AnswerReady(r);
    AnswerStraight(r);
    var n := r.log[|r.answered|];
    SameIndex(r.outstanding, FirstAlias(r.outstanding, n), IndexOf(r.outstanding, n));
  }

  lemma SameIndex(l: seq<nat>, k: nat, j: nat)
    requires NoDup(l) && k < |l| && j < |l|
    ensures l[k] == l[j] <==> k == j
  {
  }

  /** Commands sent within 255 of one another never share an address. */
  lemma WindowIsClean(r: Record, trb: TRB)
    requires RecordOk(r) && r.clean && |r.outstanding| < POOL && trb.Kind() != TYPE_LINK
    requires forall m :: m in r.outstanding ==> |r.commands| - m < SLOTS
    ensures Next(r, Send(trb)).clean
  {
    var k := FirstAlias(r.outstanding, |r.commands|);
    if k < |r.outstanding| {
      assert r.outstanding[k] in r.outstanding;
      NearApart(r.outstanding[k], |r.commands|);
    }
  }

  lemma NearApart(m: nat, n: nat)
    requires m < n < m + SLOTS
    ensures !Alias(m, n)
  {
  }

  // ---------------------------------------------------------------- the interrupt

  lemma PoolGive(free: seq<nat>, inFlight: seq<Request>, k: nat)
    requires PoolOk(free, inFlight) && k < |inFlight|
    ensures PoolOk(free + [inFlight[k].id], Cut(inFlight, k))
  {
    var rest := Cut(inFlight, k);
    NoDupPush(free, inFlight[k].id);
    forall j | 0 <= j < |rest|
      ensures rest[j] == inFlight[if j < k then j else j + 1]
    {
    }
  }

  lemma FlightAnswer(base: nat, inFlight: seq<Request>, outstanding: seq<nat>, senders: seq<nat>, k: nat, j: nat)
    requires FlightOk(base, inFlight, outstanding, senders) && k <= j < |inFlight| && Alias(outstanding[k], outstanding[j])
    ensures FlightOk(base, Cut(inFlight, k), Cut(outstanding[j := outstanding[k]], k), Cut(senders, k))
  {
    var f, o, s := Cut(inFlight, k), Cut(outstanding[j := outstanding[k]], k), Cut(senders, k);
    forall i: nat | i < |f|
      ensures FlightAt(base, f, o, s, i)
    {
      assert FlightAt(base, inFlight, outstanding, senders, if i < k then i else i + 1);
      PhyAlias(base, outstanding[k], outstanding[j]);
    }
  }

  /** The search of the interrupt handler through the requests in flight. */
  method FindRequest(inFlight: seq<Request>, parameter: nat) returns (k: Option<nat>)
    ensures k.Some? ==> k.value < |inFlight| && inFlight[k.value].trbPhy == parameter
    ensures forall j :: 0 <= j < (if k.Some? then k.value else |inFlight|) ==> inFlight[j].trbPhy != parameter
  {
    var i := 0;
    while i < |inFlight|
      invariant 0 <= i <= |inFlight| && forall j :: 0 <= j < i ==> inFlight[j].trbPhy != parameter
    {
      if inFlight[i].trbPhy == parameter {
        return Some(i);
      }
      i := i + 1;
    }
    return None;
  }

  /** The search stops at the first request of the address of the completed command. */
  lemma FoundIsFirst(base: nat, inFlight: seq<Request>, outstanding: seq<nat>, senders: seq<nat>, n: nat, k: Option<nat>)
    requires FlightOk(base, inFlight, outstanding, senders) && FirstAlias(outstanding, n) < |outstanding|
    requires k.Some? ==> k.value < |inFlight| && inFlight[k.value].trbPhy == Phy(base, n)
    requires forall j :: 0 <= j < (if k.Some? then k.value else |inFlight|) ==> inFlight[j].trbPhy != Phy(base, n)
    ensures k == Some(FirstAlias(outstanding, n))
  {
    var first := FirstAlias(outstanding, n);
    assert FlightAt(base, inFlight, outstanding, senders, first);
    PhyAlias(base, outstanding[first], n);
    if k.Some? && k.value < first {
      assert FlightAt(base, inFlight, outstanding, senders, k.value);
      PhyAlias(base, outstanding[k.value], n);
    }
  }

  lemma EventKind(r: Record, i: nat)
    requires PostsOk(r) && i < |r.log|
    ensures var e := r.posts[i].WithCycle(Bit(i / SIZE)); e.Kind() == COMMAND_COMPLETION && e.parameter == Phy(r.base, r.log[i])
  {
    assert PostAt(r, i);
    KindWithCycle(r.posts[i], Bit(i / SIZE));
  }

  lemma AliasOfPrefix(l: seq<nat>, l': seq<nat>, n: nat)
    requires l <= l' && FirstAlias(l, n) < |l|
    ensures FirstAlias(l', n) == FirstAlias(l, n)
  {
    var k, k' := FirstAlias(l, n), FirstAlias(l', n);
    assert l'[k] == l[k];
    assert forall j :: 0 <= j < k ==> l'[j] == l[j];
  }

  /** free_request, for the request at place `k` of the list. */
  method FreeRequest(h0: Host, ghost r0: Record, ghost seen: nat, k: nat) returns (h: Host, ghost r: Record)
    requires Inv(h0, r0, seen) && Waiting(r0) && seen == |r0.answered| + 1 && k == FirstAlias(r0.outstanding, r0.log[|r0.answered|]) < |h0.inFlight|
    requires |h0.resumed| == seen && h0.resumed[seen - 1].callback == h0.inFlight[k].callback
    ensures Inv(h, r, seen) && r == Answer(r0) && |r.answered| == seen && |r.outstanding| + 1 == |r0.outstanding|
    ensures r.answered == r0.answered + [h0.inFlight[k].callback]
  {
    var n := r0.log[|r0.answered|];
    AnswerReady(r0);
    AnswerRecord(r0);
    FlightAnswer(r0.base, h0.inFlight, r0.outstanding, r0.senders, k, IndexOf(r0.outstanding, n));
    PoolGive(h0.free, h0.inFlight, k);
    assert FlightAt(r0.base, h0.inFlight, r0.outstanding, r0.senders, k);
    h := h0.(inFlight := Cut(h0.inFlight, k), free := h0.free + [h0.inFlight[k].id]);
    r := Answer(r0);
    ResumedAnswered(h0.resumed, r0, r, seen, h0.inFlight[k].callback);
  }

  /**
    One turn of the interrupt loop. The request is found by address, its callback runs and meanwhile
    anything may happen, further commands being sent included; then the request is freed.
   */
  method HandleEvent(h0: Host, ghost r0: Record, ghost seen: nat, during: seq<Action>)
    returns (more: bool, h: Host, ghost r: Record, ghost next: nat)
    requires Inv(h0, r0, seen) && seen == |r0.answered|
    ensures Inv(h, r, next) && next == |r.answered| && (more <==> Waiting(r0))
    ensures r == if more then Answer(After(r0, during)) else r0
    ensures more ==> CanAnswer(After(r0, during)) && |r.outstanding| + 1 <= |r0.outstanding| + Sends(during)
  {
    h, r, next := h0, r0, seen;
    var event, events := Dequeue(h.events, r0.posts, seen);
    if event.None? {
      return false, h, r, next;
    }
    next := seen + 1;
    EventKind(r0, seen);
    AnswerReady(r0);
    ghost var n := r0.log[seen];
    if event.value.Kind() == COMMAND_COMPLETION {
      var k := FindRequest(h.inFlight, event.value.parameter);
      FoundIsFirst(r0.base, h.inFlight, r0.outstanding, r0.senders, n, k);
      if k.Some? {
        CycleOnly(r0.posts[seen], Bit(seen / SIZE));
        ResumedNext(h.resumed, r0, seen, h.inFlight[k.value].callback, event.value, next);
        h := h.(events := events, resumed := h.resumed + [Resumption(h.inFlight[k.value].callback, event.value)]);
        h, r := PerformAll(h, r, during, next);
        AliasOfPrefix(r0.outstanding, r.outstanding, n);
        AnswerReady(r);
        h, r := FreeRequest(h, r, next, k.value);
      }
    }
    return true, h, r, next;
  }

  // ---------------------------------------------------------------- the interrupt loop

  /** What is left to do when the event ring is about to be looked at in turn `k`. */
  ghost function Remaining(r: Record, turns: seq<Turn>, k: nat): Record {
    if !Waiting(r) then r
    else if k < |turns| then Serviced(Answer(After(r, turns[k].during)), turns[k+1..])
    else Drained(r)
  }

  function Before(turns: seq<Turn>, k: nat): seq<Action> {
    if k < |turns| then Lifted(turns[k].before) else []
  }

  function During(turns: seq<Turn>, k: nat): seq<Action> {
    if k < |turns| then turns[k].during else []
  }

  /** The sends that callbacks have yet to make from turn `k` on. */
  function Left(turns: seq<Turn>, k: nat): nat
    decreases |turns| - k
  {
    if k < |turns| then Sends(turns[k].during) + Left(turns, k + 1) else 0
  }

  lemma DrainedStep(r: Record)
    requires CanAnswer(r)
    ensures Drained(r) == Drained(Answer(r))
  {
  }

  lemma DrainedDone(r: Record)
    requires !CanAnswer(r)
    ensures Drained(r) == r
  {
  }

  /** The handler from turn `k` on, up to the first look at the event ring. */
  lemma ServicedFrom(x: Record, turns: seq<Turn>, k: nat)
    requires k < |turns|
    ensures Serviced(x, turns[k..]) == Remaining(After(x, Lifted(turns[k].before)), turns, k)
  {
    var rest := turns[k..];
    assert rest[0] == turns[k] && rest[1..] == turns[k+1..];
  }

  lemma RemainingLast(x: Record, turns: seq<Turn>, k: nat)
    requires k >= |turns| && (Waiting(x) <==> CanAnswer(x))
    ensures Remaining(x, turns, k) == Drained(x)
  {
    if !Waiting(x) {
      DrainedDone(x);
    }
  }

  lemma RemainingNext(r: Record, x: Record, r1: Record, turns: seq<Turn>, k: nat, k': nat)
    requires k' == k + 1 && Waiting(r) && (Waiting(r1) <==> CanAnswer(r1))
    requires x == Answer(After(r, During(turns, k))) && (k >= |turns| ==> CanAnswer(r))
    requires r1 == After(x, Before(turns, k'))
    ensures Remaining(r1, turns, k') == Remaining(r, turns, k)
  {
    if k' < |turns| {
      ServicedFrom(x, turns, k');
    } else {
      RemainingLast(r1, turns, k');
      if k < |turns| {
        assert turns[k+1..] == [];
      } else {
        DrainedStep(r);
      }
    }
  }

  lemma {:induction false} NoSends(steps: seq<DeviceStep>)
    ensures Sends(Lifted(steps)) == 0
  {
    if steps != [] {
      NoSends(steps[..|steps| - 1]);
      assert Lifted(steps)[..|steps| - 1] == Lifted(steps[..|steps| - 1]);
    }
  }

  lemma NoneBefore(turns: seq<Turn>, k: nat)
    ensures Sends(Before(turns, k)) == 0
  {
    if k < |turns| {
      NoSends(turns[k].before);
    }
  }

  /** An event that waits can be answered. */
  lemma WaitingAnswerable(h: Host, r: Record, seen: nat)
    requires Inv(h, r, seen)
    ensures Waiting(r) <==> CanAnswer(r)
  {
    if Waiting(r) {
      AnswerReady(r);
    }
  }

  /** One turn and the controller's steps up to the next look at the event ring. */
  method TurnOnce(h0: Host, ghost r0: Record, ghost seen: nat, turns: seq<Turn>, k: nat, k': nat)
    returns (more: bool, h: Host, ghost r: Record, ghost next: nat)
    requires Inv(h0, r0, seen) && seen == |r0.answered| && k' == k + 1
    ensures Inv(h, r, next) && next == |r.answered| && (more <==> Waiting(r0))
    ensures more ==> Remaining(r, turns, k') == Remaining(r0, turns, k) && |r.outstanding| + 1 <= |r0.outstanding| + Sends(During(turns, k))
    ensures !more ==> r == r0
  {
    more, h, r, next := HandleEvent(h0, r0, seen, During(turns, k));
    if more {
      ghost var x := r;
      h, r := PerformAll(h, r, Before(turns, k'), next);
      NoneBefore(turns, k');
      WaitingAnswerable(h, r, next);
      RemainingNext(r0, x, r, turns, k, k');
    }
  }

  /**
    The interrupt handler's loop over the event ring. The controller goes on working and the
    callbacks go on sending while it runs; it ends once they stop, with every event handled.
   */
  method Irq(h0: Host, ghost r0: Record, turns: seq<Turn>) returns (h: Host, ghost r: Record)
    requires Inv(h0, r0, |r0.answered|)
    ensures Inv(h, r, |r.answered|) && r == Serviced(r0, turns) && !Waiting(r)
  {
    ghost var seen: nat := |r0.answered|;
    h, r := PerformAll(h0, r0, Before(turns, 0), seen);
    WaitingAnswerable(h, r, seen);
    FirstTest(r0, r, turns);
    var k: nat, more := 0, true;
    while more
      invariant Inv(h, r, seen) && seen == |r.answered| && (!more ==> !Waiting(r))
      invariant Remaining(r, turns, k) == Serviced(r0, turns)
      decreases more, |r.outstanding| + Left(turns, k)
    {
      var k' := k + 1;
      more, h, r, seen := TurnOnce(h, r, seen, turns, k, k');
      if more {
        k := k';
      }
    }
  }

  lemma FirstTest(x: Record, r: Record, turns: seq<Turn>)
    requires r == After(x, Before(turns, 0)) && (Waiting(r) <==> CanAnswer(r))
    ensures Remaining(r, turns, 0) == Serviced(x, turns)
  {
    if turns == [] {
      RemainingLast(r, turns, 0);
    } else {
      assert turns[0..] == turns;
      ServicedFrom(x, turns, 0);
    }
  }

  // ---------------------------------------------------------------- the controller from the start

  ghost function FirstRecord(base: nat): Record {
    Record(base, [], Consumer(0, 1), 0, [], [], [], [], [], [], true, true)
  }

  lemma Accounted(h: Host, r: Record, seen: nat)
    requires Inv(h, r, seen)
    ensures NoDup(r.answered) && |r.outstanding| == |r.senders| <= POOL
    ensures forall n: nat :: n in r.answered <==> n < |r.commands| && n !in r.senders
    ensures (r.fair <==> r.answered <= r.log) && (r.clean ==> r.fair)
    ensures seen == |r.answered| ==> |h.resumed| == seen <= |r.posts|
    ensures seen == |r.answered| ==> forall i :: 0 <= i < seen ==>
              && h.resumed[i].callback == r.answered[i]
              && h.resumed[i].event.parameter == r.posts[i].parameter && h.resumed[i].event.status == r.posts[i].status
  {
    if seen == |r.answered| {
      forall i: nat | i < seen
        ensures h.resumed[i].callback == r.answered[i]
        ensures h.resumed[i].event.parameter == r.posts[i].parameter && h.resumed[i].event.status == r.posts[i].status
      {
        assert ResumedAt(h.resumed, r, i);
      }
    }
  }

  class Controller {
    var host: Host
    ghost var record: Record

    ghost predicate Valid()
      reads this
    {
      Inv(host, record, |record.answered|)
    }

    constructor (base: nat)
      ensures Valid() && record == FirstRecord(base)
    {
      var ring := InitRing(base);
      var events := InitEvents();
      host := Host(ring, events, seq(POOL, i => i), [], 0, [], Consumer(0, 1), 0, [], 0);
      record := FirstRecord(base);
    }

    /**
      Any interleaving of sends, steps of the controller and interrupts, the handler resuming waiting
      coroutines among them. The record is exactly what the events make of it. Every sender waits or
      has been resumed once, and all of them by their own completions exactly when no command ever
      completed while an older one of the same address was in flight.
     */
    method Run(events: seq<Event>)
      requires Valid()
      modifies this
      ensures Valid() && record == Outcome(old(record), events)
      ensures NoDup(record.answered) && |record.outstanding| == |record.senders| <= POOL
      ensures forall n: nat :: n in record.answered <==> n < |record.commands| && n !in record.senders
      ensures |host.resumed| == |record.answered| <= |record.posts|
      ensures forall i :: 0 <= i < |host.resumed| ==>
                && host.resumed[i].callback == record.answered[i]
                && host.resumed[i].event.parameter == record.posts[i].parameter && host.resumed[i].event.status == record.posts[i].status
      ensures (record.fair <==> record.answered <= record.log) && (record.clean ==> record.fair)
    {
      var i := 0;
      while i < |events|
        invariant 0 <= i <= |events| && Valid() && record == Outcome(old(record), events[..i])
      {
        assert events[..i + 1][..i] == events[..i];
        match events[i] {
          case Act(a) => host, record := Perform(host, record, a, |record.answered|);
          case Interrupt(turns) => host, record := Irq(host, record, turns);
        }
        assert record == Outcome(old(record), events[..i + 1]);
        i := i + 1;
      }
      assert events[..|events|] == events;
      Accounted(host, record, |record.answered|);
    }
  }

  // ---------------------------------------------------------------- completions in order

  predicate StepInOrder(step: DeviceStep) {
    step.Complete? ==> step.k == 0
  }

  predicate InOrder(a: Action) {
    a.Device? ==> StepInOrder(a.step)
  }

  predicate TurnInOrder(t: Turn) {
    && (forall i :: 0 <= i < |t.before| ==> StepInOrder(t.before[i]))
    && (forall i :: 0 <= i < |t.during| ==> InOrder(t.during[i]))
  }

  /** The controller always completes the oldest command it works on. */
  predicate EventInOrder(e: Event) {
    match e
    case Act(a) => InOrder(a)
    case Interrupt(turns) => forall i :: 0 <= i < |turns| ==> TurnInOrder(turns[i])
  }

  ghost predicate Sequential(r: Record) {
    && RecordOk(r) && r.clean && |r.outstanding| <= POOL
    && (forall i :: 0 <= i < |r.log| ==> r.log[i] == i)
    && (forall i :: 0 <= i < |r.held| ==> r.held[i] == |r.log| + i)
    && r.read == |r.log| + |r.held|
  }

  lemma InCounting(s: seq<nat>, m: nat)
    requires forall i :: 0 <= i < |s| ==> s[i] == i
    ensures m in s <==> m < |s|
  {
    if m < |s| {
      assert s[m] == m;
    }
  }

  lemma SequentialSend(r: Record, trb: TRB)
    requires Sequential(r) && |r.outstanding| < POOL && trb.Kind() != TYPE_LINK
    ensures Sequential(Next(r, Send(trb)))
  {
    SendRecord(r, trb);
    var handled := r.log[..|r.answered|];
    forall m | m in r.outstanding
      ensures |r.commands| - m < SLOTS
    {
      InCounting(handled, m);
    }
    WindowIsClean(r, trb);
  }

  lemma SequentialNext(r: Record, a: Action)
    requires Sequential(r) && InOrder(a)
    ensures Sequential(Next(r, a))
  {
    match a
    case Send(trb) =>
      if |r.outstanding| < POOL && trb.Kind() != TYPE_LINK {
        SequentialSend(r, trb);
      }
    case Device(Fetch) => FetchRecord(r);
    case Device(Complete(k, status)) =>
      if k < |r.held| {
        CompleteRecord(r, k, status);
      }
  }

  lemma {:induction false} SequentialAfter(r: Record, actions: seq<Action>)
    requires Sequential(r) && forall i :: 0 <= i < |actions| ==> InOrder(actions[i])
    ensures Sequential(After(r, actions))
  {
    if actions != [] {
      SequentialAfter(r, actions[..|actions| - 1]);
      SequentialNext(After(r, actions[..|actions| - 1]), actions[|actions| - 1]);
    }
  }

  lemma SequentialAnswer(r: Record)
    requires Sequential(r) && Waiting(r)
    ensures Sequential(Answer(r)) && |Answer(r).answered| == |r.answered| + 1
  {
    AnswerReady(r);
    AnswerRecord(r);
  }

  lemma {:induction false} SequentialDrained(r: Record)
    requires Sequential(r)
    ensures Sequential(Drained(r))
    decreases |r.log| - |r.answered|
  {
    if CanAnswer(r) {
      SequentialAnswer(r);
      SequentialDrained(Answer(r));
    }
  }

  lemma {:induction false} SequentialServiced(r: Record, turns: seq<Turn>)
    requires Sequential(r) && forall i :: 0 <= i < |turns| ==> TurnInOrder(turns[i])
    ensures Sequential(Serviced(r, turns))
    decreases |turns|
  {
    if turns == [] {
      SequentialDrained(r);
    } else {
      var r1 := After(r, Lifted(turns[0].before));
      SequentialAfter(r, Lifted(turns[0].before));
      if Waiting(r1) {
        var r2 := After(r1, turns[0].during);
        SequentialAfter(r1, turns[0].during);
        AfterGrows(r1, turns[0].during);
        SequentialAnswer(r2);
        SequentialServiced(Answer(r2), turns[1..]);
      }
    }
  }

  lemma {:induction false} AfterGrows(r: Record, actions: seq<Action>)
    ensures Grows(r, After(r, actions))
  {
    if actions != [] {
      AfterGrows(r, actions[..|actions| - 1]);
      NextGrows(After(r, actions[..|actions| - 1]), actions[|actions| - 1]);
    }
  }

  /**
    With a controller that completes commands in the order it was sent them, every event resumes
    the sender of its own command, in any run: the pool is small enough that no two commands in
    flight share an address.
   */
  lemma {:induction false} InOrderIsClean(base: nat, events: seq<Event>)
    requires forall i :: 0 <= i < |events| ==> EventInOrder(events[i])
    ensures var r := Outcome(FirstRecord(base), events); Sequential(r) && r.answered <= r.log
  {
    if events != [] {
      var e := events[|events| - 1];
      InOrderIsClean(base, events[..|events| - 1]);
      assert EventInOrder(e);
      var r := Outcome(FirstRecord(base), events[..|events| - 1]);
      match e
      case Act(a) => SequentialNext(r, a);
      case Interrupt(turns) => SequentialServiced(r, turns);
    }
  }

  // ---------------------------------------------------------------- a run that resumes the wrong sender

  /** A command that completes at once, apart from the first one, which the controller keeps. */
  function Round(trb: TRB): seq<Event> {
    [Act(Send(trb)), Act(Device(Fetch)), Act(Device(Complete(1, 0))), Interrupt([])]
  }

  function Rounds(trb: TRB, k: nat): seq<Event> {
    if k == 0 then [Act(Send(trb)), Act(Device(Fetch))] else Rounds(trb, k - 1) + Round(trb)
  }

  function Counted(k: nat): seq<nat> {
    seq(k, (i: nat) => i + 1)
  }

  function Completions(k: nat): seq<TRB> {
    seq(k, (i: nat) => Completion(0, i + 1, 0))
  }

  ghost function Stuck(trb: TRB, k: nat): Record {
    Record(0, seq(k + 1, _ => trb), Consumer(k + 1, 1), k + 1, [0], Counted(k), Completions(k), [0], [0], Counted(k), true, true)
  }

  lemma OutcomeSnoc(r: Record, events: seq<Event>, e: Event)
    ensures Outcome(r, events + [e]) == Effect(Outcome(r, events), e)
  {
    assert (events + [e])[..|events|] == events;
  }

  lemma OutcomeRound(r: Record, events: seq<Event>, trb: TRB)
    ensures Outcome(r, events + Round(trb)) ==
            Serviced(Next(Next(Next(Outcome(r, events), Send(trb)), Device(Fetch)), Device(Complete(1, 0))), [])
  {
    var e := Round(trb);
    OutcomeSnoc(r, events, e[0]);
    OutcomeSnoc(r, events + [e[0]], e[1]);
    OutcomeSnoc(r, events + [e[0]] + [e[1]], e[2]);
    OutcomeSnoc(r, events + [e[0]] + [e[1]] + [e[2]], e[3]);
    assert events + e == events + [e[0]] + [e[1]] + [e[2]] + [e[3]];
  }

  lemma AliasTwo(m: nat, n: nat)
    ensures FirstAlias([m, n], n) == if Alias(m, n) then 0 else 1
    ensures FirstAlias([m], n) == if Alias(m, n) then 0 else 1
    ensures m != n ==> IndexOf([m, n], n) == 1
  {
    assert [m, n][0] == m && [m, n][1] == n && [m][0] == m;
  }

  /** In a round the new command is the only one answered, unless it has the address of command 0. */
  lemma StuckRound(trb: TRB, k: nat)
    requires k + 1 < SLOTS && trb.Kind() != TYPE_LINK
    ensures Serviced(Next(Next(Next(Stuck(trb, k), Send(trb)), Device(Fetch)), Device(Complete(1, 0))), []) == Stuck(trb, k + 1)
  {
    var n := k + 1;
    AliasTwo(0, n);
    var r := Next(Next(Next(Stuck(trb, k), Send(trb)), Device(Fetch)), Device(Complete(1, 0)));
    assert r.outstanding == [0, n] && r.senders == [0, n] && r.held == [0] && r.clean;
    assert r.log == Counted(n) && r.posts == Completions(n);
    assert r.commands == seq(n + 1, _ => trb);
    DrainedStep(r);
    assert Answer(r) == Stuck(trb, n);
    DrainedDone(Stuck(trb, n));
  }

  lemma StuckOn(trb: TRB, k: nat, events: seq<Event>)
    requires k + 1 < SLOTS && trb.Kind() != TYPE_LINK && Outcome(FirstRecord(0), events) == Stuck(trb, k)
    ensures Outcome(FirstRecord(0), events + Round(trb)) == Stuck(trb, k + 1)
  {
    OutcomeRound(FirstRecord(0), events, trb);
    StuckRound(trb, k);
  }

  lemma StuckFirst(trb: TRB)
    requires trb.Kind() != TYPE_LINK
    ensures Outcome(FirstRecord(0), Rounds(trb, 0)) == Stuck(trb, 0)
  {
    var e: seq<Event> := [Act(Send(trb)), Act(Device(Fetch))];
    OutcomeSnoc(FirstRecord(0), [], e[0]);
    OutcomeSnoc(FirstRecord(0), [e[0]], e[1]);
    assert [] + [e[0]] == [e[0]] && [e[0]] + [e[1]] == e;
    var r := Next(Next(FirstRecord(0), Send(trb)), Device(Fetch));
    assert r.commands == seq(1, _ => trb) && r.held == [0];
  }

  lemma {:induction false} StuckRuns(trb: TRB, k: nat)
    requires k < SLOTS && trb.Kind() != TYPE_LINK
    ensures Outcome(FirstRecord(0), Rounds(trb, k)) == Stuck(trb, k)
  {
    if k == 0 {
      StuckFirst(trb);
    } else {
      StuckRuns(trb, k - 1);
      StuckOn(trb, k - 1, Rounds(trb, k - 1));
    }
  }

  /** The last round starts one slot later: the controller follows the link first. */
  function LastRound(trb: TRB): seq<Event> {
    [Act(Send(trb)), Act(Device(Fetch)), Act(Device(Fetch)), Act(Device(Complete(1, 0))), Interrupt([])]
  }

  /**
    Commands need not be matched to their own senders: if the controller keeps command 0 while 254
    others complete, command 255 goes to the slot of command 0, and its completion resumes the
    sender of command 0.
   */
  lemma WrongSender(trb: TRB)
    requires trb.Kind() != TYPE_LINK
    ensures var r := Outcome(FirstRecord(0), Rounds(trb, 254) + LastRound(trb));
            |r.answered| == |r.log| == 255 && r.log[254] == 255 && r.answered[254] == 0 && r.senders == [255]
  {
    StuckRuns(trb, 254);
    OutcomeLast(FirstRecord(0), Rounds(trb, 254), trb);
    WrongAnswer(trb);
  }

  lemma OutcomeLast(r: Record, events: seq<Event>, trb: TRB)
    ensures Outcome(r, events + LastRound(trb)) ==
            Serviced(Next(Next(Next(Next(Outcome(r, events), Send(trb)), Device(Fetch)), Device(Fetch)), Device(Complete(1, 0))), [])
  {
    var e := LastRound(trb);
    OutcomeSnoc(r, events, e[0]);
    OutcomeSnoc(r, events + [e[0]], e[1]);
    OutcomeSnoc(r, events + [e[0]] + [e[1]], e[2]);
    OutcomeSnoc(r, events + [e[0]] + [e[1]] + [e[2]], e[3]);
    OutcomeSnoc(r, events + [e[0]] + [e[1]] + [e[2]] + [e[3]], e[4]);
    assert events + e == events + [e[0]] + [e[1]] + [e[2]] + [e[3]] + [e[4]];
  }

  lemma WrongAnswer(trb: TRB)
    requires trb.Kind() != TYPE_LINK
    ensures var r := Next(Next(Next(Next(Stuck(trb, 254), Send(trb)), Device(Fetch)), Device(Fetch)), Device(Complete(1, 0)));
            var r' := Serviced(r, []);
            |r'.answered| == 255 && r'.log == r.log && |r.log| == 255 && r.log[254] == 255 && r'.answered[254] == 0
            && r'.senders == [255] && r'.outstanding == [0] && r'.held == [0]
  {
    AliasTwo(0, 255);
    var r := Next(Next(Next(Next(Stuck(trb, 254), Send(trb)), Device(Fetch)), Device(Fetch)), Device(Complete(1, 0)));
    assert r.outstanding == [0, 255] && r.senders == [0, 255] && r.held == [0];
    DrainedStep(r);
    var r' := Answer(r);
    assert r'.senders == [255] && r'.outstanding == [0] && r'.answered[254] == 0;
    DrainedDone(r');
  }

  /**
    From then on a completion may resume the wrong sender although no other command is in flight:
    when the controller completes command 0 after all, its event resumes the sender of command 255.
   */
  lemma WrongAgain(trb: TRB)
    requires trb.Kind() != TYPE_LINK
    ensures var r := Outcome(FirstRecord(0), Rounds(trb, 254) + LastRound(trb) + [Act(Device(Complete(0, 0))), Interrupt([])]);
            |r.answered| == |r.log| == 256 && r.log[255] == 0 && r.answered[255] == 255 && r.senders == []
  {
    var events := Rounds(trb, 254) + LastRound(trb);
    StuckRuns(trb, 254);
    OutcomeLast(FirstRecord(0), Rounds(trb, 254), trb);
    WrongAnswer(trb);
    OutcomeTwo(FirstRecord(0), events, Act(Device(Complete(0, 0))), Interrupt([]));
    LoneAnswer(Outcome(FirstRecord(0), events));
  }

  lemma OutcomeTwo(r: Record, events: seq<Event>, a: Event, b: Event)
    ensures Outcome(r, events + [a, b]) == Effect(Effect(Outcome(r, events), a), b)
  {
    OutcomeSnoc(r, events, a);
    OutcomeSnoc(r, events + [a], b);
    assert events + [a, b] == events + [a] + [b];
  }

  lemma LoneAnswer(r: Record)
    requires r.held == [0] && r.outstanding == [0] && r.senders == [255] && |r.answered| == |r.log|
    ensures var r' := Serviced(Next(r, Device(Complete(0, 0))), []);
            |r'.answered| == |r'.log| == |r.log| + 1 && r'.log[|r.log|] == 0 && r'.answered[|r.log|] == 255 && r'.senders == []
  {
    var r1 := Next(r, Device(Complete(0, 0)));
    assert r1.log[|r1.answered|] == 0 && r1.outstanding[0] == 0;
    assert FirstAlias(r1.outstanding, 0) == 0 && IndexOf(r1.outstanding, 0) == 0;
    DrainedStep(r1);
    DrainedDone(Answer(r1));
  }
}
