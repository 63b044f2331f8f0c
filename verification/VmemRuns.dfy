/** Adding spans, and any sequence of add, xalloc and xfree. */
module VmemRuns {
  import opened Common
  import opened Vmem
  import opened VmemOps
  import opened VmemArena

  /** The place of a new span: behind the first span that does not start below it, or in front of all. */
  function SpanIndex(spans: seq<nat>, tags: map<nat, Tag>, base: nat, i: nat): (k: nat)
    requires i <= |spans|
    ensures k <= |spans|
    decreases |spans| - i
  {
    if i == |spans| then 0
    else if spans[i] in tags && tags[spans[i]].base >= base then i + 1
    else SpanIndex(spans, tags, base, i + 1)
  }

  ghost function Grown(a: Arena, base: nat, size: nat): Arena
    requires |a.pool| >= 2 && 0 < size && Log(size) < |a.freelists|
  {
    var span, segment, k, f := a.pool[0], a.pool[1], SpanIndex(a.spans, a.tags, base, 0), Log(size);
    a.(tags := a.tags[span := Tag(base, size, Span)][segment := Tag(base, size, Free)],
       spans := a.spans[..k] + [span] + a.spans[k..],
       segments := a.segments[span := [segment]],
       freelists := a.freelists[f := a.freelists[f] + [segment]],
       pool := a.pool[2..])
  }

  /** The stretch is outside every span. */
  ghost predicate Fresh(a: Arena, base: nat, size: nat) {
    forall s {:trigger s in a.spans} :: s in a.spans && s in a.tags ==> a.tags[s].End() <= base || base + size <= a.tags[s].base
  }

  ghost predicate CanGrow(a: Arena, home: map<nat, nat>, base: nat, size: nat) {
    Inv(a, home) && |a.pool| >= 2 && 0 < size && base + size < LIMIT && Fresh(a, base, size) && Log(size) < |a.freelists|
  }

  lemma GrownPool(a: Arena, home: map<nat, nat>, base: nat, size: nat)
    requires Inv(a, home) && |a.pool| >= 2 && 0 < size && Log(size) < |a.freelists|
    ensures a.pool[0] !in a.tags && a.pool[1] !in a.tags && a.pool[0] != a.pool[1] && PoolOk(Grown(a, base, size))
  {
    assert a.pool[0] in a.pool && a.pool[1] in a.pool;
    NoDupPop(a.pool);
    NoDupPop(a.pool[1..]);
    assert a.pool[1..][1..] == a.pool[2..] && a.pool[1..][0] == a.pool[1];
  }

  lemma SpanTagWhere(hash: nat -> nat, tags: map<nat, Tag>, x: nat, t: Tag)
    requires x !in tags && t.kind == Span
    ensures FreeWhere(tags[x := t]) == FreeWhere(tags) && HashWhere(hash, tags[x := t], None) == HashWhere(hash, tags, None)
  {
  }

  lemma FreeTagWhere(hash: nat -> nat, tags: map<nat, Tag>, x: nat, t: Tag)
    requires x !in tags && t.kind == Free && t.size > 0
    ensures FreeWhere(tags[x := t]) == FreeWhere(tags)[x := Log(t.size)]
    ensures HashWhere(hash, tags[x := t], None) == HashWhere(hash, tags, None)
  {
    FreeTagHash(hash, tags, x, t);
  }

  lemma FreeTagHash(hash: nat -> nat, tags: map<nat, Tag>, x: nat, t: Tag)
    requires x !in tags && t.kind == Free
    ensures HashWhere(hash, tags[x := t], None) == HashWhere(hash, tags, None)
  {
  }

  lemma GrownFiled(a: Arena, base: nat, size: nat)
    requires Filed(a.freelists, FreeWhere(a.tags)) && Filed(a.buckets, HashWhere(a.hash, a.tags, None))
    requires |a.pool| >= 2 && 0 < size && Log(size) < |a.freelists|
    requires a.pool[0] !in a.tags && a.pool[1] !in a.tags && a.pool[0] != a.pool[1]
    ensures var b := Grown(a, base, size);
            Filed(b.freelists, FreeWhere(b.tags)) && Filed(b.buckets, HashWhere(b.hash, b.tags, None))
  {
    SpanTagWhere(a.hash, a.tags, a.pool[0], Tag(base, size, Span));
    FreeTagWhere(a.hash, a.tags[a.pool[0] := Tag(base, size, Span)], a.pool[1], Tag(base, size, Free));
    FileInsert(a.freelists, FreeWhere(a.tags), a.pool[1], Log(size));
  }

  lemma GrownSpan(a: Arena, home: map<nat, nat>, base: nat, size: nat, s: nat)
    requires CanGrow(a, home, base, size) && a.pool[0] !in a.tags && a.pool[1] !in a.tags && a.pool[0] != a.pool[1]
    requires s in a.spans || s == a.pool[0]
    ensures var b := Grown(a, base, size);
            SpanOk(b, home[a.pool[1] := a.pool[0]], s) && s in b.segments && NoAdjacentFree(b.tags, b.segments[s])
  {
    if s == a.pool[0] {
      NewSpan(a, home, base, size);
    } else {
      OldSpan(a, home, base, size, s);
    }
  }

  lemma NewSpan(a: Arena, home: map<nat, nat>, base: nat, size: nat)
    requires CanGrow(a, home, base, size) && a.pool[0] !in a.tags && a.pool[1] !in a.tags && a.pool[0] != a.pool[1]
    ensures var b, s := Grown(a, base, size), a.pool[0];
            SpanOk(b, home[a.pool[1] := s], s) && s in b.segments && NoAdjacentFree(b.tags, b.segments[s])
  {
    var b, span, segment := Grown(a, base, size), a.pool[0], a.pool[1];
    OneTile(b.tags, segment);
    assert SpanIff(a, span);
    forall id
      ensures id in [segment] <==> id in home[segment := span] && home[segment := span][id] == span
    {
      assert id in home ==> HomeAt(a, home, id);
    }
  }

  lemma OldSpan(a: Arena, home: map<nat, nat>, base: nat, size: nat, s: nat)
    requires CanGrow(a, home, base, size) && a.pool[0] !in a.tags && a.pool[1] !in a.tags && a.pool[0] != a.pool[1] && s in a.spans
    ensures var b := Grown(a, base, size);
            SpanOk(b, home[a.pool[1] := a.pool[0]], s) && s in b.segments && NoAdjacentFree(b.tags, b.segments[s])
  {
    var b, span, segment := Grown(a, base, size), a.pool[0], a.pool[1];
    assert HomeAt(a, home, segment) && SpanOk(a, home, s);
    forall x | x in a.segments[s]
      ensures x in a.tags && x != span && x != segment
    {
      assert HomeAt(a, home, x);
    }
    TilesFrame(a.tags, b.tags, a.segments[s], a.tags[s].base, a.tags[s].End());
    assert s != span && NoAdjacentFree(a.tags, a.segments[s]);
    Reapart(a.tags, b.tags, a.segments[s]);
  }

  lemma GrownSpans(a: Arena, home: map<nat, nat>, base: nat, size: nat)
    requires CanGrow(a, home, base, size) && a.pool[0] !in a.tags && a.pool[1] !in a.tags && a.pool[0] != a.pool[1]
    ensures var b, home' := Grown(a, base, size), home[a.pool[1] := a.pool[0]];
            SpansOk(b, home') && HomeOk(b, home') && SpansApart(b) && Coalesced(b)
  {
    var b, span, segment := Grown(a, base, size), a.pool[0], a.pool[1];
    var home' := home[segment := span];
    assert SpanIff(a, span) && SpanIff(a, segment);
    InsertedSpans(a.spans, SpanIndex(a.spans, a.tags, base, 0), span);
    forall s: nat | s in b.spans
      ensures SpanOk(b, home', s) && s in b.segments && NoAdjacentFree(b.tags, b.segments[s])
    {
      GrownSpan(a, home, base, size, s);
    }
    forall s: nat
      ensures SpanIff(b, s) && HomeAt(b, home', s)
    {
      assert SpanIff(a, s) && HomeAt(a, home, s);
    }
    forall s: nat, t: nat
      ensures ApartSpans(b, s, t)
    {
      assert ApartSpans(a, s, t) && SpanIff(a, s) && SpanIff(a, t);
    }
  }

  lemma GrownInv(a: Arena, home: map<nat, nat>, base: nat, size: nat)
    requires CanGrow(a, home, base, size)
    ensures Inv(Grown(a, base, size), home[a.pool[1] := a.pool[0]])
  {
    GrownPool(a, home, base, size);
    GrownFiled(a, base, size);
    GrownSpans(a, home, base, size);
  }

  /** A new span meets none of the others exactly when its stretch is fresh. */
  lemma GrownApart(a: Arena, home: map<nat, nat>, base: nat, size: nat)
    requires Inv(a, home) && |a.pool| >= 2 && 0 < size && Log(size) < |a.freelists|
    ensures SpansApart(Grown(a, base, size)) <==> Fresh(a, base, size)
  {
    var b, span := Grown(a, base, size), a.pool[0];
    GrownPool(a, home, base, size);
    assert SpanIff(a, span);
    InsertedSpans(a.spans, SpanIndex(a.spans, a.tags, base, 0), span);
    forall s | s in a.spans && s in a.tags
      ensures ApartSpans(b, s, span) <==> a.tags[s].End() <= base || base + size <= a.tags[s].base
      ensures b.tags[s] == a.tags[s]
    {
    }
    if Fresh(a, base, size) {
      forall s: nat, t: nat
        ensures ApartSpans(b, s, t)
      {
        assert ApartSpans(a, s, t) && SpanIff(a, s) && SpanIff(a, t);
      }
    }
  }

  lemma SameBlocks(tags: map<nat, Tag>, span: nat, segment: nat, base: nat, size: nat)
    requires span !in tags && segment !in tags && span != segment
    ensures BlocksOf(tags[span := Tag(base, size, Span)][segment := Tag(base, size, Free)]) == BlocksOf(tags)
  {
    var tags' := tags[span := Tag(base, size, Span)][segment := Tag(base, size, Free)];
    assert forall id :: id in tags' && tags'[id].kind == Allocated <==> id in tags && tags[id].kind == Allocated;
  }

  lemma InsertedSpans(spans: seq<nat>, k: nat, span: nat)
    requires k <= |spans| && NoDup(spans) && span !in spans
    ensures var t := spans[..k] + [span] + spans[k..]; NoDup(t) && forall x :: x in t <==> x in spans || x == span
  {
    assert spans == spans[..k] + [] + spans[k..];
    NoDupParts(spans[..k], [], spans[k..]);
    NoDupJoin(spans[..k], [span]);
    NoDupJoin(spans[..k] + [span], spans[k..]);
  }

  /**
    Arena::add. It asserts that there are two tags, and takes any stretch; the arena stays in order
    exactly when the stretch is outside the spans added so far.
   */
  method Add(a0: Arena, ghost home0: map<nat, nat>, base: nat, size: nat) returns (ok: bool, a: Arena, ghost home: map<nat, nat>)
    requires Inv(a0, home0) && 0 < size && base + size < LIMIT
    ensures ok <==> |a0.pool| >= 2
    ensures !ok ==> a == a0 && home == home0
    ensures ok ==> Blocks(a) == Blocks(a0) && a.tags == a0.tags[a0.pool[0] := Tag(base, size, Span)][a0.pool[1] := Tag(base, size, Free)]
    ensures ok ==> (SpansApart(a) <==> Fresh(a0, base, size)) && Requeued(a0.freelists, a.freelists, a0.pool[1])
    ensures Fresh(a0, base, size) ==> Inv(a, home)
  {
    a, home := a0, home0;
    if |a.pool| < 2 {
      return false, a, home;
    }
    LogBound(size);
    GrownApart(a0, home0, base, size);
    if Fresh(a0, base, size) {
      GrownInv(a0, home0, base, size);
    }
    var span, segment := a0.pool[0], a0.pool[1];
    GrownPool(a0, home0, base, size);
    SameBlocks(a0.tags, span, segment, base, size);
    QueuedLast(a0.freelists, FreeWhere(a0.tags), segment, Log(size));
    assert forall s :: s in a0.spans ==> s in a0.tags by {
      forall s | s in a0.spans ensures s in a0.tags { assert SpanIff(a0, s); }
    }
    var k := FindSpanIndex(a0.spans, a0.tags, base);
    a := a0.(pool := a0.pool[2..]);
    a := a.(tags := a.tags[span := Tag(base, size, Span)][segment := Tag(base, size, Free)]);
    a := a.(spans := a.spans[..k] + [span] + a.spans[k..], segments := a.segments[span := [segment]]);
    a := a.(freelists := a.freelists[Log(size) := a.freelists[Log(size)] + [segment]]);
    assert a == Grown(a0, base, size);
    home := home0[segment := span];
    return true, a, home;
  }

  method FindSpanIndex(spans: seq<nat>, tags: map<nat, Tag>, base: nat) returns (k: nat)
    requires forall s :: s in spans ==> s in tags
    ensures k == SpanIndex(spans, tags, base, 0)
  {
    var i := 0;
    while i < |spans|
      invariant 0 <= i <= |spans| && SpanIndex(spans, tags, base, 0) == SpanIndex(spans, tags, base, i)
    {
      assert spans[i] in spans;
      if tags[spans[i]].base >= base {
        return i + 1;
      }
      i := i + 1;
    }
    return 0;
  }

  // ---------------------------------------------------------------- runs

  datatype Op = AddSpan(base: nat, size: nat) | Alloc(size: nat) | Dealloc(addr: nat, size: nat)

  function EmptyArena(hash: nat -> nat): Arena {
    Arena(hash, map[], [], map[], seq(NUM_FREELISTS, _ => []), seq(NUM_BUCKETS, _ => []), seq(NUM_TAGS, i => i))
  }

  lemma EmptyInv(hash: nat -> nat)
    ensures Inv(EmptyArena(hash), map[])
  {
    var a := EmptyArena(hash);
    forall k: nat | k < NUM_FREELISTS
      ensures ListOk(a.freelists, FreeWhere(a.tags), k)
    {
    }
    forall k: nat | k < NUM_BUCKETS
      ensures ListOk(a.buckets, HashWhere(hash, a.tags, None), k)
    {
    }
    forall x: nat
      ensures SpanIff(a, x) && HomeAt(a, map[], x)
    {
    }
    assert PoolOk(a);
    assert SpansOk(a, map[]);
  }

  predicate IsFresh(a: Arena, base: nat, size: nat)
    ensures IsFresh(a, base, size) <==> Fresh(a, base, size)
  {
    assert forall i :: 0 <= i < |a.spans| ==> a.spans[i] in a.spans;
    forall i :: 0 <= i < |a.spans| && a.spans[i] in a.tags ==>
      a.tags[a.spans[i]].End() <= base || base + size <= a.tags[a.spans[i]].base
  }

  /** What a caller sees of an operation. A panic or a failed assertion ends the run. */
  datatype Reply = Done | Address(addr: nat) | NoSpace | Panic

  datatype Moment = Moment(arena: Arena, live: set<(nat, nat)>)

  /** The caller adds stretches that are outside those it has added. */
  ghost predicate Proper(a: Arena, op: Op) {
    op.AddSpan? ==> 0 < op.size && op.base + op.size < LIMIT && Fresh(a, op.base, op.size)
  }

  ghost predicate Holds(live: set<(nat, nat)>, addr: nat, size: nat, n: nat) {
    (addr, n) in live && (size != 0 ==> n == size)
  }

  /** The two assertions of xalloc on the size. */
  predicate WrongSize(size: nat, quantum: nat) {
    size == 0 || quantum == 0 || size % quantum != 0
  }

  /** What each operation returns, and when, and what it does to the blocks handed out. */
  ghost predicate Performed(m0: Moment, m: Moment, quantum: nat, op: Op, r: Reply) {
    && (r.Panic? || r.NoSpace? ==> m == m0)
    && match op
       case AddSpan(base, size) =>
         && (r.Done? || r.Panic?) && (r.Done? <==> |m0.arena.pool| >= 2) && m.live == m0.live
         && (r.Done? ==> exists id :: id !in m0.arena.tags && id in m.arena.tags && m.arena.tags[id] == Tag(base, size, Free)
                                      && Requeued(m0.arena.freelists, m.arena.freelists, id))
       case Alloc(size) =>
         && !r.Done? && (r.Panic? <==> WrongSize(size, quantum) || LacksTag(m0.arena, size))
         && (!WrongSize(size, quantum) ==> (r.NoSpace? <==>
              forall id :: id in m0.arena.tags && m0.arena.tags[id].kind == Free ==> m0.arena.tags[id].size < Pow(FirstList(size))))
         && (r.Address? ==> var fit := FirstFit(m0.arena, FirstList(size));
                            fit.Some? && fit.value in m0.arena.tags && r.addr == m0.arena.tags[fit.value].base)
         && (r.Address? ==> Granted(m0.arena, m.arena, r.addr, size) && m.live == m0.live + {(r.addr, size)} && (r.addr, size) !in m0.live)
       case Dealloc(addr, size) =>
         && (r.Done? || r.Panic?) && (r.Done? <==> exists n :: Holds(m0.live, addr, size, n))
         && (r.Done? ==> exists n :: Holds(m0.live, addr, size, n) && m.live == m0.live - {(addr, n)} && Rejoined(m0.arena.freelists, m.arena.freelists))
  }

  /** The states of a run: one more than replies, each reply leading from one to the next. */
  ghost predicate Traced(trace: seq<Moment>, quantum: nat, replies: seq<Reply>, ops: seq<Op>) {
    && |trace| == |replies| + 1 && |replies| <= |ops|
    && forall i: nat {:trigger Performed(trace[i], trace[i + 1], quantum, ops[i], replies[i])} :: i < |replies| ==>
         Performed(trace[i], trace[i + 1], quantum, ops[i], replies[i])
  }

  lemma TraceNext(trace: seq<Moment>, quantum: nat, replies: seq<Reply>, ops: seq<Op>, m: Moment, r: Reply)
    requires Traced(trace, quantum, replies, ops) && |replies| < |ops| && Performed(trace[|replies|], m, quantum, ops[|replies|], r)
    ensures Traced(trace + [m], quantum, replies + [r], ops)
  {
    var trace', replies' := trace + [m], replies + [r];
    forall i: nat | i < |replies'|
      ensures Performed(trace'[i], trace'[i + 1], quantum, ops[i], replies'[i])
    {
      assert i < |replies| ==> Performed(trace[i], trace[i + 1], quantum, ops[i], replies[i]);
    }
  }

  predicate NoPanic(replies: seq<Reply>, n: int) {
    forall i :: 0 <= i < n && i < |replies| ==> !replies[i].Panic?
  }

  /** The run has ended: with a panic, or before an improper request. */
  ghost predicate Stopped(a: Arena, replies: seq<Reply>, ops: seq<Op>) {
    (|replies| > 0 && replies[|replies| - 1].Panic?) || (|replies| < |ops| && !Proper(a, ops[|replies|]))
  }

  lemma AllDisjoint(a: Arena, home: map<nat, nat>)
    requires Inv(a, home)
    ensures |a.pool| + |a.tags| == NUM_TAGS
    ensures forall b, c :: b in Blocks(a) && c in Blocks(a) && b != c ==> b.0 + b.1 <= c.0 || c.0 + c.1 <= b.0
  {
    forall b, c | b in Blocks(a) && c in Blocks(a) && b != c
      ensures b.0 + b.1 <= c.0 || c.0 + c.1 <= b.0
    {
      BlocksDisjoint(a, home, b, c);
    }
  }

  class Allocator {
    const quantum: nat                // the unit of allocation
    var arena: Arena
    ghost var home: map<nat, nat>
    ghost var live: set<(nat, nat)>   // the blocks handed out and not given back

    ghost predicate Valid()
      reads this
    {
      Inv(arena, home) && live == Blocks(arena)
    }

    ghost function Now(): Moment
      reads this
    {
      Moment(arena, live)
    }

    constructor (hash: nat -> nat, quantum: nat)
      ensures Valid() && live == {} && this.quantum == quantum
    {
      EmptyInv(hash);
      this.quantum := quantum;
      arena, home, live := EmptyArena(hash), map[], {};
    }

    /**
      Any sequence of operations, up to a panic, a failed assertion or an improper request. What is
      handed out is never handed out again before it is given back, and the tags stay conserved.
     */
    method Run(ops: seq<Op>) returns (replies: seq<Reply>, ghost trace: seq<Moment>)
      requires Valid()
      modifies this
      ensures Valid() && Traced(trace, quantum, replies, ops) && trace[0] == old(Now()) && trace[|replies|] == Now()
      ensures NoPanic(replies, |replies| - 1) && (|replies| < |ops| ==> Stopped(arena, replies, ops))
      ensures |arena.pool| + |arena.tags| == NUM_TAGS
      ensures forall b, c :: b in live && c in live && b != c ==> b.0 + b.1 <= c.0 || c.0 + c.1 <= b.0
    {
      replies, trace := [], [Now()];
      var more := true;
      while |replies| < |ops| && more
        invariant Valid() && Traced(trace, quantum, replies, ops) && trace[0] == old(Now()) && trace[|replies|] == Now()
        invariant NoPanic(replies, if more then |replies| else |replies| - 1)
        invariant more || Stopped(arena, replies, ops)
        decreases |ops| - |replies|, more
      {
        if IsProper(ops[|replies|]) {
          var r := Perform(ops[|replies|]);
          TraceNext(trace, quantum, replies, ops, Now(), r);
          replies, trace, more := replies + [r], trace + [Now()], !r.Panic?;
        } else {
          more := false;
        }
      }
      AllDisjoint(arena, home);
    }

    predicate IsProper(op: Op)
      requires Valid()
      reads this
      ensures IsProper(op) <==> Proper(arena, op)
    {
      op.AddSpan? ==> 0 < op.size && op.base + op.size < LIMIT && IsFresh(arena, op.base, op.size)
    }

    method Perform(op: Op) returns (r: Reply)
      requires Valid() && Proper(arena, op)
      modifies this
      ensures Valid() && Performed(old(Now()), Now(), quantum, op, r)
    {
      match op
      case AddSpan(base, size) =>
        var ok;
        ghost var a0 := arena;
        NewTag(a0, home);
        ok, arena, home := Add(arena, home, base, size);
        r := if ok then Done else Panic;
      case Alloc(size) => r := Allocate(size);
      case Dealloc(addr, size) => r := Deallocate(addr, size);
    }

    method Allocate(size: nat) returns (r: Reply)
      requires Valid()
      modifies this
      ensures Valid() && Performed(old(Now()), Now(), quantum, Alloc(size), r)
    {
      if WrongSize(size, quantum) {
        return Panic;
      }
      var got, a;
      ghost var h;
      got, a, h := XAlloc(arena, home, size);
      match got
      case Got(addr) =>
        arena, home, live := a, h, live + {(addr, size)};
        return Address(addr);
      case NoSpace => return Reply.NoSpace;
      case NoTags => return Panic;
    }

    method Deallocate(addr: nat, size: nat) returns (r: Reply)
      requires Valid()
      modifies this
      ensures Valid() && Performed(old(Now()), Now(), quantum, Dealloc(addr, size), r)
    {
      var freed, a;
      ghost var h;
      ghost var was := live;
      freed, a, h := XFree(arena, home, addr, size);
      if freed.Freed? {
        ghost var n :| (addr, n) in Blocks(arena) && Blocks(a) == Blocks(arena) - {(addr, n)} && (size != 0 ==> n == size);
        assert Holds(live, addr, size, n);
        arena, home, live := a, h, live - {(addr, n)};
        return Done;
      }
      if freed.SizeMismatch? {
        ghost var b :| b in Blocks(arena) && b.0 == addr && b.1 != size;
        OneSize(arena, home, b);
      }
      return Panic;
    }
  }

  lemma OneSize(a: Arena, home: map<nat, nat>, b: (nat, nat))
    requires Inv(a, home) && b in Blocks(a)
    ensures forall n :: (b.0, n) in Blocks(a) ==> n == b.1
  {
    var id :| id in a.tags && a.tags[id].kind == Allocated && (a.tags[id].base, a.tags[id].size) == b;
    OneBlockAt(a, home, id);
  }

  lemma NewTag(a: Arena, home: map<nat, nat>)
    requires Inv(a, home)
    ensures |a.pool| >= 2 ==> a.pool[1] !in a.tags
  {
    if |a.pool| >= 2 {
      assert a.pool[1] in a.pool;
    }
  }
}
