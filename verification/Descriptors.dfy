/** Descriptor tables: allocation, dup, close, fork, exec and exit, over all processes. */
module Descriptors {
  import opened Common
  import opened Files
  import opened Ranges
  import opened RangeFiles

  const MAX_DUP: nat := 1023

  datatype Slot = Slot(description: nat, cloexec: bool)

  /** A process, with its list of mapped ranges. A process that has not been created, or has exited, names no description. */
  datatype Process = Process(fds: seq<Option<Slot>>, firstFree: nat, ranges: Added)

  const NO_PROCESS := Process([], 0, Added([], 0))

  // ---------------------------------------------------------------- what names a description

  function One(x: Option<Slot>): multiset<nat> {
    if x.Some? then multiset{x.value.description} else multiset{}
  }

  function Named(fds: seq<Option<Slot>>): multiset<nat> {
    if fds == [] then multiset{} else Named(fds[..|fds| - 1]) + One(fds[|fds| - 1])
  }

  function Of(p: Process): multiset<nat> {
    Named(p.fds) + FileRefs(p.ranges.rs)
  }

  function Refs(ps: seq<Process>): multiset<nat> {
    if ps == [] then multiset{} else Refs(ps[..|ps| - 1]) + Of(ps[|ps| - 1])
  }

  lemma {:induction false} NamedUpdate(fds: seq<Option<Slot>>, i: nat, x: Option<Slot>)
    requires i < |fds|
    ensures One(fds[i]) <= Named(fds)
    ensures Named(fds[i := x]) == Named(fds) - One(fds[i]) + One(x)
  {
    var n := |fds| - 1;
    if i == n {
      assert fds[i := x][..n] == fds[..n];
    } else {
      NamedUpdate(fds[..n], i, x);
      assert fds[i := x][..n] == fds[..n][i := x];
      Exchange(Named(fds[..n]), One(fds[i]), One(x), One(fds[n]));
    }
  }

  lemma Exchange(m: multiset<nat>, a: multiset<nat>, b: multiset<nat>, c: multiset<nat>)
    requires a <= m
    ensures m + c - a + b == m - a + b + c && a <= m + c
  {
  }

  lemma NamedAppend(fds: seq<Option<Slot>>, x: Option<Slot>)
    ensures Named(fds + [x]) == Named(fds) + One(x)
  {
    assert (fds + [x])[..|fds|] == fds;
  }

  lemma {:induction false} RefsUpdate(ps: seq<Process>, i: nat, p: Process)
    requires i < |ps|
    ensures Of(ps[i]) <= Refs(ps)
    ensures Refs(ps[i := p]) == Refs(ps) - Of(ps[i]) + Of(p)
  {
    var n := |ps| - 1;
    if i == n {
      assert ps[i := p][..n] == ps[..n];
    } else {
      RefsUpdate(ps[..n], i, p);
      assert ps[i := p][..n] == ps[..n][i := p];
      Exchange(Refs(ps[..n]), Of(ps[i]), Of(p), Of(ps[n]));
    }
  }

  /** No slot below the hint is free, and the ranges do not overlap. */
  ghost predicate TableOk(p: Process) {
    && p.firstFree <= |p.fds| && (forall i :: 0 <= i < p.firstFree ==> p.fds[i].Some?)
    && ListOk(p.ranges.rs, p.ranges.freshId)
  }

  // ---------------------------------------------------------------- allocation of numbers

  /** Slot `fd` of `p` may be filled: it is free, and once it is filled the hint is right again. */
  ghost predicate Reserved(p0: Process, p: Process, fd: nat) {
    && fd < |p.fds| && p.fds[fd].None? && p.ranges == p0.ranges
    && (p.fds == p0.fds || (p.fds == p0.fds + [None] && fd == |p0.fds|))
    && forall x: Slot :: TableOk(p.(fds := p.fds[fd := Some(x)]))
  }

  /**
    allocate_fdnum finds the lowest free number from `min` on. Beyond the end of the table it only
    adds one slot, so the number is below the minimum exactly when the minimum is beyond the end.
   */
  method AllocateFd(p0: Process, min: int) returns (fd: nat, p: Process)
    requires TableOk(p0)
    ensures Reserved(p0, p, fd)
    ensures forall i :: 0 <= i < |p0.fds| && min <= i < fd ==> p0.fds[i].Some?
    ensures fd >= min <==> min <= |p0.fds|
  {
    p := p0;
    var begin := if min < p.firstFree then p.firstFree else min;
    var i := begin;
    while i < |p.fds|
      invariant begin <= i && p == p0
      invariant forall k :: begin <= k < i && k < |p.fds| ==> p.fds[k].Some?
    {
      if p.fds[i].None? {
        if min < p.firstFree {
          p := p.(firstFree := i + 1);
        }
        return i, p;
      }
      i := i + 1;
    }
    if min < p.firstFree {
      p := p.(firstFree := |p.fds|);
    }
    p := p.(fds := p.fds + [None]);
    return |p.fds| - 1, p;
  }

  /** Asking a table of three open slots for a number of at least 10 yields 3. */
  method BelowMinimum(x: Slot) returns (fd: nat, p: Process)
    ensures fd == 3 && p.fds == [Some(x), Some(x), Some(x), None]
  {
    var p0 := Process([Some(x), Some(x), Some(x)], 3, Added([], 0));
    fd, p := AllocateFd(p0, 10);
    assert p0.fds[0].Some? && p0.fds[1].Some? && p0.fds[2].Some?;
  }

  // ---------------------------------------------------------------- one process

  /** The slots of `p` name the descriptions of `base` and no others. */
  ghost predicate Owns(f: Files, base: multiset<nat>, p: Process) {
    FilesOk(f, base + Of(p)) && TableOk(p)
  }

  lemma FillSlot(p: Process, fd: nat, x: Slot)
    requires fd < |p.fds| && p.fds[fd].None?
    ensures Of(p.(fds := p.fds[fd := Some(x)])) == Of(p) + multiset{x.description}
  {
    NamedUpdate(p.fds, fd, Some(x));
  }

  lemma ClearSlot(base: multiset<nat>, p: Process, fd: nat)
    requires fd < |p.fds| && p.fds[fd].Some?
    ensures var d := p.fds[fd].value.description;
            d in base + Of(p) && base + Of(p) - multiset{d} == base + Of(p.(fds := p.fds[fd := None]))
  {
    var d := p.fds[fd].value.description;
    var all, rest, mapped := Named(p.fds), Named(p.fds[fd := None]), FileRefs(p.ranges.rs);
    assert all == rest + multiset{d} by {
      NamedUpdate(p.fds, fd, None);
      assert d in One(p.fds[fd]);
    }
    assert base + (all + mapped) - multiset{d} == base + (rest + mapped);
  }

  lemma GrowTable(p0: Process, p: Process, fd: nat)
    requires Reserved(p0, p, fd)
    ensures Of(p) == Of(p0)
  {
    NamedAppend(p0.fds, None);
  }

  /** FileDescriptor::close. */
  method CloseSlot(f0: Files, ghost base: multiset<nat>, p0: Process, fd: nat) returns (f: Files, p: Process)
    requires Owns(f0, base, p0) && fd < |p0.fds| && p0.fds[fd].Some?
    ensures Owns(f, base, p) && Settled(f0, f)
    ensures p == p0.(fds := p0.fds[fd := None], firstFree := p.firstFree) && p.firstFree == Min(p0.firstFree, fd)
    ensures var d := p0.fds[fd].value.description;
            && d in f0.descriptions
            && if f0.descriptions[d].refCount > 1 then f.pipes == f0.pipes
               else PipesRaised(f.pipes, f0.pipes, f0.descriptions[d].vnode, f0.descriptions[d].flags)
  {
    var d := p0.fds[fd].value.description;
    ClearSlot(base, p0, fd);
    f := Decrement(f0, d, base + Of(p0));
    p := p0.(fds := p0.fds[fd := None]);
    if p.firstFree > fd {
      p := p.(firstFree := fd);
    }
  }

  /** FileDescriptor::duplicate into a free slot. */
  method DuplicateInto(f0: Files, ghost base: multiset<nat>, p0: Process, fd: nat, x: Slot) returns (f: Files, p: Process)
    requires FilesOk(f0, base + Of(p0)) && fd < |p0.fds| && p0.fds[fd].None? && x.description in Of(p0)
    requires TableOk(p0.(fds := p0.fds[fd := Some(x)]))
    ensures Owns(f, base, p) && p == p0.(fds := p0.fds[fd := Some(x)]) && Settled(f0, f)
  {
    f := Increment(f0, x.description, base + Of(p0));
    p := p0.(fds := p0.fds[fd := Some(x)]);
    FillSlot(p0, fd, x);
    assert base + Of(p0) + multiset{x.description} == base + Of(p);
  }

  lemma SlotNamed(p: Process, fd: nat)
    requires fd < |p.fds| && p.fds[fd].Some?
    ensures p.fds[fd].value.description in Of(p)
  {
    NamedUpdate(p.fds, fd, None);
    assert p.fds[fd].value.description in One(p.fds[fd]);
  }

  /** The table with one more slot in use, which was free or is new. */
  ghost predicate Filled(fds0: seq<Option<Slot>>, fds: seq<Option<Slot>>, fd: nat, x: Slot) {
    && fd <= |fds0| && (fd < |fds0| ==> fds0[fd].None?)
    && fds == if fd < |fds0| then fds0[fd := Some(x)] else fds0 + [Some(x)]
  }

  lemma ReservedFills(p0: Process, p: Process, fd: nat, x: Slot)
    requires Reserved(p0, p, fd)
    ensures Filled(p0.fds, p.fds[fd := Some(x)], fd, x) && |p0.fds| <= |p.fds| && TableOk(p.(fds := p.fds[fd := Some(x)]))
  {
  }

  lemma ReservedTaken(base: multiset<nat>, p0: Process, p: Process, fd: nat, x: Slot)
    requires Reserved(p0, p, fd)
    ensures base + Of(p.(fds := p.fds[fd := Some(x)])) == base + Of(p0) + multiset{x.description}
  {
    GrowTable(p0, p, fd);
    FillSlot(p, fd, x);
  }

  /** open: a new description in the lowest free slot. */
  method Open(f0: Files, ghost base: multiset<nat>, p0: Process, vnode: nat, flags: bv32, cloexec: bool)
    returns (fd: nat, f: Files, p: Process)
    requires Owns(f0, base, p0) && vnode < f0.freshId
    ensures Owns(f, base, p) && f0.freshId <= f.freshId && p.ranges == p0.ranges
    ensures fd < |p.fds| && p.fds[fd].Some? && (forall i :: 0 <= i < fd ==> p.fds[i].Some?)
    ensures Filled(p0.fds, p.fds, fd, p.fds[fd].value)
    ensures var d := p.fds[fd].value.description;
            && d !in f0.descriptions && p.fds[fd].value.cloexec == cloexec
            && f.descriptions == f0.descriptions[d := Description(1, vnode, flags)] && PipesRaised(f0.pipes, f.pipes, vnode, flags)
  {
    fd, p := AllocateFd(p0, 0);
    assert forall i :: 0 <= i < fd ==> p0.fds[i].Some?;
    var d;
    d, f := Create(f0, vnode, flags, base + Of(p0));
    ReservedFills(p0, p, fd, Slot(d, cloexec));
    ReservedTaken(base, p0, p, fd, Slot(d, cloexec));
    p := p.(fds := p.fds[fd := Some(Slot(d, cloexec))]);
  }

  /** Two slots more are in use; every other slot is as it was. */
  ghost predicate TwoFilled(fds0: seq<Option<Slot>>, fds: seq<Option<Slot>>, a: nat, b: nat) {
    && a != b && a < |fds| && b < |fds| && fds[a].Some? && fds[b].Some? && |fds0| <= |fds|
    && (forall i :: 0 <= i < |fds0| && (i == a || i == b) ==> fds0[i].None?)
    && (forall i :: 0 <= i < |fds| && i != a && i != b ==> i < |fds0| && fds[i] == fds0[i])
  }

  lemma FilledTwice(fds0: seq<Option<Slot>>, fds1: seq<Option<Slot>>, fds: seq<Option<Slot>>, a: nat, b: nat, x: Slot, y: Slot)
    requires Filled(fds0, fds1, a, x) && Filled(fds1, fds, b, y)
    ensures TwoFilled(fds0, fds, a, b) && fds[a] == Some(x) && fds[b] == Some(y)
  {
  }

  /** pipe_impl: two descriptions of one vnode, and one reader and one writer to show for it. */
  method OpenPipe(f0: Files, ghost base: multiset<nat>, p0: Process, nonblock: bv32, cloexec: bool)
    returns (v: nat, readEnd: nat, writeEnd: nat, f: Files, p: Process)
    requires Owns(f0, base, p0) && nonblock & O_ACCMODE == 0
    ensures Owns(f, base, p) && f0.freshId <= f.freshId && p.ranges == p0.ranges
    ensures v !in f0.pipes && f.pipes.Keys == f0.pipes.Keys + {v} && f.pipes[v] == PipeEnds(1, 1)
    ensures TwoFilled(p0.fds, p.fds, readEnd, writeEnd)
    ensures var d1, d2 := p.fds[readEnd].value.description, p.fds[writeEnd].value.description;
            && d1 !in f0.descriptions && d2 !in f0.descriptions && d1 != d2
            && f.descriptions == f0.descriptions[d1 := Description(1, v, O_RDONLY | nonblock)][d2 := Description(1, v, O_WRONLY | nonblock)]
            && p.fds[readEnd].value.cloexec == p.fds[writeEnd].value.cloexec == cloexec
  {
    v, f := NewPipe(f0, base + Of(p0));
    readEnd, f, p := Open(f, base, p0, v, O_RDONLY | nonblock, cloexec);
    assert PipeOk(f, v);
    ghost var f1, p1 := f, p;
    writeEnd, f, p := Open(f, base, p, v, O_WRONLY | nonblock, cloexec);
    assert PipeOk(f, v);
    ghost var d1, d2 := p1.fds[readEnd].value.description, p.fds[writeEnd].value.description;
    TwoEnds(f0, base + Of(p0), f, v, d1, d2, nonblock);
    FilledTwice(p0.fds, p1.fds, p.fds, readEnd, writeEnd, p1.fds[readEnd].value, p.fds[writeEnd].value);
  }

  lemma TwoEnds(f0: Files, refs: multiset<nat>, f: Files, v: nat, d1: nat, d2: nat, nonblock: bv32)
    requires FilesOk(f0, refs) && v == f0.freshId && d1 !in f0.descriptions && d2 !in f0.descriptions && d1 != d2
    requires nonblock & O_ACCMODE == 0
    requires f.descriptions == f0.descriptions[d1 := Description(1, v, O_RDONLY | nonblock)][d2 := Description(1, v, O_WRONLY | nonblock)]
    ensures |ReaderSet(f.descriptions, v)| == 1 && |WriterSet(f.descriptions, v)| == 1
  {
    forall d | d in f0.descriptions
      ensures f0.descriptions[d].vnode != v
    {
      assert CountOk(f0, refs, d);
    }
    assert (O_RDONLY | nonblock) & O_ACCMODE == O_RDONLY && (O_WRONLY | nonblock) & O_ACCMODE == O_WRONLY;
    assert ReaderSet(f.descriptions, v) == {d1};
    assert WriterSet(f.descriptions, v) == {d2};
  }

  /** A pipe whose writing end is closed has one reader and no writer; one whose reading end is closed, the other way round. */
  method PipeHalf(f0: Files, ghost base: multiset<nat>, p0: Process, nonblock: bv32, cloexec: bool, keepReader: bool)
    returns (v: nat, f: Files, p: Process)
    requires Owns(f0, base, p0) && nonblock & 3 == 0
    ensures Owns(f, base, p) && v in f.pipes
    ensures f.pipes[v] == if keepReader then PipeEnds(1, 0) else PipeEnds(0, 1)
  {
    var readEnd, writeEnd;
    v, readEnd, writeEnd, f, p := OpenPipe(f0, base, p0, nonblock, cloexec);
    assert (0 | nonblock) & 3 == 0 && (1 | nonblock) & 3 == 1 by {
      ModeKept(nonblock);
    }
    f, p := CloseSlot(f, base, p, if keepReader then writeEnd else readEnd);
  }

  lemma ModeKept(flags: bv32)
    requires flags & 3 == 0
    ensures (0 | flags) & 3 == 0 && (1 | flags) & 3 == 1 && (2 | flags) & 3 == 2
  {
  }

  datatype Outcome = Ok(fd: nat) | BadFd | Invalid | OutOfBounds

  predicate IsOpen(p: Process, fd: int) {
    0 <= fd < |p.fds| && p.fds[fd].Some?
  }

  /** F_DUPFD and F_DUPFD_CLOEXEC: the new descriptor names the same description. */
  method DupFd(f0: Files, ghost base: multiset<nat>, p0: Process, fd: int, min: int, cloexec: bool)
    returns (r: Outcome, f: Files, p: Process)
    requires Owns(f0, base, p0)
    ensures Owns(f, base, p) && Settled(f0, f) && p.ranges == p0.ranges
    ensures r.Ok? <==> IsOpen(p0, fd)
    ensures !r.Ok? ==> f == f0 && p == p0
    ensures r.Ok? ==> 0 <= fd < |p0.fds| <= |p.fds| && (r.fd < |p0.fds| ==> p0.fds[r.fd].None?) && r.fd < |p.fds|
                      && Filled(p0.fds, p.fds, r.fd, Slot(p0.fds[fd].value.description, cloexec))
                      && (r.fd >= min <==> min <= |p0.fds|)
    ensures r.Ok? ==> forall i :: 0 <= i < |p0.fds| && min <= i < r.fd ==> p0.fds[i].Some?
  {
    if !(0 <= fd < |p0.fds|) || p0.fds[fd].None? {
      return BadFd, f0, p0;
    }
    SlotNamed(p0, fd);
    var newFd;
    newFd, p := AllocateFd(p0, min);
    GrowTable(p0, p, newFd);
    ReservedFills(p0, p, newFd, Slot(p0.fds[fd].value.description, cloexec));
    f, p := DuplicateInto(f0, base, p, newFd, Slot(p0.fds[fd].value.description, cloexec));
    return Ok(newFd), f, p;
  }

  /** dup3_impl, which is dup2 when both numbers are the same. */
  method Dup3(f0: Files, ghost base: multiset<nat>, p0: Process, oldFd: int, newFd: int, cloexec: bool, unknownFlags: bool)
    returns (r: Outcome, f: Files, p: Process)
    requires Owns(f0, base, p0)
    ensures Owns(f, base, p) && Settled(f0, f) && p.ranges == p0.ranges
    ensures r.BadFd? <==> !IsOpen(p0, oldFd) || !(0 <= newFd <= MAX_DUP)
    ensures (r.Invalid? <==> !r.BadFd? && unknownFlags) && !r.OutOfBounds?
    ensures !r.Ok? || oldFd == newFd ==> f == f0 && p == p0
    ensures r.Ok? ==> r.fd == newFd && IsOpen(p, newFd)
    ensures r.Ok? && oldFd != newFd ==>
              && IsOpen(p0, oldFd) && p.fds[newFd] == Some(Slot(p0.fds[oldFd].value.description, cloexec))
              && |p0.fds| <= |p.fds| && (forall i :: 0 <= i < |p0.fds| && i != newFd ==> p.fds[i] == p0.fds[i])
              && (forall i :: |p0.fds| <= i < |p.fds| && i != newFd ==> p.fds[i].None?)
  {
    if !(0 <= oldFd < |p0.fds|) || newFd > MAX_DUP || newFd < 0 || p0.fds[oldFd].None? {
      return BadFd, f0, p0;
    }
    if unknownFlags {
      return Invalid, f0, p0;
    }
    if oldFd == newFd {
      return Ok(newFd), f0, p0;
    }
    p := GrowTo(p0, newFd);
    f, p := Replace(f0, base, p, oldFd, newFd, cloexec);
    return Ok(newFd), f, p;
  }

  /** The table after it was extended by empty slots. */
  ghost predicate Grown(fds0: seq<Option<Slot>>, fds: seq<Option<Slot>>) {
    && |fds0| <= |fds|
    && (forall i :: 0 <= i < |fds0| ==> fds[i] == fds0[i])
    && (forall i :: |fds0| <= i < |fds| ==> fds[i].None?)
  }

  method GrowTo(p0: Process, fd: nat) returns (p: Process)
    requires TableOk(p0)
    ensures Of(p) == Of(p0) && TableOk(p) && p == p0.(fds := p.fds) && Grown(p0.fds, p.fds) && fd < |p.fds|
  {
    p := p0;
    while |p.fds| <= fd
      invariant Of(p) == Of(p0) && TableOk(p) && p == p0.(fds := p.fds) && Grown(p0.fds, p.fds)
      decreases fd - |p.fds|
    {
      NamedAppend(p.fds, None);
      p := p.(fds := p.fds + [None]);
    }
  }

  /** Slot `newFd` gives up what it names and names what slot `oldFd` does. */
  method Replace(f0: Files, ghost base: multiset<nat>, p0: Process, oldFd: nat, newFd: nat, cloexec: bool) returns (f: Files, p: Process)
    requires Owns(f0, base, p0) && IsOpen(p0, oldFd) && newFd < |p0.fds| && oldFd != newFd
    ensures Owns(f, base, p) && Settled(f0, f) && p.ranges == p0.ranges
    ensures p.fds == p0.fds[newFd := Some(Slot(p0.fds[oldFd].value.description, cloexec))]
  {
    f, p := f0, p0;
    if p.fds[newFd].Some? {
      f, p := CloseSlot(f, base, p, newFd);
    }
    SlotNamed(p, oldFd);
    f, p := DuplicateInto(f, base, p, newFd, Slot(p0.fds[oldFd].value.description, cloexec));
  }

  /** close. */
  method Close(f0: Files, ghost base: multiset<nat>, p0: Process, fd: int) returns (r: Outcome, f: Files, p: Process)
    requires Owns(f0, base, p0)
    ensures Owns(f, base, p) && Settled(f0, f) && p.ranges == p0.ranges
    ensures r.BadFd? <==> !IsOpen(p0, fd)
    ensures !r.Ok? ==> f == f0 && p == p0 && r.BadFd?
    ensures r.Ok? ==> IsOpen(p0, fd) && p.fds == p0.fds[fd := None]
  {
    if !(0 <= fd < |p0.fds|) || p0.fds[fd].None? {
      return BadFd, f0, p0;
    }
    f, p := CloseSlot(f0, base, p0, fd);
    return Ok(fd), f, p;
  }

  /** The slots that a loop over `fds` empties: those from `lo` to `hi` that are wanted. */
  ghost predicate Swept(fds0: seq<Option<Slot>>, fds: seq<Option<Slot>>, lo: nat, hi: nat, cloexecOnly: bool) {
    && |fds| == |fds0|
    && forall i :: 0 <= i < |fds0| ==>
         fds[i] == if lo <= i < hi && fds0[i].Some? && (cloexecOnly ==> fds0[i].value.cloexec) then None else fds0[i]
  }

  /** The loops of close_range, of exec (close-on-exec only) and of exit over the slots lo to hi. */
  method Sweep(f0: Files, ghost base: multiset<nat>, p0: Process, lo: nat, hi: nat, cloexecOnly: bool) returns (f: Files, p: Process)
    requires Owns(f0, base, p0) && hi <= |p0.fds|
    ensures Owns(f, base, p) && Settled(f0, f) && p.ranges == p0.ranges && Swept(p0.fds, p.fds, lo, hi, cloexecOnly)
  {
    f, p := f0, p0;
    var fd := lo;
    while fd < hi
      invariant lo <= fd && (fd <= hi || fd == lo) && |p.fds| == |p0.fds|
      invariant Owns(f, base, p) && Settled(f0, f) && p.ranges == p0.ranges && Swept(p0.fds, p.fds, lo, fd, cloexecOnly)
    {
      if p.fds[fd].Some? && (cloexecOnly ==> p.fds[fd].value.cloexec) {
        f, p := CloseSlot(f, base, p, fd);
      }
      fd := fd + 1;
    }
  }
}
