/** Whole runs over the descriptor tables of all processes. */
module FileRuns {
  import opened Common
  import opened Files
  import opened Descriptors
  import opened Ranges
  import opened RangeFiles
  import opened Protect
  import FileMaps

  // ---------------------------------------------------------------- fork

  lemma PrefixNamed(base: multiset<nat>, fds: seq<Option<Slot>>, i: nat, next: nat)
    requires i < |fds| && next == i + 1 && Named(fds) <= base
    ensures base + Named(fds[..next]) == base + Named(fds[..i]) + One(fds[i])
    ensures One(fds[i]) <= base + Named(fds[..i])
  {
    assert Named(fds[..next]) == Named(fds[..i]) + One(fds[i]) by {
      assert fds[..next][..i] == fds[..i];
    }
    var one, all, some := One(fds[i]), Named(fds), Named(fds[..i]);
    assert one <= all by { NamedUpdate(fds, i, None); }
    assert one <= base + some;
  }

  /** The references there are when the slots before `i` have been copied. */
  ghost predicate Copying(f0: Files, f: Files, base: multiset<nat>, fds: seq<Option<Slot>>, i: nat) {
    i <= |fds| && FilesOk(f, base + Named(fds[..i])) && Settled(f0, f)
  }

  method CopyDescriptor(f1: Files, ghost f0: Files, ghost base: multiset<nat>, fds: seq<Option<Slot>>, i: nat, ghost next: nat) returns (f: Files)
    requires Copying(f0, f1, base, fds, i) && i < |fds| && next == i + 1 && Named(fds) <= base
    ensures Copying(f0, f, base, fds, next)
  {
    f := f1;
    PrefixNamed(base, fds, i, next);
    ghost var refs := base + Named(fds[..i]);
    if fds[i].Some? {
      assert fds[i].value.description in One(fds[i]);
      f := Increment(f, fds[i].value.description, refs);
    } else {
      assert refs + One(fds[i]) == refs;
    }
  }

  /** clone_impl's loop over the descriptors of the parent: the child's table is the same, flags included. */
  method CopyDescriptors(f0: Files, ghost base: multiset<nat>, fds: seq<Option<Slot>>) returns (f: Files, copy: seq<Option<Slot>>)
    requires FilesOk(f0, base) && Named(fds) <= base
    ensures FilesOk(f, base + Named(fds)) && copy == fds && Settled(f0, f)
  {
    f, copy := f0, [];
    assert fds[..0] == [] && base + Named([]) == base;
    var i := 0;
    while i < |fds|
      invariant 0 <= i <= |fds| && copy == fds[..i] && Copying(f0, f, base, fds, i)
    {
      var next := i + 1;
      f := CopyDescriptor(f, f0, base, fds, i, next);
      copy, i := copy + [fds[i]], next;
    }
    assert fds[..|fds|] == fds;
  }

  /** The process a fork makes: the same descriptors, and the list of ranges that fork builds. */
  function ForkedProcess(p: Process): Process {
    p.(ranges := Added(ForkList(p.ranges.rs, |p.ranges.rs|, p.ranges.freshId), p.ranges.freshId + |p.ranges.rs|))
  }

  lemma ForkedRefs(p: Process)
    requires TableOk(p)
    ensures Of(ForkedProcess(p)) == Of(p) && TableOk(ForkedProcess(p))
  {
    ForkFiles(p.ranges.rs, |p.ranges.rs|, p.ranges.freshId);
    assert p.ranges.rs[..|p.ranges.rs|] == p.ranges.rs;
    ForkListOk(p.ranges.rs, |p.ranges.rs|, p.ranges.freshId);
  }

  method ForkProcess(f0: Files, ghost base: multiset<nat>, parent: Process) returns (f: Files, child: Process)
    requires FilesOk(f0, base) && Of(parent) <= base && TableOk(parent)
    ensures Owns(f, base, child) && child == ForkedProcess(parent) && Settled(f0, f)
  {
    var copy;
    ForkedRefs(parent);
    f := FileMaps.CopyRanges(f0, base, parent.ranges.rs);
    f, copy := CopyDescriptors(f, base + FileRefs(parent.ranges.rs), parent.fds);
    child := ForkedProcess(parent).(fds := copy);
    assert base + FileRefs(parent.ranges.rs) + Named(copy) == base + Of(parent);
  }

  // ---------------------------------------------------------------- flags

  lemma SlotRenamed(p: Process, fd: nat, cloexec: bool)
    requires fd < |p.fds| && p.fds[fd].Some?
    ensures Of(p.(fds := p.fds[fd := Some(p.fds[fd].value.(cloexec := cloexec))])) == Of(p)
  {
    NamedUpdate(p.fds, fd, Some(p.fds[fd].value.(cloexec := cloexec)));
  }

  /** F_SETFD. */
  method SetCloexec(f: Files, ghost base: multiset<nat>, p0: Process, fd: int, cloexec: bool) returns (p: Process)
    requires Owns(f, base, p0)
    ensures Owns(f, base, p) && p.ranges == p0.ranges
    ensures p == if IsOpen(p0, fd) then p0.(fds := p0.fds[fd := Some(p0.fds[fd].value.(cloexec := cloexec))]) else p0
  {
    p := p0;
    if 0 <= fd < |p.fds| && p.fds[fd].Some? {
      SlotRenamed(p, fd, cloexec);
      p := p.(fds := p.fds[fd := Some(p.fds[fd].value.(cloexec := cloexec))]);
    }
  }

  ghost predicate Marked(fds0: seq<Option<Slot>>, fds: seq<Option<Slot>>, lo: nat, hi: nat) {
    && |fds| == |fds0|
    && forall i :: 0 <= i < |fds0| ==>
         fds[i] == if lo <= i < hi && fds0[i].Some? then Some(fds0[i].value.(cloexec := true)) else fds0[i]
  }

  /** close_range with CLOSE_RANGE_CLOEXEC. */
  method MarkCloexec(f: Files, ghost base: multiset<nat>, p0: Process, lo: nat, hi: nat) returns (p: Process)
    requires Owns(f, base, p0) && hi <= |p0.fds|
    ensures Owns(f, base, p) && p.ranges == p0.ranges && Marked(p0.fds, p.fds, lo, hi)
  {
    p := p0;
    var fd := lo;
    while fd < hi
      invariant lo <= fd && (fd <= hi || fd == lo) && Owns(f, base, p) && p.ranges == p0.ranges && Marked(p0.fds, p.fds, lo, fd)
    {
      ghost var before := p;
      p := SetCloexec(f, base, p, fd, true);
      MarkedNext(p0.fds, before.fds, p.fds, lo, fd);
      fd := fd + 1;
    }
  }

  lemma MarkedNext(fds0: seq<Option<Slot>>, fds: seq<Option<Slot>>, fds': seq<Option<Slot>>, lo: nat, fd: nat)
    requires Marked(fds0, fds, lo, fd) && lo <= fd < |fds0|
    requires fds' == if fds[fd].Some? then fds[fd := Some(fds[fd].value.(cloexec := true))] else fds
    ensures Marked(fds0, fds', lo, fd + 1)
  {
  }

  /** close_range. With a table without slots the bound wraps around and the loop leaves the table. */
  method CloseSlots(f0: Files, ghost base: multiset<nat>, p0: Process, first: nat, last: nat, mark: bool)
    returns (r: Outcome, f: Files, p: Process)
    requires Owns(f0, base, p0)
    ensures Owns(f, base, p) && Settled(f0, f) && p.ranges == p0.ranges
    ensures r.Invalid? <==> first > last
    ensures r.OutOfBounds? <==> first <= last && |p0.fds| == 0
    ensures !r.Ok? ==> f == f0 && p == p0 && (r.Invalid? || r.OutOfBounds?)
    ensures r.Ok? ==>
              if mark then Marked(p0.fds, p.fds, first, last + 1) else Swept(p0.fds, p.fds, first, last + 1, false)
  {
    f, p := f0, p0;
    if first > last {
      return Invalid, f, p;
    }
    if |p.fds| == 0 {
      return OutOfBounds, f, p;
    }
    var end := Min(last, |p.fds| - 1) + 1;
    if mark {
      p := MarkCloexec(f, base, p, first, end);
    } else {
      f, p := Sweep(f, base, p, first, end, false);
    }
    return Ok(0), f, p;
  }

  // ---------------------------------------------------------------- exec and exit

  /** user_exec: the close-on-exec descriptors go, and with the old pagemap its mappings. */
  method ExecProcess(f0: Files, ghost base: multiset<nat>, p0: Process) returns (f: Files, p: Process)
    requires Owns(f0, base, p0)
    ensures Owns(f, base, p) && Settled(f0, f) && p.ranges.rs == [] && Swept(p0.fds, p.fds, 0, |p0.fds|, true)
    ensures forall i :: 0 <= i < |p.fds| && p.fds[i].Some? ==> !p.fds[i].value.cloexec
  {
    f, p := Sweep(f0, base, p0, 0, |p0.fds|, true);
    f, p := FileMaps.DropRanges(f, base, p);
  }

  /** zombify: nothing is named any more. */
  method ExitProcess(f0: Files, ghost base: multiset<nat>, p0: Process) returns (f: Files, p: Process)
    requires Owns(f0, base, p0)
    ensures Owns(f, base, p) && Settled(f0, f) && Of(p) == multiset{}
  {
    f, p := Sweep(f0, base, p0, 0, |p0.fds|, false);
    f, p := FileMaps.DropRanges(f, base, p);
    NothingNamed(p.fds);
  }

  lemma {:induction false} NothingNamed(fds: seq<Option<Slot>>)
    requires forall i :: 0 <= i < |fds| ==> fds[i].None?
    ensures Named(fds) == multiset{}
  {
    if fds != [] {
      NothingNamed(fds[..|fds| - 1]);
    }
  }

  // ---------------------------------------------------------------- runs

  datatype Op =
    | OpenFile(pid: nat, vnode: nat, flags: bv32, cloexec: bool)
    | OpenPipe(pid: nat, nonblock: bool, cloexec: bool)
    | Dup(pid: nat, fd: int, min: int, cloexec: bool)
    | Dup3(pid: nat, oldFd: int, newFd: int, cloexec: bool, unknownFlags: bool)
    | SetFl(pid: nat, fd: int, arg: bv32)
    | SetFd(pid: nat, fd: int, cloexec: bool)
    | Close(pid: nat, fd: int)
    | CloseRange(pid: nat, first: nat, last: nat, mark: bool)
    | MapFile(pid: nat, fd: int, base: nat, length: nat, prot: nat, offset: nat, sharedWrite: bool)   // MAP_SHARED and PROT_WRITE
    | MapAnonymous(pid: nat, base: nat, length: nat, prot: nat, keep: bool)
    | Unmap(pid: nat, base: nat, length: nat)
    | Mprotect(pid: nat, base: nat, length: nat, prot: nat)
    | Fork(pid: nat, child: nat)
    | Exec(pid: nat)
    | Exit(pid: nat)

  const O_NONBLOCK: bv32 := 0x800

  function PipeFlags(nonblock: bool): (flags: bv32)
    ensures flags & O_ACCMODE == 0
  {
    if nonblock then O_NONBLOCK else 0
  }

  /** The pipe's two new slots name its reading and its writing description. */
  ghost predicate PipeOpened(f0: Files, f: Files, p0: Process, p: Process, flags: bv32, cloexec: bool, r: nat, w: nat, v: nat) {
    && TwoFilled(p0.fds, p.fds, r, w) && p.ranges == p0.ranges && v !in f0.pipes && v in f.pipes && f.pipes[v] == PipeEnds(1, 1)
    && var d1, d2 := p.fds[r].value.description, p.fds[w].value.description;
       && d1 !in f0.descriptions && d2 !in f0.descriptions && d1 != d2
       && f.descriptions == f0.descriptions[d1 := Description(1, v, O_RDONLY | flags)][d2 := Description(1, v, O_WRONLY | flags)]
       && p.fds[r].value.cloexec == p.fds[w].value.cloexec == cloexec
  }

  /** A new description in the lowest free slot. */
  ghost predicate FileOpened(f0: Files, f: Files, p0: Process, p: Process, vnode: nat, flags: bv32, cloexec: bool, fd: nat, d: nat) {
    && Filled(p0.fds, p.fds, fd, Slot(d, cloexec)) && (forall i :: 0 <= i < fd ==> p.fds[i].Some?) && p.ranges == p0.ranges
    && d !in f0.descriptions && f.descriptions == f0.descriptions[d := Description(1, vnode, flags)]
  }

  /** One description has new flags; its access mode is the old one. */
  ghost predicate Reflagged(f0: Files, f: Files, d: nat, arg: bv32) {
    && d in f0.descriptions && d in f.descriptions && f.descriptions[d].flags & 0x46C00 == arg & 0x46C00
    && f.descriptions[d].flags & !0x46C00 == f0.descriptions[d].flags & !0x46C00
    && f == f0.(descriptions := f0.descriptions[d := f0.descriptions[d].(flags := f.descriptions[d].flags)])
    && f.descriptions[d].CanRead() == f0.descriptions[d].CanRead() && f.descriptions[d].CanWrite() == f0.descriptions[d].CanWrite()
  }

  /** One slot names what another does. The table may have grown by empty slots. */
  ghost predicate Duplicated(p0: Process, p: Process, oldFd: nat, newFd: nat, cloexec: bool)
    requires IsOpen(p0, oldFd)
  {
    && newFd < |p.fds| && p.fds[newFd] == Some(Slot(p0.fds[oldFd].value.description, cloexec)) && p.ranges == p0.ranges
    && |p0.fds| <= |p.fds| && (forall i :: 0 <= i < |p0.fds| && i != newFd ==> p.fds[i] == p0.fds[i])
    && (forall i :: |p0.fds| <= i < |p.fds| && i != newFd ==> p.fds[i].None?)
  }

  /** A description that is mapped must be open for reading, and for writing too if the mapping writes to the file. */
  ghost predicate MayMap(f: Files, d: nat, sharedWrite: bool) {
    d in f.descriptions && var mode := f.descriptions[d].flags & 3; mode == 2 || (mode == 0 && !sharedWrite)
  }

  /** The list is edited as for the file from `offset` on, and the window shows just that. */
  ghost predicate FileMapped(p0: Process, p: Process, d: nat, base: nat, length: nat, prot: nat, offset: nat) {
    && p == FileMaps.After(p0, FileArgs(base, length, prot, d, offset))
    && forall a: nat :: base <= a < base + length ==>
         At(p.ranges.rs, a) == Some(Mapping(File, prot, Some(d))) && BackingAt(p.ranges.rs, a) == Some(offset + (a - base) * 0x1000)
  }

  ghost predicate MemoryMapped(p0: Process, p: Process, base: nat, length: nat, prot: nat, keep: bool) {
    && p == FileMaps.After(p0, AnonymousArgs(base, length, prot, keep))
    && forall a: nat :: base <= a < base + length ==> At(p.ranges.rs, a) == Some(Mapping(Anonymous, prot, None))
  }

  ghost predicate Unmapped(p0: Process, p: Process, base: nat, length: nat) {
    && p == FileMaps.After(p0, UnmapArgs(base, length))
    && forall a: nat :: base <= a < base + length ==> At(p.ranges.rs, a) == None
  }

  /** What an operation does for its process; refused operations change nothing. */
  ghost predicate Acted(f0: Files, f: Files, p0: Process, p: Process, op: Op) {
    match op
    case OpenFile(_, vnode, flags, cloexec) =>
      if vnode < f0.freshId then exists fd, d :: FileOpened(f0, f, p0, p, vnode, flags, cloexec, fd, d) else f == f0 && p == p0
    case OpenPipe(_, nonblock, cloexec) =>
      var flags: bv32 := if nonblock then 0x800 else 0;
      exists r, w, v :: PipeOpened(f0, f, p0, p, flags, cloexec, r, w, v)
    case Dup(_, fd, min, cloexec) =>
      if IsOpen(p0, fd) then
        && Settled(f0, f) && p.ranges == p0.ranges
        && exists n: nat :: Filled(p0.fds, p.fds, n, Slot(p0.fds[fd].value.description, cloexec)) && (n >= min <==> min <= |p0.fds|)
                        && forall i :: 0 <= i < |p0.fds| && min <= i < n ==> p0.fds[i].Some?
      else f == f0 && p == p0
    case Dup3(_, oldFd, newFd, cloexec, unknownFlags) =>
      if IsOpen(p0, oldFd) && 0 <= newFd <= MAX_DUP && !unknownFlags && oldFd != newFd then
        Settled(f0, f) && Duplicated(p0, p, oldFd, newFd, cloexec)
      else f == f0 && p == p0
    case SetFl(_, fd, arg) =>
      p == p0 && if IsOpen(p0, fd) then Reflagged(f0, f, p0.fds[fd].value.description, arg) else f == f0
    case SetFd(_, fd, cloexec) =>
      f == f0 && p == if IsOpen(p0, fd) then p0.(fds := p0.fds[fd := Some(p0.fds[fd].value.(cloexec := cloexec))]) else p0
    case Close(_, fd) =>
      Settled(f0, f) && p.ranges == p0.ranges && p.fds == if IsOpen(p0, fd) then p0.fds[fd := None] else p0.fds
    case CloseRange(_, first, last, mark) =>
      && Settled(f0, f) && p.ranges == p0.ranges
      && if |p0.fds| == 0 || first > last then p == p0
         else if mark then Marked(p0.fds, p.fds, first, last + 1) else Swept(p0.fds, p.fds, first, last + 1, false)
    case MapFile(_, fd, base, length, prot, offset, sharedWrite) =>
      if IsOpen(p0, fd) && length > 0 && MayMap(f0, p0.fds[fd].value.description, sharedWrite) then
        Settled(f0, f) && FileMapped(p0, p, p0.fds[fd].value.description, base, length, prot, offset)
      else f == f0 && p == p0
    case MapAnonymous(_, base, length, prot, keep) =>
      if length > 0 then Settled(f0, f) && MemoryMapped(p0, p, base, length, prot, keep) else f == f0 && p == p0
    case Unmap(_, base, length) => Settled(f0, f) && Unmapped(p0, p, base, length)
    case Mprotect(_, base, length, prot) =>
      && Settled(f0, f) && p == p0.(ranges := p.ranges)
      && var t := ProtectList(p0.ranges.rs, p0.ranges.freshId, base, base + length, prot); p.ranges == Added(t.rs, t.freshId)
    case Fork(_, _) => p == p0
    case Exec(_) => Settled(f0, f) && p.ranges.rs == [] && Swept(p0.fds, p.fds, 0, |p0.fds|, true)
    case Exit(_) => Settled(f0, f) && Of(p) == multiset{}
  }

  /** The operations that put a new description into a slot. */
  method ActOpen(f0: Files, ghost base: multiset<nat>, p0: Process, op: Op) returns (f: Files, p: Process)
    requires Owns(f0, base, p0) && (op.OpenFile? || op.OpenPipe?)
    ensures Owns(f, base, p) && Acted(f0, f, p0, p, op)
  {
    f, p := f0, p0;
    match op
    case OpenFile(_, vnode, flags, cloexec) =>
      if vnode < f.freshId {
        var fd;
        fd, f, p := Open(f, base, p, vnode, flags, cloexec);
        assert FileOpened(f0, f, p0, p, vnode, flags, cloexec, fd, p.fds[fd].value.description);
      }
    case OpenPipe(_, nonblock, cloexec) =>
      var v, r, w;
      v, r, w, f, p := Descriptors.OpenPipe(f, base, p, PipeFlags(nonblock), cloexec);
      assert PipeOpened(f0, f, p0, p, PipeFlags(nonblock), cloexec, r, w, v);
  }

  /** The operations by which another slot names the same description. */
  method ActDup(f0: Files, ghost base: multiset<nat>, p0: Process, op: Op) returns (f: Files, p: Process)
    requires Owns(f0, base, p0) && (op.Dup? || op.Dup3?)
    ensures Owns(f, base, p) && Acted(f0, f, p0, p, op)
  {
    f, p := f0, p0;
    match op
    case Dup(_, fd, min, cloexec) =>
      var r;
      r, f, p := DupFd(f, base, p, fd, min, cloexec);
    case Dup3(_, oldFd, newFd, cloexec, unknownFlags) =>
      var r;
      r, f, p := Descriptors.Dup3(f, base, p, oldFd, newFd, cloexec, unknownFlags);
  }

  /** The access checks of mmap. */
  method Allowed(f: Files, ghost base: multiset<nat>, p: Process, fd: nat, sharedWrite: bool) returns (allowed: bool)
    requires Owns(f, base, p) && IsOpen(p, fd)
    ensures allowed <==> MayMap(f, p.fds[fd].value.description, sharedWrite)
  {
    SlotNamed(p, fd);
    NamedExists(f, base + Of(p), p.fds[fd].value.description);
    var x := f.descriptions[p.fds[fd].value.description];
    AccessModes(f.descriptions, p.fds[fd].value.description, x.vnode);
    allowed := x.CanRead() && (sharedWrite ==> x.CanWrite());
  }

  /** mmap of a file: the new range names what the descriptor does. */
  method MapFd(f0: Files, ghost base: multiset<nat>, p0: Process, fd: nat, start: nat, length: nat, prot: nat, offset: nat)
    returns (f: Files, p: Process)
    requires Owns(f0, base, p0) && IsOpen(p0, fd) && length > 0
    ensures Owns(f, base, p) && Settled(f0, f)
    ensures FileMapped(p0, p, p0.fds[fd].value.description, start, length, prot, offset)
  {
    var args := FileArgs(start, length, prot, p0.fds[fd].value.description, offset);
    FdNamed(p0, fd);
    FileMaps.MapMappable(base, p0, args);
    f, p := FileMaps.AddRange(f0, base, p0, args);
    forall a: nat | start <= a < start + length
      ensures At(p.ranges.rs, a) == Some(Mapping(File, prot, Some(p0.fds[fd].value.description)))
      ensures BackingAt(p.ranges.rs, a) == Some(offset + (a - start) * 0x1000)
    {
      FileInside(p0.ranges.rs, p0.ranges.freshId, start, length, prot, p0.fds[fd].value.description, offset, a);
    }
  }

  /** mmap without a file. */
  method MapMemory(f0: Files, ghost base: multiset<nat>, p0: Process, start: nat, length: nat, prot: nat, keep: bool) returns (f: Files, p: Process)
    requires Owns(f0, base, p0) && length > 0
    ensures Owns(f, base, p) && Settled(f0, f) && MemoryMapped(p0, p, start, length, prot, keep)
  {
    var args := AnonymousArgs(start, length, prot, keep);
    FileMaps.MapMappable(base, p0, args);
    f, p := FileMaps.AddRange(f0, base, p0, args);
    forall a: nat | start <= a < start + length
      ensures At(p.ranges.rs, a) == Some(Mapping(Anonymous, prot, None))
    {
      NoFileInside(p0.ranges.rs, p0.ranges.freshId, start, length, prot, keep, a);
    }
  }

  /** munmap. */
  method UnmapMemory(f0: Files, ghost base: multiset<nat>, p0: Process, start: nat, length: nat) returns (f: Files, p: Process)
    requires Owns(f0, base, p0)
    ensures Owns(f, base, p) && Settled(f0, f) && Unmapped(p0, p, start, length)
  {
    FileMaps.MapMappable(base, p0, UnmapArgs(start, length));
    f, p := FileMaps.AddRange(f0, base, p0, UnmapArgs(start, length));
    forall a: nat | start <= a < start + length
      ensures At(p.ranges.rs, a) == None
    {
      NoFileInside(p0.ranges.rs, p0.ranges.freshId, start, length, 0, false, a);
    }
  }

  /** The operations that map something. */
  method ActMap(f0: Files, ghost base: multiset<nat>, p0: Process, op: Op) returns (f: Files, p: Process)
    requires Owns(f0, base, p0) && (op.MapFile? || op.MapAnonymous?)
    ensures Owns(f, base, p) && Acted(f0, f, p0, p, op)
  {
    f, p := f0, p0;
    match op
    case MapFile(_, fd, start, length, prot, offset, sharedWrite) =>
      if 0 <= fd < |p.fds| && p.fds[fd].Some? && length > 0 {
        var allowed := Allowed(f, base, p, fd, sharedWrite);
        if allowed {
          f, p := MapFd(f, base, p, fd, start, length, prot, offset);
        }
      }
    case MapAnonymous(_, start, length, prot, keep) =>
      if length > 0 {
        f, p := MapMemory(f, base, p, start, length, prot, keep);
      }
  }

  method ActUnmap(f0: Files, ghost base: multiset<nat>, p0: Process, op: Op) returns (f: Files, p: Process)
    requires Owns(f0, base, p0) && op.Unmap?
    ensures Owns(f, base, p) && Acted(f0, f, p0, p, op)
  {
    f, p := UnmapMemory(f0, base, p0, op.base, op.length);
  }

  method ActProtect(f0: Files, ghost base: multiset<nat>, p0: Process, op: Op) returns (f: Files, p: Process)
    requires Owns(f0, base, p0) && op.Mprotect?
    ensures Owns(f, base, p) && Acted(f0, f, p0, p, op)
  {
    f, p := FileMaps.ProtectPages(f0, base, p0, op.base, op.base + op.length, op.prot);
  }

  lemma FdNamed(p: Process, fd: nat)
    requires fd < |p.fds| && p.fds[fd].Some?
    ensures p.fds[fd].value.description in Named(p.fds)
  {
    NamedUpdate(p.fds, fd, None);
    assert p.fds[fd].value.description in One(p.fds[fd]);
  }

  /** F_SETFL. */
  method SetFlagsOf(f0: Files, ghost base: multiset<nat>, p: Process, fd: nat, arg: bv32) returns (f: Files)
    requires Owns(f0, base, p) && IsOpen(p, fd)
    ensures Owns(f, base, p) && Reflagged(f0, f, p.fds[fd].value.description, arg)
  {
    SlotNamed(p, fd);
    f := SetFlags(f0, p.fds[fd].value.description, arg, base + Of(p));
  }

  /** The operations that change flags. */
  method ActFlags(f0: Files, ghost base: multiset<nat>, p0: Process, op: Op) returns (f: Files, p: Process)
    requires Owns(f0, base, p0) && (op.SetFl? || op.SetFd?)
    ensures Owns(f, base, p) && Acted(f0, f, p0, p, op)
  {
    f, p := f0, p0;
    match op
    case SetFl(_, fd, arg) =>
      if 0 <= fd < |p.fds| && p.fds[fd].Some? {
        f := SetFlagsOf(f, base, p, fd, arg);
      }
    case SetFd(_, fd, cloexec) => p := SetCloexec(f, base, p, fd, cloexec);
  }

  /** The operations that close descriptors. */
  method ActClose(f0: Files, ghost base: multiset<nat>, p0: Process, op: Op) returns (f: Files, p: Process)
    requires Owns(f0, base, p0) && (op.Close? || op.CloseRange? || op.Exec? || op.Exit?)
    ensures Owns(f, base, p) && Acted(f0, f, p0, p, op)
  {
    f, p := f0, p0;
    match op
    case Close(_, fd) =>
      var r;
      r, f, p := Descriptors.Close(f, base, p, fd);
    case CloseRange(_, first, last, mark) =>
      var r;
      r, f, p := CloseSlots(f, base, p, first, last, mark);
    case Exec(_) => f, p := ExecProcess(f, base, p);
    case Exit(_) => f, p := ExitProcess(f, base, p);
  }

  /** An operation that concerns one process. */
  method Act(f0: Files, ghost base: multiset<nat>, p0: Process, op: Op) returns (f: Files, p: Process)
    requires Owns(f0, base, p0) && !op.Fork?
    ensures Owns(f, base, p) && Acted(f0, f, p0, p, op)
  {
    if op.OpenFile? || op.OpenPipe? {
      f, p := ActOpen(f0, base, p0, op);
    } else if op.Dup? || op.Dup3? {
      f, p := ActDup(f0, base, p0, op);
    } else if op.SetFl? || op.SetFd? {
      f, p := ActFlags(f0, base, p0, op);
    } else if op.Close? || op.CloseRange? || op.Exec? || op.Exit? {
      f, p := ActClose(f0, base, p0, op);
    } else if op.Unmap? {
      f, p := ActUnmap(f0, base, p0, op);
    } else if op.Mprotect? {
      f, p := ActProtect(f0, base, p0, op);
    } else {
      f, p := ActMap(f0, base, p0, op);
    }
  }

  /** The invariant over all processes. */
  ghost predicate SystemOk(f: Files, ps: seq<Process>) {
    FilesOk(f, Refs(ps)) && forall i :: 0 <= i < |ps| ==> TableOk(ps[i])
  }

  lemma OwnsOf(f: Files, ps: seq<Process>, pid: nat)
    requires SystemOk(f, ps) && pid < |ps|
    ensures Owns(f, Refs(ps) - Of(ps[pid]), ps[pid])
  {
    RefsUpdate(ps, pid, ps[pid]);
    assert Refs(ps) - Of(ps[pid]) + Of(ps[pid]) == Refs(ps);
  }

  lemma OwnsBack(f: Files, ps: seq<Process>, pid: nat, p: Process)
    requires pid < |ps| && Owns(f, Refs(ps) - Of(ps[pid]), p) && forall i :: 0 <= i < |ps| ==> TableOk(ps[i])
    ensures SystemOk(f, ps[pid := p])
  {
    RefsUpdate(ps, pid, p);
  }

  lemma NewEntry(f: Files, ps: seq<Process>, child: nat, p: Process)
    requires child < |ps| && ps[child] == NO_PROCESS && Owns(f, Refs(ps), p)
    requires forall i :: 0 <= i < |ps| ==> TableOk(ps[i])
    ensures SystemOk(f, ps[child := p])
  {
    RefsUpdate(ps, child, p);
    assert Of(ps[child]) == multiset{};
    assert Refs(ps) - Of(ps[child]) + Of(p) == Refs(ps) + Of(p);
  }

  /** The child gets the parent's table and mappings; nobody else is affected. */
  method ForkInto(f0: Files, ps0: seq<Process>, pid: nat, child: nat) returns (f: Files, ps: seq<Process>)
    requires SystemOk(f0, ps0) && pid < |ps0|
    ensures SystemOk(f, ps) && Settled(f0, f)
    ensures ps == if child < |ps0| && child != pid && ps0[child] == NO_PROCESS then ps0[child := ForkedProcess(ps0[pid])] else ps0
  {
    f, ps := f0, ps0;
    if child < |ps| && child != pid && ps[child] == NO_PROCESS {
      RefsUpdate(ps, pid, ps[pid]);
      var p;
      f, p := ForkProcess(f, Refs(ps), ps[pid]);
      NewEntry(f, ps, child, p);
      ps := ps[child := p];
    }
  }

  method ActIn(f0: Files, ps0: seq<Process>, op: Op) returns (f: Files, ps: seq<Process>)
    requires SystemOk(f0, ps0) && op.pid < |ps0| && !op.Fork?
    ensures SystemOk(f, ps) && |ps| == |ps0| && ps == ps0[op.pid := ps[op.pid]] && Acted(f0, f, ps0[op.pid], ps[op.pid], op)
  {
    OwnsOf(f0, ps0, op.pid);
    var p;
    f, p := Act(f0, Refs(ps0) - Of(ps0[op.pid]), ps0[op.pid], op);
    OwnsBack(f, ps0, op.pid, p);
    ps := ps0[op.pid := p];
  }

  datatype Snapshot = Snapshot(files: Files, processes: seq<Process>)

  /** What an operation does to the system: to its own process, or, for a fork, to the child's entry. */
  ghost predicate Performed(a: Snapshot, b: Snapshot, op: Op) {
    && SystemOk(b.files, b.processes) && |b.processes| == |a.processes|
    && if op.pid >= |a.processes| then b == a
       else if op.Fork? then
         && Settled(a.files, b.files)
         && b.processes == if op.child < |a.processes| && op.child != op.pid && a.processes[op.child] == NO_PROCESS
                           then a.processes[op.child := ForkedProcess(a.processes[op.pid])] else a.processes
       else
         && b.processes == a.processes[op.pid := b.processes[op.pid]]
         && Acted(a.files, b.files, a.processes[op.pid], b.processes[op.pid], op)
  }

  /** The states of a run, one more than operations performed. */
  ghost predicate Traced(trace: seq<Snapshot>, ops: seq<Op>) {
    && 0 < |trace| <= |ops| + 1
    && forall i: nat {:trigger Performed(trace[i], trace[i + 1], ops[i])} :: i < |trace| - 1 ==> Performed(trace[i], trace[i + 1], ops[i])
  }

  lemma TraceNext(trace: seq<Snapshot>, ops: seq<Op>, b: Snapshot)
    requires Traced(trace, ops) && |trace| <= |ops| && Performed(trace[|trace| - 1], b, ops[|trace| - 1])
    ensures Traced(trace + [b], ops)
  {
    var trace' := trace + [b];
    forall i: nat | i < |trace|
      ensures Performed(trace'[i], trace'[i + 1], ops[i])
    {
      assert i < |trace| - 1 ==> Performed(trace[i], trace[i + 1], ops[i]);
    }
  }

  /** The process table; dead processes keep an entry that names nothing. */
  class System {
    var files: Files
    var processes: seq<Process>

    ghost predicate Valid()
      reads this
    {
      SystemOk(files, processes)
    }

    ghost function Now(): Snapshot
      reads this
    {
      Snapshot(files, processes)
    }

    /** Vnodes numbered below `vnodes` are files that exist from the start. */
    constructor (slots: nat, vnodes: nat)
      ensures Valid() && files.descriptions == map[] && |processes| == slots
    {
      files := Files(map[], map[], vnodes);
      processes := seq(slots, _ => NO_PROCESS);
      new;
      EmptyRefs(processes);
      forall d: nat
        ensures CountOk(files, Refs(processes), d)
      {
      }
    }

    /** One operation; those of processes that do not exist are ignored, and so is a fork into an entry still in use. */
    method Perform(op: Op)
      requires Valid()
      modifies this
      ensures Valid() && Performed(old(Now()), Now(), op)
    {
      if op.pid < |processes| {
        if op.Fork? {
          files, processes := ForkInto(files, processes, op.pid, op.child);
        } else {
          files, processes := ActIn(files, processes, op);
        }
      }
    }

    /**
      Over any run, step by step as the operations say: counts equal names, nothing dangles,
      nothing leaks, and pipes know their ends.
     */
    method Run(ops: seq<Op>) returns (ghost trace: seq<Snapshot>)
      requires Valid()
      modifies this
      ensures Valid() && Traced(trace, ops) && |trace| == |ops| + 1 && trace[0] == old(Now()) && trace[|ops|] == Now()
      ensures forall d: nat :: d in files.descriptions <==> d in Refs(processes)
      ensures forall d: nat :: d in files.descriptions ==> files.descriptions[d].refCount == Refs(processes)[d]
      ensures forall v: nat :: v in files.pipes ==>
                files.pipes[v] == PipeEnds(|ReaderSet(files.descriptions, v)|, |WriterSet(files.descriptions, v)|)
    {
      var i := 0;
      trace := [Now()];
      while i < |ops|
        invariant 0 <= i <= |ops| && Valid() && |trace| == i + 1 && trace[0] == old(Now()) && trace[i] == Now() && Traced(trace, ops)
      {
        Perform(ops[i]);
        TraceNext(trace, ops, Now());
        trace := trace + [Now()];
        i := i + 1;
      }
      forall d: nat
        ensures d in files.descriptions <==> d in Refs(processes)
        ensures d in files.descriptions ==> files.descriptions[d].refCount == Refs(processes)[d]
      {
        assert CountOk(files, Refs(processes), d);
      }
      forall v: nat | v in files.pipes
        ensures files.pipes[v] == PipeEnds(|ReaderSet(files.descriptions, v)|, |WriterSet(files.descriptions, v)|)
      {
        assert PipeOk(files, v);
      }
    }
  }

  lemma {:induction false} EmptyRefs(ps: seq<Process>)
    requires forall i :: 0 <= i < |ps| ==> ps[i] == NO_PROCESS
    ensures Refs(ps) == multiset{}
  {
    if ps != [] {
      EmptyRefs(ps[..|ps| - 1]);
    }
  }
}
