/** The references that file mappings hold to open file descriptions, through add_range, mprotect, fork and the end of a pagemap. */
module FileMaps {
  import opened Common
  import opened Ranges
  import opened RangeFiles
  import opened Protect
  import opened Files
  import opened Descriptors

  // ---------------------------------------------------------------- one reference

  lemma {:induction false} RefsMember(rs: seq<MappedRange>, i: nat)
    requires i < |rs|
    ensures FileOf(rs[i].file) <= FileRefs(rs)
  {
    if i > 0 {
      RefsMember(rs[1..], i - 1);
    }
  }

  /** A range that names a file takes a reference when it is made. */
  method TakeRef(f0: Files, ghost refs: multiset<nat>, file: Option<nat>) returns (f: Files)
    requires FilesOk(f0, refs) && (file.Some? ==> file.value in refs)
    ensures FilesOk(f, refs + FileOf(file)) && Settled(f0, f)
  {
    f := f0;
    if file.Some? {
      f := Increment(f, file.value, refs);
    } else {
      assert refs + FileOf(file) == refs;
    }
  }

  /** The destructor of a range gives it back. */
  method DropRef(f0: Files, ghost refs: multiset<nat>, file: Option<nat>) returns (f: Files)
    requires FilesOk(f0, refs) && FileOf(file) <= refs
    ensures FilesOk(f, refs - FileOf(file)) && Settled(f0, f)
  {
    f := f0;
    if file.Some? {
      assert file.value in FileOf(file);
      f := Decrement(f, file.value, refs);
    } else {
      assert refs - FileOf(file) == refs;
    }
  }

  // ---------------------------------------------------------------- add_range

  /** The references there are while the list of one process is `rs`; `rest` are all others. */
  ghost predicate Counted(f: Files, rest: multiset<nat>, rs: seq<MappedRange>) {
    FilesOk(f, rest + FileRefs(rs))
  }

  /** How the references change in one iteration: a covered range gives one back, a split takes one. */
  lemma StepBalance(rest: multiset<nat>, s: Scan, args: Args)
    requires s.next < |s.rs| && Classify(s.rs[s.next], args) != Exact
    ensures var r, before, after := s.rs[s.next], rest + FileRefs(s.rs), rest + FileRefs(StepScan(s, args).rs);
            && FileOf(r.file) <= before
            && after == match Classify(r, args)
                        case Covered => before - FileOf(r.file)
                        case Split => before + FileOf(r.file)
                        case _ => before
  {
    StepFiles(s, args);
    RefsMember(s.rs, s.next);
    Balanced(rest, FileRefs(s.rs), FileRefs(StepScan(s, args).rs), FileOf(s.rs[s.next].file));
  }

  lemma Balanced(rest: multiset<nat>, before: multiset<nat>, after: multiset<nat>, one: multiset<nat>)
    requires one <= before
    ensures one <= rest + before
    ensures after + one == before + multiset{} ==> rest + after == rest + before - one
    ensures after + multiset{} == before + one ==> rest + after == rest + before + one
    ensures after + multiset{} == before + multiset{} ==> rest + after == rest + before
  {
    assert before + multiset{} == before && after + multiset{} == after;
    if after + one == before {
      assert rest + before == rest + after + one;
    }
    if after == before + one {
      assert rest + after == rest + before + one;
    }
  }

  /** One iteration of the overlap loop. */
  method StepRefs(f0: Files, ghost rest: multiset<nat>, s: Scan, args: Args) returns (f: Files)
    requires s.next < |s.rs| && Classify(s.rs[s.next], args) != Exact && Counted(f0, rest, s.rs)
    ensures Counted(f, rest, StepScan(s, args).rs) && Settled(f0, f)
  {
    f := f0;
    StepBalance(rest, s, args);
    var r := s.rs[s.next];
    ghost var refs := rest + FileRefs(s.rs);
    match Classify(r, args)
    case Covered => f := DropRef(f, refs, r.file);
    case Split =>
      assert r.file.Some? ==> r.file.value in FileOf(r.file);
      f := TakeRef(f, refs, r.file);
    case _ =>
  }

  /** The description a new range is to name is named by a descriptor, or by a range that stays. */
  ghost predicate StaysNamed(base: multiset<nat>, p: Process, args: Args) {
    args.file.Some? ==>
      || args.file.value in base + Named(p.fds)
      || (FilesWhere(p.ranges.rs, args, Covered) == multiset{} && args.file.value in FileRefs(p.ranges.rs))
  }

  lemma StillNamed(base: multiset<nat>, p: Process, args: Args, rs: seq<MappedRange>)
    requires StaysNamed(base, p, args) && args.file.Some?
    requires FileRefs(rs) + FilesWhere(p.ranges.rs, args, Covered) == FileRefs(p.ranges.rs) + FilesWhere(p.ranges.rs, args, Split)
    ensures args.file.value in base + Named(p.fds) + FileRefs(rs)
  {
    var x := args.file.value;
    assert (FileRefs(rs) + FilesWhere(p.ranges.rs, args, Covered))[x] == (FileRefs(p.ranges.rs) + FilesWhere(p.ranges.rs, args, Split))[x];
  }

  /** Requests may update in place only a range that names the same file, so the list stays in order. */
  ghost predicate Mappable(base: multiset<nat>, p: Process, args: Args) {
    args.resolve && args.WellFormed() && KeepsFile(p.ranges.rs, args) && StaysNamed(base, p, args)
  }

  ghost function After(p: Process, args: Args): Process {
    p.(ranges := Ranges.AddRange(p.ranges.rs, p.ranges.freshId, args))
  }

  lemma AfterOk(base: multiset<nat>, p: Process, args: Args)
    requires TableOk(p) && Mappable(base, p, args)
    ensures TableOk(After(p, args))
  {
    AddRangeOverwrites(p.ranges.rs, p.ranges.freshId, args, 0);
  }

  /** The first pass, with the references it gives back and takes. */
  method PassRefs(f0: Files, ghost rest: multiset<nat>, s0: Scan, args: Args) returns (exact: bool, f: Files, s: Scan)
    requires s0.next == 0 && Counted(f0, rest, s0.rs)
    ensures Counted(f, rest, s.rs) && Settled(f0, f) && RunPass(s0, args) == if exact then InPlace(s) else Done(s)
  {
    f, s := f0, s0;
    while s.next < |s.rs|
      invariant s.next <= |s.rs| && Counted(f, rest, s.rs) && Settled(f0, f) && RunPass(s0, args) == RunPass(s, args)
      decreases Work(s.rs[s.next..], args)
    {
      var r := s.rs[s.next];
      if Classify(r, args) == Exact {
        RefsReplace(s.rs, s.next, r.(flags := args.flags));
        s := s.(rs := s.rs[s.next := r.(flags := args.flags)]);
        return true, f, s;
      }
      StepProgress(s, args);
      f := StepRefs(f, rest, s, args);
      s := StepScan(s, args);
    }
    return false, f, s;
  }

  lemma PassBalance(p: Process, args: Args, s: Scan)
    requires TableOk(p) && RunPass(Scan(p.ranges.rs, 0, p.ranges.freshId, false), args) == Done(s)
    ensures FileRefs(s.rs) + FilesWhere(p.ranges.rs, args, Covered) == FileRefs(p.ranges.rs) + FilesWhere(p.ranges.rs, args, Split)
  {
    var s0 := Scan(p.ranges.rs, 0, p.ranges.freshId, false);
    if i :| 0 <= i < |p.ranges.rs| && Classify(p.ranges.rs[i], args) == Exact {
      PassExact(s0, args, i);
    } else {
      assert Ahead(s0) == p.ranges.rs;
      PassFiles(s0, args);
    }
  }

  /** add_range, on the list of one process and on the reference counts. */
  method AddRange(f0: Files, ghost base: multiset<nat>, p0: Process, args: Args) returns (f: Files, p: Process)
    requires Owns(f0, base, p0) && Mappable(base, p0, args)
    ensures Owns(f, base, p) && Settled(f0, f) && p == After(p0, args)
  {
    ghost var rest := base + Named(p0.fds);
    AfterOk(base, p0, args);
    Regroup(base, p0);
    var exact, s;
    exact, f, s := PassRefs(f0, rest, Scan(p0.ranges.rs, 0, p0.ranges.freshId, false), args);
    if exact {
      p := p0.(ranges := Added(s.rs, s.freshId));
      Regroup(base, p);
      return;
    }
    PassBalance(p0, args, s);
    if args.file.Some? {
      StillNamed(base, p0, args, s.rs);
    }
    f := TakeRef(f, rest + FileRefs(s.rs), args.file);
    FinishFiles(s.rs, s.freshId, args);
    p := p0.(ranges := Finish(s.rs, s.freshId, args));
    Regroup(base, p);
    assert rest + FileRefs(s.rs) + FileOf(args.file) == rest + FileRefs(p.ranges.rs);
  }

  lemma Regroup(base: multiset<nat>, p: Process)
    ensures base + Of(p) == base + Named(p.fds) + FileRefs(p.ranges.rs)
  {
  }

  // ---------------------------------------------------------------- the system calls

  lemma MapMappable(base: multiset<nat>, p: Process, args: Args)
    requires TableOk(p) && args.resolve && args.WellFormed() && (args.keep ==> args.kind == Anonymous)
    requires args.file.Some? ==> args.file.value in base + Named(p.fds)
    ensures Mappable(base, p, args)
  {
  }

  /** What mprotect is given to add is named by the range it is taken from, which stays. */
  lemma ProtectMappable(base: multiset<nat>, p: Process, r: MappedRange, lo: nat, hi: nat, flags: nat)
    requires TableOk(p) && r in p.ranges.rs && r.Covers(lo) && lo < hi
    ensures Mappable(base, p, ProtectArgs(r, lo, hi, flags))
  {
    TurnAt(p.ranges.rs, p.ranges.freshId, r, lo, hi, flags, lo);
    WindowAlone(p.ranges.rs, p.ranges.freshId, r, lo, hi, flags, r);
    TurnFiles(p.ranges.rs, p.ranges.freshId, r, lo, hi, flags);
    var i :| 0 <= i < |p.ranges.rs| && p.ranges.rs[i] == r;
    RefsMember(p.ranges.rs, i);
    assert r.file.Some? ==> r.file.value in FileOf(r.file);
  }

  /** syscall_mprotect: the list is that of the list function, and every range of it that names a file holds a reference. */
  method ProtectPages(f0: Files, ghost base: multiset<nat>, p0: Process, lo: nat, hi: nat, flags: nat) returns (f: Files, p: Process)
    requires Owns(f0, base, p0)
    ensures Owns(f, base, p) && Settled(f0, f) && p == p0.(ranges := p.ranges)
    ensures var t := ProtectList(p0.ranges.rs, p0.ranges.freshId, lo, hi, flags); p.ranges == Added(t.rs, t.freshId)
  {
    f, p := f0, p0;
    var current := lo;
    while current < hi && Find(p.ranges.rs, current).Some?
      invariant Owns(f, base, p) && Settled(f0, f) && p == p0.(ranges := p.ranges)
      invariant ProtectList(p.ranges.rs, p.ranges.freshId, current, hi, flags) == ProtectList(p0.ranges.rs, p0.ranges.freshId, lo, hi, flags)
      decreases if current < hi then hi - current else 0
    {
      FindMember(p.ranges.rs, current);
      var r := Find(p.ranges.rs, current).value;
      var args := ProtectArgs(r, current, hi, flags);
      ProtectMappable(base, p, r, current, hi, flags);
      f, p := AddRange(f, base, p, args);
      current := args.End();
    }
  }

  /** The end of a pagemap: every range goes. */
  method DropRanges(f0: Files, ghost base: multiset<nat>, p0: Process) returns (f: Files, p: Process)
    requires Owns(f0, base, p0)
    ensures Owns(f, base, p) && Settled(f0, f) && p == p0.(ranges := p0.ranges.(rs := []))
  {
    ghost var rest := base + Named(p0.fds);
    Regroup(base, p0);
    f := f0;
    var rs := p0.ranges.rs;
    while rs != []
      invariant Counted(f, rest, rs) && Settled(f0, f)
      decreases |rs|
    {
      ghost var one, others := FileOf(rs[0].file), FileRefs(rs[1..]);
      assert rest + (one + others) - one == rest + others;
      f := DropRef(f, rest + FileRefs(rs), rs[0].file);
      rs := rs[1..];
    }
    p := p0.(ranges := p0.ranges.(rs := []));
    Regroup(base, p);
  }

  /** Pagemap::fork takes a reference for every file range of the child. */
  method CopyRanges(f0: Files, ghost base: multiset<nat>, rs: seq<MappedRange>) returns (f: Files)
    requires FilesOk(f0, base) && FileRefs(rs) <= base
    ensures FilesOk(f, base + FileRefs(rs)) && Settled(f0, f)
  {
    f := f0;
    assert rs[..0] == [] && base + FileRefs([]) == base;
    var i := 0;
    while i < |rs|
      invariant 0 <= i <= |rs| && Counted(f, base, rs[..i]) && Settled(f0, f)
    {
      var next := i + 1;
      NextRef(base, rs, i, next);
      f := TakeRef(f, base + FileRefs(rs[..i]), rs[i].file);
      i := next;
    }
    assert rs[..|rs|] == rs;
  }

  lemma NextRef(base: multiset<nat>, rs: seq<MappedRange>, i: nat, next: nat)
    requires i < |rs| && next == i + 1 && FileRefs(rs) <= base
    ensures base + FileRefs(rs[..i]) + FileOf(rs[i].file) == base + FileRefs(rs[..next])
    ensures rs[i].file.Some? ==> rs[i].file.value in base + FileRefs(rs[..i])
  {
    assert rs[..next] == rs[..i] + [rs[i]];
    RefsSnoc(rs[..i], rs[i]);
    RefsMember(rs, i);
    assert rs[i].file.Some? ==> rs[i].file.value in FileOf(rs[i].file);
    Grouped(base, FileRefs(rs[..i]), FileOf(rs[i].file));
  }

  lemma Grouped(a: multiset<nat>, b: multiset<nat>, c: multiset<nat>)
    ensures a + b + c == a + (b + c)
  {
  }
}
