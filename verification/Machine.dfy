/** Whole runs: any number of processes, any sequence of mappings, faults, protections, writes, forks and exits. */
module Machine {
  import opened Common
  import opened Ranges
  import opened PageTable
  import opened Memory
  import opened Vmm
  import opened AddRangeOps
  import opened Protect
  import opened ForkTables
  import opened Fork
  import opened Destroy
  import opened Syscalls
  import Pmm

  datatype Op =
    | Exec(s: nat)                                                        // a pagemap of its own for process s
    | MapAnonymous(s: nat, base: nat, length: nat, flags: nat, keep: bool)
    | MapFile(s: nat, base: nat, length: nat, flags: nat, file: nat, offset: nat)
    | Unmap(s: nat, base: nat, length: nat)
    | Mprotect(s: nat, base: nat, length: nat, flags: nat)
    | DontNeed(s: nat, base: nat, length: nat)
    | Fault(s: nat, page: nat)
    | Store(s: nat, page: nat, offset: nat, value: byte)
    | Fork(s: nat, child: nat)
    | Exit(s: nat)

  /** Processes other than `s` are still there and read what they did; no frame has appeared or got lost. */
  ghost predicate Isolated(m0: Memory, m: Memory, files: map<nat, seq<byte>>, s: nat) {
    && m.info.Keys == m0.info.Keys
    && (forall z {:trigger z in m.spaces} :: z in m0.spaces && z != s ==> z in m.spaces)
    && (forall z, q: nat {:trigger View(m, files, z, q)} :: z in m0.spaces && z in m.spaces && z != s && q < LOWER_PAGES ==>
          View(m, files, z, q) == View(m0, files, z, q))
  }

  /** What a fault brings in at page `q`, if anything. */
  ghost function FaultView(files: map<nat, seq<byte>>, rs: seq<MappedRange>, q: nat): Option<seq<byte>> {
    match Find(rs, q)
    case Some(r) => Some(FaultPage(files, r, q))
    case None => None
  }

  /** What a request does to page `q` of its own process: which frame stays, and what is read afterwards. */
  ghost predicate PageRemapped(m0: Memory, m: Memory, files: map<nat, seq<byte>>, s: nat, args: Args, q: nat)
    requires s in m0.spaces && s in m.spaces
  {
    var rs := m0.spaces[s].ranges;
    && EntryOf(m, s, q) == (if args.Inside(q) then WindowWord(rs, args, q, EntryOf(m0, s, q)) else EntryOf(m0, s, q))
    && (View(m, files, s, q) == if Present(EntryOf(m, s, q)) then View(m0, files, s, q) else FaultView(files, m.spaces[s].ranges, q))
    && (!args.Inside(q) && (Present(EntryOf(m0, s, q)) || !LosesOffset(rs, args, q)) ==> View(m, files, s, q) == View(m0, files, s, q))
  }

  /** The mapping of process `s` is overwritten on exactly the window, and outside it nothing else reads differently. */
  ghost predicate Overwritten(m0: Memory, m: Memory, files: map<nat, seq<byte>>, s: nat, args: Args) {
    && s in m0.spaces && s in m.spaces
    && m.spaces[s].ranges == Ranges.AddRange(m0.spaces[s].ranges, m0.freshId, args).rs
    && (forall a: nat :: At(m.spaces[s].ranges, a) == if args.Inside(a) then Requested(args) else At(m0.spaces[s].ranges, a))
    && (forall q: nat {:trigger PageRemapped(m0, m, files, s, args, q)} :: q < LOWER_PAGES ==> PageRemapped(m0, m, files, s, args, q))
  }

  /**
    A page of the window stays resident unless its range lies wholly inside the window; but an
    anonymous range that is exactly the window may be kept. What stays is read as before.
   */
  ghost predicate StaysResident(m0: Memory, m: Memory, files: map<nat, seq<byte>>, s: nat, base: nat, length: nat, flags: nat, keep: bool, q: nat)
    requires s in m0.spaces && s in m.spaces
  {
    var found := Find(m0.spaces[s].ranges, q);
    && (Present(EntryOf(m, s, q)) <==>
          && Present(EntryOf(m0, s, q)) && found.Some?
          && (found.value.base < base || base + length < found.value.base + found.value.length
              || (keep && found.value.kind == Anonymous && found.value.base == base && found.value.length == length)))
    && (Present(EntryOf(m, s, q)) ==> View(m, files, s, q) == View(m0, files, s, q) && EntryOf(m, s, q) == PTE(EntryOf(m0, s, q).pfn, flags))
  }

  /** The window maps a file from `offset` on: a page that is not resident reads as the bytes of the file there, with zeroes behind its end. */
  ghost predicate ShowsFile(m0: Memory, m: Memory, files: map<nat, seq<byte>>, s: nat, base: nat, length: nat, flags: nat, file: nat, offset: nat) {
    && s in m0.spaces && s in m.spaces
    && forall q: nat {:trigger EntryOf(m, s, q)} :: base <= q < base + length ==>
         && At(m.spaces[s].ranges, q) == Some(Mapping(File, flags, Some(file)))
         && StaysResident(m0, m, files, s, base, length, flags, false, q)
         && (!Present(EntryOf(m, s, q)) && file in files ==> FileBytes(View(m, files, s, q), files[file], offset + (q - base) * 0x1000))
  }

  /** A page of 4096 bytes: those of the content from `k` on, and zeroes behind its end. */
  predicate FileBytes(page: Option<seq<byte>>, content: seq<byte>, k: nat) {
    && page.Some? && |page.value| == 0x1000
    && forall i :: 0 <= i < 0x1000 ==> page.value[i] == if k + i < |content| then content[k + i] else 0
  }

  /** The window maps no file: a page that is not resident reads as zeroes. */
  ghost predicate ShowsZeroes(m0: Memory, m: Memory, files: map<nat, seq<byte>>, s: nat, base: nat, length: nat, flags: nat, keep: bool) {
    && s in m0.spaces && s in m.spaces
    && forall q: nat {:trigger EntryOf(m, s, q)} :: base <= q < base + length ==>
         && At(m.spaces[s].ranges, q) == Some(Mapping(Anonymous, flags, None))
         && StaysResident(m0, m, files, s, base, length, flags, keep, q)
         && (!Present(EntryOf(m, s, q)) ==> FileBytes(View(m, files, s, q), [], 0))
  }

  /** Nothing is mapped in the window, and nothing resident. */
  ghost predicate ShowsNothing(m: Memory, files: map<nat, seq<byte>>, s: nat, base: nat, length: nat) {
    && s in m.spaces
    && forall q: nat {:trigger EntryOf(m, s, q)} :: base <= q < base + length ==>
         At(m.spaces[s].ranges, q) == None && !Present(EntryOf(m, s, q)) && View(m, files, s, q) == None
  }

  /** The pages from `lo` to `hi` have these flags, and nothing else has changed about any mapping. */
  ghost predicate NewFlags(rs: seq<MappedRange>, rs': seq<MappedRange>, lo: nat, hi: nat, flags: nat) {
    forall a: nat :: At(rs', a) ==
      if lo <= a < hi && At(rs, a).Some? then Some(Mapping(At(rs, a).value.kind, flags, At(rs, a).value.file)) else At(rs, a)
  }

  lemma ProtectedFlags(m: Memory, p: Places, s: nat, lo: nat, hi: nat, flags: nat)
    requires Strict(m, p) && s in m.spaces
    ensures NewFlags(m.spaces[s].ranges, ProtectList(m.spaces[s].ranges, m.freshId, lo, hi, flags).rs, lo, FirstHole(m.spaces[s].ranges, lo, hi), flags)
  {
    var rs := m.spaces[s].ranges;
    assert SpaceInv(m, p, s);
    ProtectStops(rs, m.freshId, lo, hi, flags);
    forall a: nat
      ensures At(ProtectList(rs, m.freshId, lo, hi, flags).rs, a) ==
              if lo <= a < FirstHole(rs, lo, hi) && At(rs, a).Some? then Some(Mapping(At(rs, a).value.kind, flags, At(rs, a).value.file)) else At(rs, a)
    {
      ProtectAt(rs, m.freshId, lo, hi, flags, a);
    }
  }

  /** mprotect has done what the list function says, kept all frames, and changed no page but a displaced one. */
  ghost predicate Reprotected(m0: Memory, m: Memory, files: map<nat, seq<byte>>, s: nat, base: nat, length: nat, flags: nat) {
    && s in m0.spaces && s in m.spaces
    && var rs := m0.spaces[s].ranges;
       var hole := FirstHole(rs, base, base + length);
       && m.spaces[s].ranges == ProtectList(rs, m0.freshId, base, base + length, flags).rs
       && NewFlags(rs, m.spaces[s].ranges, base, hole, flags)
       && Reflagged(m0, m, s, base, hole, flags)
       && forall q: nat {:trigger View(m, files, s, q)} :: q < LOWER_PAGES && (Present(EntryOf(m0, s, q)) || !Displaced(rs, base, hole, q)) ==>
            View(m, files, s, q) == View(m0, files, s, q)
  }

  /** Every page of the window reads as a fault brings it in, every other page as before. */
  ghost predicate Renewed(m0: Memory, m: Memory, files: map<nat, seq<byte>>, s: nat, lo: nat, hi: nat) {
    && s in m0.spaces && s in m.spaces && m.spaces[s].ranges == m0.spaces[s].ranges
    && forall q: nat {:trigger View(m, files, s, q)} :: q < LOWER_PAGES ==>
         View(m, files, s, q) == if lo <= q < hi then FaultView(files, m0.spaces[s].ranges, q) else View(m0, files, s, q)
  }

  /** The page is resident if it is mapped at all; no process reads anything different. */
  ghost predicate Faulted(m0: Memory, m: Memory, files: map<nat, seq<byte>>, s: nat, page: nat) {
    && s in m0.spaces && s in m.spaces && SameViews(m0, m, files) && EntriesKept(m0, m, s, page)
    && (Present(EntryOf(m, s, page)) <==> Find(m0.spaces[s].ranges, page).Some?)
    && (Present(EntryOf(m0, s, page)) ==> EntryOf(m, s, page) == EntryOf(m0, s, page))
  }

  /** Byte `offset` of one page is `value`, every other byte and every word is as before. */
  ghost predicate Stored(m0: Memory, m: Memory, files: map<nat, seq<byte>>, s: nat, page: nat, offset: nat, value: byte) {
    && s in m0.spaces && m.spaces == m0.spaces && (forall q: nat :: q < LOWER_PAGES ==> EntryOf(m, s, q) == EntryOf(m0, s, q))
    && View(m0, files, s, page).Some? && offset < |View(m0, files, s, page).value| == PAGE_SIZE
    && forall q: nat {:trigger View(m, files, s, q)} :: q < LOWER_PAGES ==>
         View(m, files, s, q) == if q == page then Some(View(m0, files, s, page).value[offset := value]) else View(m0, files, s, q)
  }

  /** The frames of process `s`, and only they, are free now too. */
  ghost predicate Released(m0: Memory, m: Memory, s: nat) {
    && m.spaces == m0.spaces - {s}
    && forall f :: f in m.freelist <==> f in m0.freelist || OnList(m0, f, TablePages(s)) || exists r :: OnList(m0, f, PageList(s, r))
  }

  /** The arguments are ones the system calls accept, of a process that exists. */
  ghost predicate Accepted(m: Memory, op: Op) {
    match op
    case Exec(s) => s !in m.spaces
    case MapAnonymous(s, base, length, flags, keep) => s in m.spaces && 0 < length && base + length <= LOWER_PAGES && flags % 2 == 1
    case MapFile(s, base, length, flags, file, offset) => s in m.spaces && 0 < length && base + length <= LOWER_PAGES && flags % 2 == 1
    case Unmap(s, base, length) => s in m.spaces && base + length <= LOWER_PAGES
    case Mprotect(s, base, length, flags) => s in m.spaces && base + length <= LOWER_PAGES && flags % 2 == 1
    case DontNeed(s, base, length) => s in m.spaces && base + length <= LOWER_PAGES
    case Fault(s, page) => s in m.spaces && page < LOWER_PAGES
    case Store(s, page, offset, value) => s in m.spaces && page < LOWER_PAGES && offset < PAGE_SIZE && Present(EntryOf(m, s, page))
    case Fork(s, child) => s in m.spaces && child !in m.spaces
    case Exit(s) => s in m.spaces
  }

  /** The frames an operation takes from the freelist before it gives any back. */
  ghost function FramesNeeded(m: Memory, op: Op): nat
    requires Accepted(m, op)
  {
    match op
    case Exec(_) => 1
    case Fault(s, page) => FaultNeeds(m, s, page)
    case Fork(s, _) => ForkNeeds(m, s)
    case _ => 0
  }

  ghost predicate Enough(m: Memory, op: Op) {
    Accepted(m, op) ==> FramesNeeded(m, op) <= |m.freelist|
  }

  /** What an operation that is accepted does for its own process. */
  ghost predicate Effect(m0: Memory, m: Memory, p: Places, files: map<nat, seq<byte>>, kernel: seq<PTE>, op: Op) {
    match op
    case Exec(s) =>
      && s in m.spaces && m.spaces[s].ranges == [] && (forall q: nat :: q < LOWER_PAGES ==> View(m, files, s, q) == None)
      && IsTable(m.phys, m.spaces[s].root) && |kernel| == 512 && forall i :: 256 <= i < 512 ==> m.phys[m.spaces[s].root].words[i] == kernel[i]
    case MapAnonymous(s, base, length, flags, keep) =>
      Overwritten(m0, m, files, s, AnonymousArgs(base, length, flags, keep)) && ShowsZeroes(m0, m, files, s, base, length, flags, keep)
    case MapFile(s, base, length, flags, file, offset) =>
      Overwritten(m0, m, files, s, FileArgs(base, length, flags, file, offset)) && ShowsFile(m0, m, files, s, base, length, flags, file, offset)
    case Unmap(s, base, length) => Overwritten(m0, m, files, s, UnmapArgs(base, length)) && ShowsNothing(m, files, s, base, length)
    case Mprotect(s, base, length, flags) => Reprotected(m0, m, files, s, base, length, flags)
    case DontNeed(s, base, length) => Renewed(m0, m, files, s, base, base + length)
    case Fault(s, page) => Faulted(m0, m, files, s, page)
    case Store(s, page, offset, value) => Stored(m0, m, files, s, page, offset, value)
    case Fork(s, child) => IsFork(m0, m, p, s, child) && s in m0.spaces && child in m.spaces && SameKernelHalf(m0, m, s, child)
    case Exit(s) => Released(m0, m, s)
  }

  /** mmap and munmap; requests of no pages, outside the lower half or without PAGE_PRESENT are not made. */
  method Request(m0: Memory, ghost p0: Places, ghost files: map<nat, seq<byte>>, s: nat, args: Args)
    returns (m: Memory, ghost p: Places)
    requires Strict(m0, p0) && Syscalls.Request(args) && s in m0.spaces
    ensures Strict(m, p) && Isolated(m0, m, files, s) && Overwritten(m0, m, files, s, args)
  {
    m, p := Remap(m0, p0, s, args);
    forall z, q: nat | z in m0.spaces && z in m.spaces && z != s && q < LOWER_PAGES
      ensures View(m, files, z, q) == View(m0, files, z, q)
    {
      RequestViews(m0, p0, m, p, s, args, files, z, q);
    }
    forall q: nat | q < LOWER_PAGES
      ensures PageRemapped(m0, m, files, s, args, q)
    {
      RequestPage(m0, p0, m, p, s, args, files, q);
    }
  }

  lemma RequestPage(m0: Memory, p0: Places, m: Memory, p: Places, s: nat, args: Args, files: map<nat, seq<byte>>, q: nat)
    requires Strict(m0, p0) && s in m0.spaces && q < LOWER_PAGES && Syscalls.Request(args)
    requires Finished(m0, p0, m, p, s, args, Ranges.AddRange(m0.spaces[s].ranges, m0.freshId, args))
    ensures PageRemapped(m0, m, files, s, args, q)
  {
    RequestViews(m0, p0, m, p, s, args, files, s, q);
    assert EntryOf(m, s, q) ==
           if args.Inside(q) then WindowWord(m0.spaces[s].ranges, args, q, EntryOf(m0, s, q)) else EntryOf(m0, s, q);
    if Present(EntryOf(m, s, q)) {
      SameContents(m0, p0, m, p, s, q);
    }
  }

  /** What the word of a page of the window says about the range it was in. */
  lemma WindowResident(m0: Memory, p0: Places, m: Memory, files: map<nat, seq<byte>>, s: nat, args: Args, q: nat)
    requires Strict(m0, p0) && s in m0.spaces && s in m.spaces && args.Inside(q) && q < LOWER_PAGES && args.kind != NoRange
    requires PageRemapped(m0, m, files, s, args, q) && (args.keep ==> args.kind == Anonymous)
    ensures args.flags % 2 == 1 ==> StaysResident(m0, m, files, s, args.base, args.length, args.flags, args.keep, q)
  {
    FindMember(m0.spaces[s].ranges, q);
    if Find(m0.spaces[s].ranges, q).None? {
      Unmapped(m0, p0, s, q);
    }
  }

  lemma MapsFile(m0: Memory, p0: Places, m: Memory, files: map<nat, seq<byte>>, s: nat, base: nat, length: nat, flags: nat, file: nat, offset: nat)
    requires Strict(m0, p0) && Overwritten(m0, m, files, s, FileArgs(base, length, flags, file, offset))
    requires 0 < length && base + length <= LOWER_PAGES && flags % 2 == 1
    ensures ShowsFile(m0, m, files, s, base, length, flags, file, offset)
  {
    var rs, args := m0.spaces[s].ranges, FileArgs(base, length, flags, file, offset);
    assert SpaceInv(m0, p0, s);
    forall q: nat | base <= q < base + length
      ensures At(m.spaces[s].ranges, q) == Some(Mapping(File, flags, Some(file)))
      ensures StaysResident(m0, m, files, s, base, length, flags, false, q)
      ensures !Present(EntryOf(m, s, q)) && file in files ==> FileBytes(View(m, files, s, q), files[file], offset + (q - base) * 0x1000)
    {
      assert PageRemapped(m0, m, files, s, args, q);
      WindowResident(m0, p0, m, files, s, args, q);
      FileInside(rs, m0.freshId, base, length, flags, file, offset, q);
    }
  }

  /** Page `q` of the window was resident, and its range reaches beyond the window. */
  ghost predicate Straddled(m0: Memory, s: nat, base: nat, length: nat, q: nat)
    requires s in m0.spaces
  {
    Present(EntryOf(m0, s, q)) && exists r :: r in m0.spaces[s].ranges && r.base <= q < r.base + r.length && (r.base < base || base + length < r.base + r.length)
  }

  /** So a new mapping shows its file except where such a page shows other bytes; it still shows those. */
  lemma FileShown(m0: Memory, p0: Places, m: Memory, files: map<nat, seq<byte>>, s: nat, base: nat, length: nat, flags: nat, file: nat, offset: nat, q: nat)
    requires Strict(m0, p0) && Overwritten(m0, m, files, s, FileArgs(base, length, flags, file, offset)) && file in files
    requires base <= q < base + length <= LOWER_PAGES && flags % 2 == 1
    ensures Straddled(m0, s, base, length, q) ==> View(m, files, s, q) == View(m0, files, s, q)
    ensures FileBytes(View(m, files, s, q), files[file], offset + (q - base) * 0x1000) <==>
              Straddled(m0, s, base, length, q) ==> FileBytes(View(m0, files, s, q), files[file], offset + (q - base) * 0x1000)
  {
    MapsFile(m0, p0, m, files, s, base, length, flags, file, offset);
    StraddledStays(m0, p0, m, files, s, base, length, flags, false, q);
  }

  lemma StraddledStays(m0: Memory, p0: Places, m: Memory, files: map<nat, seq<byte>>, s: nat, base: nat, length: nat, flags: nat, keep: bool, q: nat)
    requires Strict(m0, p0) && s in m0.spaces && s in m.spaces && StaysResident(m0, m, files, s, base, length, flags, keep, q)
    ensures Straddled(m0, s, base, length, q) ==> Present(EntryOf(m, s, q)) && View(m, files, s, q) == View(m0, files, s, q)
    ensures !keep && Present(EntryOf(m, s, q)) ==> Straddled(m0, s, base, length, q)
  {
    assert SpaceInv(m0, p0, s);
    FindMember(m0.spaces[s].ranges, q);
    if Straddled(m0, s, base, length, q) {
      var r :| r in m0.spaces[s].ranges && r.base <= q < r.base + r.length && (r.base < base || base + length < r.base + r.length);
      FindUnique(m0.spaces[s].ranges, q, r);
    }
  }

  lemma MapsZeroes(m0: Memory, p0: Places, m: Memory, files: map<nat, seq<byte>>, s: nat, base: nat, length: nat, flags: nat, keep: bool)
    requires Strict(m0, p0) && Overwritten(m0, m, files, s, AnonymousArgs(base, length, flags, keep))
    requires 0 < length && base + length <= LOWER_PAGES && flags % 2 == 1
    ensures ShowsZeroes(m0, m, files, s, base, length, flags, keep)
  {
    var args := AnonymousArgs(base, length, flags, keep);
    forall q: nat | base <= q < base + length
      ensures At(m.spaces[s].ranges, q) == Some(Mapping(Anonymous, flags, None))
      ensures StaysResident(m0, m, files, s, base, length, flags, keep, q)
      ensures !Present(EntryOf(m, s, q)) ==> FileBytes(View(m, files, s, q), [], 0)
    {
      assert PageRemapped(m0, m, files, s, args, q);
      WindowResident(m0, p0, m, files, s, args, q);
    }
  }

  /** The same for memory that is mapped at a fixed address. */
  lemma MemoryShown(m0: Memory, p0: Places, m: Memory, files: map<nat, seq<byte>>, s: nat, base: nat, length: nat, flags: nat, q: nat)
    requires Strict(m0, p0) && Overwritten(m0, m, files, s, AnonymousArgs(base, length, flags, false))
    requires base <= q < base + length <= LOWER_PAGES && flags % 2 == 1
    ensures Straddled(m0, s, base, length, q) ==> View(m, files, s, q) == View(m0, files, s, q)
    ensures FileBytes(View(m, files, s, q), [], 0) <==>
              Straddled(m0, s, base, length, q) ==> FileBytes(View(m0, files, s, q), [], 0)
  {
    MapsZeroes(m0, p0, m, files, s, base, length, flags, false);
    StraddledStays(m0, p0, m, files, s, base, length, flags, false, q);
  }

  lemma MapsNothing(m0: Memory, p0: Places, m: Memory, p: Places, files: map<nat, seq<byte>>, s: nat, base: nat, length: nat)
    requires Strict(m0, p0) && Strict(m, p) && Overwritten(m0, m, files, s, UnmapArgs(base, length)) && base + length <= LOWER_PAGES
    ensures ShowsNothing(m, files, s, base, length)
  {
    forall q: nat | base <= q < base + length
      ensures At(m.spaces[s].ranges, q) == None && !Present(EntryOf(m, s, q)) && View(m, files, s, q) == None
    {
      assert PageRemapped(m0, m, files, s, UnmapArgs(base, length), q);
      Unmapped(m, p, s, q);
    }
  }

  method ProtectPages(m0: Memory, ghost p0: Places, ghost files: map<nat, seq<byte>>, s: nat, base: nat, length: nat, flags: nat)
    returns (m: Memory, ghost p: Places)
    requires Strict(m0, p0) && base + length <= LOWER_PAGES && flags % 2 == 1 && s in m0.spaces
    ensures Strict(m, p) && Isolated(m0, m, files, s) && Reprotected(m0, m, files, s, base, length, flags)
  {
    var ok;
    ok, m, p := Syscalls.Mprotect(m0, p0, s, base, length, flags);
    ghost var rs := m0.spaces[s].ranges;
    ProtectedFlags(m0, p0, s, base, base + length, flags);
    forall z, q: nat | z in m0.spaces && q < LOWER_PAGES &&
                       (z != s || Present(EntryOf(m0, s, q)) || !Displaced(rs, base, FirstHole(rs, base, base + length), q))
      ensures View(m, files, z, q) == View(m0, files, z, q)
    {
      ProtectViews(m0, p0, m, p, s, base, base + length, flags, files, z, q);
    }
  }

  method Advise(m0: Memory, ghost p0: Places, ghost files: map<nat, seq<byte>>, s: nat, base: nat, length: nat)
    returns (m: Memory, ghost p: Places)
    requires Strict(m0, p0) && base + length <= LOWER_PAGES && s in m0.spaces
    ensures Strict(m, p) && Isolated(m0, m, files, s) && Renewed(m0, m, files, s, base, base + length)
  {
    m, p := Syscalls.DontNeed(m0, p0, s, base, length);
    forall z, q: nat | z in m0.spaces && z in m.spaces && q < LOWER_PAGES
      ensures View(m, files, z, q) ==
              if z == s && base <= q < base + length then FaultView(files, m0.spaces[s].ranges, q) else View(m0, files, z, q)
    {
      DontNeedViews(m0, p0, m, p, s, base, length, files, z, q);
    }
  }

  method TakeFault(m0: Memory, ghost p0: Places, files: map<nat, seq<byte>>, s: nat, page: nat)
    returns (ok: bool, m: Memory, ghost p: Places)
    requires Strict(m0, p0) && s in m0.spaces && page < LOWER_PAGES
    ensures ok <==> FaultNeeds(m0, s, page) <= |m0.freelist|
    ensures ok ==> Strict(m, p) && Isolated(m0, m, files, s) && Faulted(m0, m, files, s, page)
    ensures !ok ==> m.freelist == []
  {
    var r;
    r, m, p := HandlePageFault(m0, p0, files, s, page);
    ok := !r.OutOfMemory?;
    if Find(m0.spaces[s].ranges, page).None? {
      Unmapped(m0, p0, s, page);
    }
  }

  method Create(m0: Memory, ghost p0: Places, ghost files: map<nat, seq<byte>>, c: nat, words: seq<PTE>)
    returns (ok: bool, m: Memory, ghost p: Places)
    requires Strict(m0, p0) && |words| == ENTRIES && c !in m0.spaces
    ensures ok ==> Strict(m, p) && Isolated(m0, m, files, c) && c in m.spaces && m.spaces[c].ranges == []
    ensures ok ==> forall q: nat :: q < LOWER_PAGES ==> View(m, files, c, q) == None
    ensures ok ==> IsTable(m.phys, m.spaces[c].root) && forall i :: 256 <= i < 512 ==> m.phys[m.spaces[c].root].words[i] == words[i]
    ensures ok <==> m0.freelist != []
    ensures !ok ==> m.freelist == []
  {
    if m0.freelist == [] {
      return false, m0, p0;
    }
    m, p := NewPagemap(m0, p0, words, c);
    UntouchedViews(m0, m, files, c);
    return true, m, p;
  }

  method Write(m0: Memory, ghost p0: Places, ghost files: map<nat, seq<byte>>, s: nat, page: nat, offset: nat, value: byte) returns (m: Memory)
    requires Strict(m0, p0) && s in m0.spaces && page < LOWER_PAGES && offset < PAGE_SIZE && Present(EntryOf(m0, s, page))
    ensures Strict(m, p0) && Isolated(m0, m, files, s) && Stored(m0, m, files, s, page, offset, value)
  {
    m := Syscalls.Store(m0, p0, s, page, offset, value);
  }

  method ForkOff(m0: Memory, ghost p0: Places, ghost files: map<nat, seq<byte>>, s: nat, child: nat) returns (ok: bool, m: Memory, ghost p: Places)
    requires Strict(m0, p0) && s in m0.spaces && child !in m0.spaces
    ensures ok <==> ForkNeeds(m0, s) <= |m0.freelist|
    ensures ok ==> Strict(m, p) && Isolated(m0, m, files, s) && IsFork(m0, m, p, s, child) && child in m.spaces && SameKernelHalf(m0, m, s, child)
    ensures !ok ==> m.freelist == []
  {
    ok, m, p := ForkPagemap(m0, p0, s, child);
    if ok {
      UntouchedViews(m0, m, files, child);
    }
  }

  method Leave(m0: Memory, ghost p0: Places, ghost files: map<nat, seq<byte>>, s: nat) returns (m: Memory, ghost p: Places)
    requires Strict(m0, p0) && s in m0.spaces
    ensures Strict(m, p) && Isolated(m0, m, files, s) && Released(m0, m, s)
  {
    m, p := DestroyPagemap(m0, p0, s);
    forall f
      ensures f in m.freelist <==> f in m0.freelist || OnList(m0, f, TablePages(s)) || exists r :: OnList(m0, f, PageList(s, r))
    {
      OwnedIsListed(m0, p0, s, f);
    }
  }

  lemma OwnedIsListed(m: Memory, p: Places, s: nat, f: nat)
    requires Strict(m, p)
    ensures Owned(p, s, f) <==> OnList(m, f, TablePages(s)) || exists r :: OnList(m, f, PageList(s, r))
  {
    ListedIsFrame(m, p, f, TablePages(s));
    forall r
      ensures OnList(m, f, PageList(s, r)) ==> f in m.info
    {
      ListedIsFrame(m, p, f, PageList(s, r));
    }
    if f in m.info {
      forall o
        ensures OnList(m, f, o) <==>
                match p[f] case Free => o == Freelist case Table(z, _, _) => o == TablePages(z) case Data(z, r) => o == PageList(z, r)
      {
        ListMeansPlace(m, p, f, o);
      }
      assert p[f].Data? ==> OnList(m, f, PageList(p[f].space, p[f].range));
    }
  }

  lemma UntouchedViews(m0: Memory, m: Memory, files: map<nat, seq<byte>>, c: nat)
    requires Untouched(m0, m, c)
    ensures Isolated(m0, m, files, c)
    ensures forall z, q: nat :: z in m0.spaces && q < LOWER_PAGES ==> View(m, files, z, q) == View(m0, files, z, q)
  {
    forall z, q: nat | z in m0.spaces && q < LOWER_PAGES
      ensures View(m, files, z, q) == View(m0, files, z, q)
    {
      assert SamePage(m0, m, z, q);
    }
  }

  predicate OnRanges(op: Op) {
    op.MapAnonymous? || op.MapFile? || op.Unmap? || op.Mprotect? || op.DontNeed?
  }

  /** The operations on the ranges of a process, which take no frames. */
  method PerformOnRanges(m0: Memory, ghost p0: Places, ghost files: map<nat, seq<byte>>, ghost kernel: seq<PTE>, op: Op) returns (m: Memory, ghost p: Places)
    requires Strict(m0, p0) && OnRanges(op)
    ensures Strict(m, p) && Isolated(m0, m, files, op.s)
    ensures if Accepted(m0, op) then Effect(m0, m, p, files, kernel, op) else m == m0
  {
    m, p := m0, p0;
    match op
    case MapAnonymous(s, base, length, flags, keep) =>
      if s in m0.spaces && 0 < length && base + length <= LOWER_PAGES && flags % 2 == 1 {
        m, p := Request(m0, p0, files, s, AnonymousArgs(base, length, flags, keep));
        MapsZeroes(m0, p0, m, files, s, base, length, flags, keep);
      }
    case MapFile(s, base, length, flags, file, offset) =>
      if s in m0.spaces && 0 < length && base + length <= LOWER_PAGES && flags % 2 == 1 {
        m, p := Request(m0, p0, files, s, FileArgs(base, length, flags, file, offset));
        MapsFile(m0, p0, m, files, s, base, length, flags, file, offset);
      }
    case Unmap(s, base, length) =>
      if s in m0.spaces && base + length <= LOWER_PAGES {
        m, p := Request(m0, p0, files, s, UnmapArgs(base, length));
        MapsNothing(m0, p0, m, p, files, s, base, length);
      }
    case Mprotect(s, base, length, flags) =>
      if s in m0.spaces && base + length <= LOWER_PAGES && flags % 2 == 1 {
        m, p := ProtectPages(m0, p0, files, s, base, length, flags);
      }
    case DontNeed(s, base, length) =>
      if s in m0.spaces && base + length <= LOWER_PAGES {
        m, p := Advise(m0, p0, files, s, base, length);
      }
  }

  /**
    One operation. It is ignored when its process does not exist or its arguments are ones the
    system calls refuse; `ok` is false when the kernel panics, exactly when it has too few frames.
   */
  method Perform(m0: Memory, ghost p0: Places, files: map<nat, seq<byte>>, kernel: seq<PTE>, op: Op)
    returns (ok: bool, m: Memory, ghost p: Places)
    requires Strict(m0, p0) && |kernel| == ENTRIES
    ensures ok ==> Strict(m, p) && Isolated(m0, m, files, op.s)
    ensures ok ==> if Accepted(m0, op) then Effect(m0, m, p, files, kernel, op) else m == m0
    ensures ok <==> Enough(m0, op)
    ensures !ok ==> m.freelist == []
  {
    ok, m, p := true, m0, p0;
    match op
    case Exec(s) =>
      if s !in m0.spaces {
        ok, m, p := Create(m0, p0, files, s, kernel);
      }
    case Fault(s, page) =>
      if s in m0.spaces && page < LOWER_PAGES {
        ok, m, p := TakeFault(m0, p0, files, s, page);
      }
    case Store(s, page, offset, value) =>
      if s in m0.spaces && page < LOWER_PAGES && offset < PAGE_SIZE && Present(EntryOf(m0, s, page)) {
        m := Write(m0, p0, files, s, page, offset, value);
      }
    case Fork(s, child) =>
      if s in m0.spaces && child !in m0.spaces {
        ok, m, p := ForkOff(m0, p0, files, s, child);
      }
    case Exit(s) =>
      if s in m0.spaces {
        m, p := Leave(m0, p0, files, s);
      }
    case _ => m, p := PerformOnRanges(m0, p0, files, kernel, op);
  }

  /** The freshly initialised allocator: every usable frame is free and there is no process. */
  function Boot(frames: seq<nat>): Memory {
    Memory(frames, map f | f in frames :: PageInfo(true, 0), map f | f in frames :: Bytes(ZeroPage()), map[], 0)
  }

  lemma BootOk(frames: seq<nat>)
    requires NoDup(frames)
    ensures Strict(Boot(frames), map f | f in frames :: Free)
  {
    var m, p: Places := Boot(frames), map f | f in frames :: Free;
    forall f
      ensures FreeIff(m.freelist, p, f) && FlagIff(m.info, p, f)
    {
    }
    assert KeysOk(m, p);
    assert FlatInv(m, p);
  }

  /** A state of a run. */
  datatype Moment = Moment(memory: Memory, places: Places)

  ghost predicate Stepped(a: Moment, b: Moment, files: map<nat, seq<byte>>, kernel: seq<PTE>, op: Op) {
    && Strict(b.memory, b.places) && Isolated(a.memory, b.memory, files, op.s) && Enough(a.memory, op)
    && if Accepted(a.memory, op) then Effect(a.memory, b.memory, b.places, files, kernel, op) else b.memory == a.memory
  }

  /** The states of a run that has performed the first operations, one state more than operations. */
  ghost predicate Traced(trace: seq<Moment>, files: map<nat, seq<byte>>, kernel: seq<PTE>, ops: seq<Op>) {
    && 0 < |trace| <= |ops| + 1
    && forall i: nat {:trigger Stepped(trace[i], trace[i + 1], files, kernel, ops[i])} :: i < |trace| - 1 ==>
         Stepped(trace[i], trace[i + 1], files, kernel, ops[i])
  }

  lemma TraceNext(trace: seq<Moment>, files: map<nat, seq<byte>>, kernel: seq<PTE>, ops: seq<Op>, b: Moment)
    requires Traced(trace, files, kernel, ops) && |trace| <= |ops| && Stepped(trace[|trace| - 1], b, files, kernel, ops[|trace| - 1])
    ensures Traced(trace + [b], files, kernel, ops)
  {
    var trace' := trace + [b];
    forall i: nat | i < |trace|
      ensures Stepped(trace'[i], trace'[i + 1], files, kernel, ops[i])
    {
      assert i < |trace| - 1 ==> Stepped(trace[i], trace[i + 1], files, kernel, ops[i]);
    }
  }

  /** No process outside `actors` has noticed anything. */
  ghost predicate Unaware(m0: Memory, m: Memory, files: map<nat, seq<byte>>, actors: set<nat>) {
    && m.info.Keys == m0.info.Keys
    && (forall z {:trigger z in m.spaces} :: z in m0.spaces && z !in actors ==> z in m.spaces)
    && (forall z, q: nat {:trigger View(m, files, z, q)} :: z in m0.spaces && z !in actors && z in m.spaces && q < LOWER_PAGES ==>
          View(m, files, z, q) == View(m0, files, z, q))
  }

  lemma UnawareNext(m0: Memory, m1: Memory, m2: Memory, files: map<nat, seq<byte>>, actors: set<nat>, s: nat)
    requires Unaware(m0, m1, files, actors) && Isolated(m1, m2, files, s)
    ensures Unaware(m0, m2, files, actors + {s})
  {
    forall z, q: nat | z in m0.spaces && z !in actors + {s} && q < LOWER_PAGES && z in m2.spaces
      ensures View(m2, files, z, q) == View(m0, files, z, q)
    {
      assert z in m1.spaces;
      assert View(m1, files, z, q) == View(m0, files, z, q);
    }
  }

  /** The virtual memory manager and the frame allocator, with all pagemaps. */
  class Kernel {
    var freelist: seq<nat>
    var info: map<nat, PageInfo>
    var phys: Phys
    var spaces: map<nat, Space>
    var freshId: nat
    ghost var places: Places

    ghost function State(): Memory
      reads this
    {
      Memory(freelist, info, phys, spaces, freshId)
    }

    ghost predicate Valid()
      reads this
    {
      Strict(State(), places)
    }

    constructor (frames: seq<nat>)
      requires NoDup(frames)
      ensures Valid() && State() == Boot(frames)
    {
      BootOk(frames);
      freelist := frames;
      info := map f | f in frames :: PageInfo(true, 0);
      phys := map f | f in frames :: Bytes(ZeroPage());
      spaces := map[];
      freshId := 0;
      places := map f | f in frames :: Free;
    }

    /**
      Runs the operations; stops early exactly where there are too few frames for the next one. The trace
      goes from state to state as the operations say, the invariant holds in each, and bystanders
      notice nothing.
     */
    method Run(ops: seq<Op>, files: map<nat, seq<byte>>, kernel: seq<PTE>) returns (ok: bool, ghost trace: seq<Moment>)
      requires Valid() && |kernel| == ENTRIES
      modifies this
      ensures Valid() && Traced(trace, files, kernel, ops) && trace[0].memory == old(State()) && trace[|trace| - 1].memory == State()
      ensures ok <==> |trace| == |ops| + 1
      ensures !ok ==> |trace| <= |ops| && !Enough(State(), ops[|trace| - 1])
      ensures Unaware(old(State()), State(), files, Actors(ops))
    {
      trace := [Moment(State(), places)];
      BeginRun(State(), places, files, kernel, ops);
      var i: nat := 0;
      while i < |ops|
        invariant i <= |ops| && Valid() && RunSoFar(trace, old(State()), Moment(State(), places), files, kernel, ops, i)
      {
        var m;
        ghost var p;
        var next := i + 1;
        ghost var now := Moment(State(), places);
        ok, m, p := Perform(Memory(freelist, info, phys, spaces, freshId), places, files, kernel, ops[i]);
        if !ok {
          return;
        }
        RunOn(trace, old(State()), now, Moment(m, p), files, kernel, ops, i, next);
        freelist, info, phys, spaces, freshId, places := m.freelist, m.info, m.phys, m.spaces, m.freshId, p;
        assert State() == m;
        trace := trace + [Moment(m, p)];
        i := next;
      }
      return true, trace;
    }
  }

  /** The first `i` operations have been performed. */
  ghost predicate RunSoFar(trace: seq<Moment>, start: Memory, now: Moment, files: map<nat, seq<byte>>, kernel: seq<PTE>, ops: seq<Op>, i: nat) {
    && Traced(trace, files, kernel, ops) && |trace| == i + 1 && trace[0].memory == start && trace[i] == now
    && Unaware(start, now.memory, files, Actors(ops))
  }

  function Actors(ops: seq<Op>): set<nat> {
    set op | op in ops :: op.s
  }

  lemma BeginRun(m: Memory, p: Places, files: map<nat, seq<byte>>, kernel: seq<PTE>, ops: seq<Op>)
    ensures RunSoFar([Moment(m, p)], m, Moment(m, p), files, kernel, ops, 0)
  {
  }

  lemma RunOn(trace: seq<Moment>, start: Memory, now: Moment, after: Moment, files: map<nat, seq<byte>>, kernel: seq<PTE>, ops: seq<Op>, i: nat, next: nat)
    requires RunSoFar(trace, start, now, files, kernel, ops, i) && i < |ops| && next == i + 1 && Stepped(now, after, files, kernel, ops[i])
    ensures RunSoFar(trace + [after], start, after, files, kernel, ops, next)
  {
    TraceNext(trace, files, kernel, ops, after);
    UnawareNext(start, now.memory, after.memory, files, Actors(ops), ops[i].s);
    assert ops[i] in ops;
    assert Actors(ops) + {ops[i].s} == Actors(ops);
  }

  /** At any point of any run, every frame of the machine leads find_page to its own structure. */
  lemma RunFinds(es: seq<Pmm.Entry>, m: Memory, files: map<nat, seq<byte>>, actors: set<nat>, f: nat)
    requires Pmm.Disjoint(es) && forall i :: 0 <= i < |es| ==> Pmm.FrameCount(es[i].base, es[i].length) > 0
    requires Unaware(Boot(Pmm.AllFrames(Pmm.RegionsOf(es))), m, files, actors) && f in m.info
    ensures var rs := Pmm.RegionsOf(es);
            && NoDup(Pmm.AllFrames(rs)) && Pmm.Found(rs, f * PAGE_SIZE, 0).Some?
            && var ref := Pmm.Found(rs, f * PAGE_SIZE, 0).value;
               ref.region < |rs| && ref.index < |Pmm.FramesOf(rs[ref.region])| && Pmm.FramesOf(rs[ref.region])[ref.index] == f
  {
    Pmm.InitialFrames(es, f);
  }

  /** At any point of any run: each of the frames the machine started with is on exactly one list. */
  lemma RunConserves(frames: seq<nat>, m: Memory, p: Places, files: map<nat, seq<byte>>, actors: set<nat>, f: nat)
    requires Strict(m, p) && Unaware(Boot(frames), m, files, actors)
    ensures f in frames <==> exists o :: OnList(m, f, o)
    ensures forall o, o' :: OnList(m, f, o) && OnList(m, f, o') ==> o == o'
  {
    if f in m.info {
      OneOwner(m, p, f);
    } else {
      forall o
        ensures !OnList(m, f, o)
      {
        ListedIsFrame(m, p, f, o);
      }
    }
  }

  lemma ListedIsFrame(m: Memory, p: Places, f: nat, o: Owner)
    requires Strict(m, p)
    ensures OnList(m, f, o) ==> f in m.info
  {
    match o
    case Freelist => assert FreeIff(m.freelist, p, f);
    case TablePages(s) =>
      if s in m.spaces {
        assert SpaceInv(m, p, s);
      }
    case PageList(s, r) =>
      if s in m.spaces && r in m.spaces[s].lists {
        assert SpaceInv(m, p, s);
        assert PageListOk(m.spaces[s].lists[r], p, s, r);
      }
  }

  /** Two states with the same processes have the same free frames: an exit gives back all that a fork took. */
  lemma SameFree(m: Memory, p: Places, m': Memory, p': Places, f: nat)
    requires Strict(m, p) && Strict(m', p') && m'.info.Keys == m.info.Keys && m'.spaces == m.spaces
    ensures f in m'.freelist <==> f in m.freelist
  {
    ListedIsFrame(m, p, f, Freelist);
    ListedIsFrame(m', p', f, Freelist);
    if f in m.info {
      OneOwner(m, p, f);
      OneOwner(m', p', f);
      var o :| OnList(m, f, o);
      var o' :| OnList(m', f, o');
      assert !o.Freelist? ==> OnList(m', f, o);
      assert !o'.Freelist? ==> OnList(m, f, o');
    }
  }

  method ForkThenExit(m0: Memory, ghost p0: Places, s: nat, c: nat) returns (ok: bool, m: Memory, ghost p: Places)
    requires Strict(m0, p0) && s in m0.spaces && c !in m0.spaces
    ensures ok <==> ForkNeeds(m0, s) <= |m0.freelist|
    ensures ok ==> Strict(m, p) && m.spaces == m0.spaces && forall f :: f in m.freelist <==> f in m0.freelist
  {
    ok, m, p := ForkPagemap(m0, p0, s, c);
    if ok {
      m, p := DestroyPagemap(m, p, c);
      assert m.spaces == m0.spaces;
      forall f
        ensures f in m.freelist <==> f in m0.freelist
      {
        SameFree(m0, p0, m, p, f);
      }
    }
  }
}
