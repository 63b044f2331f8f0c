/** The memory system calls on one pagemap, and what every process reads afterwards. */
module Syscalls {
  import opened Common
  import opened Ranges
  import opened PageTable
  import opened Memory
  import opened Invalidate
  import opened Vmm
  import opened RangeOps
  import opened AddRangeOps
  import opened Protect

  // ---------------------------------------------------------------- requests

  /** A request of mmap, brk or munmap: either no range is ever updated in place, or only anonymous ones are. */
  ghost predicate Request(args: Args) {
    && OpArgs(args) && args.resolve
    && (args.keep ==> args.kind == Anonymous)
  }

  /** The right part of a file range that is cut in two after it has lost its front. */
  predicate LosesOffset(rs: seq<MappedRange>, args: Args, q: nat) {
    && q >= args.End() && Find(rs, q).Some?
    && Classify(Find(rs, q).value, args) == Split && !SplitSafe(Find(rs, q).value)
  }

  lemma RequestKeepsFile(rs: seq<MappedRange>, args: Args)
    requires AllWellFormed(rs) && Request(args)
    ensures KeepsFile(rs, args)
  {
  }

  /** mmap, munmap and brk: the mapping is overwritten on exactly the window, frames follow. */
  method Remap(m0: Memory, ghost p0: Places, s: nat, args: Args) returns (m: Memory, ghost p: Places)
    requires Strict(m0, p0) && s in m0.spaces && Request(args)
    ensures Finished(m0, p0, m, p, s, args, Ranges.AddRange(m0.spaces[s].ranges, m0.freshId, args))
    ensures forall a: nat :: At(m.spaces[s].ranges, a) == if args.Inside(a) then Requested(args) else At(m0.spaces[s].ranges, a)
  {
    m, p := AddRangeOps.AddRange(m0, p0, s, args);
    assert SpaceInv(m0, p0, s);
    RequestKeepsFile(m0.spaces[s].ranges, args);
    forall a: nat
      ensures At(m.spaces[s].ranges, a) == if args.Inside(a) then Requested(args) else At(m0.spaces[s].ranges, a)
    {
      AddRangeOverwrites(m0.spaces[s].ranges, m0.freshId, args, a);
    }
  }

  lemma SameContents(m0: Memory, p0: Places, m: Memory, p: Places, z: nat, q: nat)
    requires Strict(m0, p0) && Strict(m, p) && AllContentsKept(m0, p0, m, p) && z in m0.spaces && z in m.spaces && q < LOWER_PAGES
    requires Present(EntryOf(m0, z, q)) && Present(EntryOf(m, z, q)) && EntryOf(m, z, q).pfn == EntryOf(m0, z, q).pfn
    ensures forall files :: View(m, files, z, q) == View(m0, files, z, q)
  {
    ResidentFacts(m, p, z, q, 0, map[]);
    ResidentFacts(m0, p0, z, q, 0, map[]);
    assert ContentsKept(m0, p0, m, p, EntryOf(m, z, q).pfn);
  }

  lemma SameFaults(files: map<nat, seq<byte>>, rs: seq<MappedRange>, rs': seq<MappedRange>, q: nat)
    requires At(rs', q).Some? <==> At(rs, q).Some?
    requires At(rs, q).Some? ==> At(rs', q).value.file == At(rs, q).value.file
    requires BackingAt(rs', q) == BackingAt(rs, q)
    ensures Find(rs', q).Some? <==> Find(rs, q).Some?
    ensures Find(rs, q).Some? ==> FaultPage(files, Find(rs', q).value, q) == FaultPage(files, Find(rs, q).value, q)
  {
  }

  /**
    After a request no other process reads anything different, and outside the window the process
    itself does not either, except for a page not yet brought in that lost its file offset. After a
    removal nothing can be read inside the window.
   */
  lemma RequestViews(m0: Memory, p0: Places, m: Memory, p: Places, s: nat, args: Args, files: map<nat, seq<byte>>, z: nat, q: nat)
    requires Strict(m0, p0) && s in m0.spaces && z in m0.spaces && q < LOWER_PAGES && Request(args)
    requires Finished(m0, p0, m, p, s, args, Ranges.AddRange(m0.spaces[s].ranges, m0.freshId, args))
    ensures (z != s || (!args.Inside(q) && (Present(EntryOf(m0, s, q)) || !LosesOffset(m0.spaces[s].ranges, args, q)))) ==>
              View(m, files, z, q) == View(m0, files, z, q)
    ensures z == s && args.Inside(q) && args.kind == NoRange ==> View(m, files, z, q) == None
  {
    var rs := m0.spaces[s].ranges;
    assert SpaceInv(m0, p0, s);
    RequestKeepsFile(rs, args);
    AddRangeOverwrites(rs, m0.freshId, args, q);
    assert EntryOf(m, z, q) ==
           if z == s && args.Inside(q) then WindowWord(rs, args, q, EntryOf(m0, z, q)) else EntryOf(m0, z, q);
    if z != s || !args.Inside(q) {
      if Present(EntryOf(m0, z, q)) {
        SameContents(m0, p0, m, p, z, q);
      } else if z == s {
        AddRangeBackingAt(rs, m0.freshId, args, q);
        if !LosesOffset(rs, args, q) {
          SameFaults(files, rs, m.spaces[s].ranges, q);
        }
      }
    }
  }

  // ---------------------------------------------------------------- mprotect

  /** The words of pages lo to hi keep their frames under the new flags; no other word changes. */
  ghost predicate Reflagged(m0: Memory, m: Memory, s: nat, lo: nat, hi: nat, flags: nat) {
    && m.spaces.Keys == m0.spaces.Keys
    && forall z, q: nat {:trigger EntryOf(m, z, q)} :: z in m0.spaces && q < LOWER_PAGES ==>
         EntryOf(m, z, q) ==
         if z == s && lo <= q < hi && Present(EntryOf(m0, z, q)) then PTE(EntryOf(m0, z, q).pfn, flags) else EntryOf(m0, z, q)
  }

  /** The state after mprotect has gone from `lo` to `hi`, apart from its list of ranges. */
  ghost predicate Protecting(m0: Memory, p0: Places, m: Memory, p: Places, s: nat, lo: nat, hi: nat, flags: nat) {
    && Strict(m, p) && s in m0.spaces && s in m.spaces
    && Reflagged(m0, m, s, lo, hi, flags) && AllContentsKept(m0, p0, m, p) && OthersKept(m0, m, s)
  }

  lemma ProtectStart(m: Memory, p: Places, s: nat, lo: nat, flags: nat)
    requires Strict(m, p) && s in m.spaces
    ensures Protecting(m, p, m, p, s, lo, lo, flags)
  {
    forall f
      ensures ContentsKept(m, p, m, p, f)
    {
      if f in p && p[f].Data? {
        assert DataOk(m, p, f);
      }
    }
  }

  lemma ProtectTurn(m0: Memory, p0: Places, m1: Memory, p1: Places, m: Memory, p: Places, s: nat, lo: nat, mid: nat, hi: nat,
                    flags: nat, r: MappedRange)
    requires Protecting(m0, p0, m1, p1, s, lo, mid, flags) && Strict(m1, p1) && lo <= mid < hi
    requires r in m1.spaces[s].ranges && r.Covers(mid)
    requires var args := ProtectArgs(r, mid, hi, flags);
             Finished(m1, p1, m, p, s, args, Ranges.AddRange(m1.spaces[s].ranges, m1.freshId, args))
    ensures Protecting(m0, p0, m, p, s, lo, ProtectArgs(r, mid, hi, flags).End(), flags)
  {
    var args, rs := ProtectArgs(r, mid, hi, flags), m1.spaces[s].ranges;
    assert SpaceInv(m1, p1, s);
    ContentsTrans(m0, p0, m1, p1, m, p);
    WindowAlone(rs, m1.freshId, r, mid, hi, flags, r);
    forall z, q: nat | z in m0.spaces && q < LOWER_PAGES
      ensures EntryOf(m, z, q) ==
              if z == s && lo <= q < args.End() && Present(EntryOf(m0, z, q)) then PTE(EntryOf(m0, z, q).pfn, flags) else EntryOf(m0, z, q)
    {
      assert EntryOf(m1, z, q) ==
             if z == s && lo <= q < mid && Present(EntryOf(m0, z, q)) then PTE(EntryOf(m0, z, q).pfn, flags) else EntryOf(m0, z, q);
      if args.Inside(q) {
        FindUnique(rs, q, r);
      }
    }
    forall z | z in m0.spaces && z != s
      ensures m.spaces[z] == m0.spaces[z]
    {
      assert m1.spaces[z] == m0.spaces[z];
    }
  }

  lemma CachedProtecting(m0: Memory, p0: Places, m1: Memory, p1: Places, m: Memory, s: nat, lo: nat, mid: nat, flags: nat)
    requires Protecting(m0, p0, m1, p1, s, lo, mid, flags) && Strict(m, p1) && s in m.spaces
    requires m == m1.(spaces := m1.spaces[s := m1.spaces[s].(cached := m.spaces[s].cached)])
    ensures Protecting(m0, p0, m, p1, s, lo, mid, flags)
  {
    forall z, q: nat | z in m0.spaces && q < LOWER_PAGES
      ensures EntryOf(m, z, q) == EntryOf(m1, z, q)
    {
    }
    forall f
      ensures ContentsKept(m0, p0, m, p1, f)
    {
      assert ContentsKept(m0, p0, m1, p1, f);
    }
    forall z | z in m0.spaces && z != s
      ensures m.spaces[z] == m0.spaces[z]
    {
      assert m1.spaces[z] == m0.spaces[z];
    }
  }

  lemma ProtectRequest(m: Memory, p: Places, s: nat, r: MappedRange, lo: nat, hi: nat, flags: nat)
    requires Strict(m, p) && s in m.spaces && r in m.spaces[s].ranges && r.Covers(lo) && lo < hi <= LOWER_PAGES && flags % 2 == 1
    ensures OpArgs(ProtectArgs(r, lo, hi, flags))
  {
    assert SpaceInv(m, p, s);
    assert RangeOk(r) && r.WellFormed();
  }

  /** One turn of the mprotect loop, for a range that was found at page `current`. */
  method ProtectOne(ghost m0: Memory, ghost p0: Places, m1: Memory, ghost p1: Places, s: nat, ghost lo: nat, current: nat, end: nat,
                    flags: nat, r: MappedRange)
    returns (rangeLen: nat, m: Memory, ghost p: Places)
    requires Protecting(m0, p0, m1, p1, s, lo, current, flags) && lo <= current < end <= LOWER_PAGES && flags % 2 == 1
    requires r in m1.spaces[s].ranges && r.Covers(current)
    ensures current + rangeLen == ProtectArgs(r, current, end, flags).End() && 0 < rangeLen <= end - current
    ensures Protecting(m0, p0, m, p, s, lo, current + rangeLen, flags)
    ensures Added(m.spaces[s].ranges, m.freshId) == Ranges.AddRange(m1.spaces[s].ranges, m1.freshId, ProtectArgs(r, current, end, flags))
  {
    rangeLen := r.End() - current;
    if current + rangeLen > end {
      rangeLen := end - current;
    }
    var offset := r.fileOffset + (current - r.base) * PAGE_SIZE;
    var phy := if r.phyBase != 0 then r.phyBase + (current - r.base) * PAGE_SIZE else 0;
    var args := Args(current, rangeLen, flags, r.kind, phy, r.file, offset, true, true, true);
    assert args == ProtectArgs(r, current, end, flags);
    ProtectRequest(m1, p1, s, r, current, end, flags);
    m, p := AddRangeOps.AddRange(m1, p1, s, args);
    ProtectTurn(m0, p0, m1, p1, m, p, s, lo, current, end, flags, r);
  }

  lemma SpaceStops(m: Memory, p: Places, s: nat, lo: nat, hi: nat, flags: nat)
    requires Strict(m, p) && s in m.spaces
    ensures ProtectList(m.spaces[s].ranges, m.freshId, lo, hi, flags).stop == FirstHole(m.spaces[s].ranges, lo, hi)
  {
    assert SpaceInv(m, p, s);
    ProtectStops(m.spaces[s].ranges, m.freshId, lo, hi, flags);
  }

  /** What is left of mprotect from page `current` on, in state `m`. */
  ghost function ProtectRest(m: Memory, s: nat, current: nat, end: nat, flags: nat): Protected
    requires s in m.spaces
  {
    ProtectList(m.spaces[s].ranges, m.freshId, current, end, flags)
  }

  /** The body of the mprotect loop: the range at `current` is looked up and handled, unless there is none. */
  method ProtectNext(ghost m0: Memory, ghost p0: Places, m1: Memory, ghost p1: Places, s: nat, ghost lo: nat, current: nat, end: nat, flags: nat)
    returns (next: nat, m: Memory, ghost p: Places)
    requires Protecting(m0, p0, m1, p1, s, lo, current, flags) && lo <= current < end <= LOWER_PAGES && flags % 2 == 1
    ensures current <= next <= end && Protecting(m0, p0, m, p, s, lo, next, flags)
    ensures ProtectRest(m, s, next, end, flags) == ProtectRest(m1, s, current, end, flags)
    ensures next == current ==> ProtectRest(m, s, next, end, flags) == Protected(m.spaces[s].ranges, m.freshId, next)
  {
    var existing;
    existing, m := AddrToRange(m1, p1, s, current);
    p, next := p1, current;
    CachedProtecting(m0, p0, m1, p1, m, s, lo, current, flags);
    FindMember(m.spaces[s].ranges, current);
    if existing.Some? {
      var rangeLen;
      rangeLen, m, p := ProtectOne(m0, p0, m, p, s, lo, current, end, flags, existing.value);
      next := current + rangeLen;
    }
  }

  /** syscall_mprotect; `ok` is false for -ENOMEM, at a hole. */
  method Mprotect(m0: Memory, ghost p0: Places, s: nat, lo: nat, length: nat, flags: nat)
    returns (ok: bool, m: Memory, ghost p: Places)
    requires Strict(m0, p0) && s in m0.spaces && lo + length <= LOWER_PAGES && flags % 2 == 1
    ensures Protecting(m0, p0, m, p, s, lo, FirstHole(m0.spaces[s].ranges, lo, lo + length), flags)
    ensures var t := ProtectList(m0.spaces[s].ranges, m0.freshId, lo, lo + length, flags);
            m.spaces[s].ranges == t.rs && m.freshId == t.freshId
    ensures ok <==> FirstHole(m0.spaces[s].ranges, lo, lo + length) == lo + length
  {
    m, p := m0, p0;
    var current, end := lo, lo + length;
    ProtectStart(m0, p0, s, lo, flags);
    SpaceStops(m0, p0, s, lo, end, flags);
    while current < end
      invariant lo <= current <= end && Protecting(m0, p0, m, p, s, lo, current, flags)
      invariant ProtectRest(m, s, current, end, flags) == ProtectRest(m0, s, lo, end, flags)
    {
      var next;
      next, m, p := ProtectNext(m0, p0, m, p, s, lo, current, end, flags);
      if next == current {
        return false, m, p;
      }
      current := next;
    }
    return true, m, p;
  }

  /** mprotect changes nothing that any process reads, except pages not yet brought in that lost their file offset. */
  lemma ProtectViews(m0: Memory, p0: Places, m: Memory, p: Places, s: nat, lo: nat, hi: nat, flags: nat,
                     files: map<nat, seq<byte>>, z: nat, q: nat)
    requires Strict(m0, p0) && s in m0.spaces && z in m0.spaces && q < LOWER_PAGES && flags % 2 == 1
    requires Protecting(m0, p0, m, p, s, lo, FirstHole(m0.spaces[s].ranges, lo, hi), flags)
    requires m.spaces[s].ranges == ProtectList(m0.spaces[s].ranges, m0.freshId, lo, hi, flags).rs
    requires z != s || Present(EntryOf(m0, s, q)) || !Displaced(m0.spaces[s].ranges, lo, FirstHole(m0.spaces[s].ranges, lo, hi), q)
    ensures View(m, files, z, q) == View(m0, files, z, q)
  {
    var rs := m0.spaces[s].ranges;
    assert SpaceInv(m0, p0, s);
    var e := EntryOf(m, z, q);
    if Present(EntryOf(m0, z, q)) {
      SameContents(m0, p0, m, p, z, q);
    } else if z == s {
      ProtectAt(rs, m0.freshId, lo, hi, flags, q);
      ProtectBacking(rs, m0.freshId, lo, hi, flags, q);
      SameFaults(files, rs, m.spaces[s].ranges, q);
    }
  }

  // ---------------------------------------------------------------- madvise

  /** MADV_DONTNEED and MADV_FREE: every page of the window goes back to what a fault brings in. */
  method DontNeed(m0: Memory, ghost p0: Places, s: nat, base: nat, length: nat) returns (m: Memory, ghost p: Places)
    requires Strict(m0, p0) && s in m0.spaces && base + length <= LOWER_PAGES
    ensures Strict(m, p) && Invalidated(m0, p0, m, p, s, base, base + length, None)
  {
    StrictAnywhere(m0, p0, s);
    m, p := InvalidatePages(m0, p0, s, base, length, None, map[]);
    assert Outside(map[], base, base + length) == map[];
    StrictAnywhere(m, p, s);
  }

  lemma DontNeedViews(m0: Memory, p0: Places, m: Memory, p: Places, s: nat, base: nat, length: nat,
                      files: map<nat, seq<byte>>, z: nat, q: nat)
    requires Strict(m0, p0) && Strict(m, p) && Invalidated(m0, p0, m, p, s, base, base + length, None)
    requires z in m0.spaces && q < LOWER_PAGES
    ensures View(m, files, z, q) ==
            if z == s && base <= q < base + length then
              match Find(m0.spaces[s].ranges, q) case Some(r) => Some(FaultPage(files, r, q)) case None => None
            else View(m0, files, z, q)
  {
    assert EntryOf(m, z, q) ==
           if z == s && base <= q < base + length then AfterWord(EntryOf(m0, z, q), None) else EntryOf(m0, z, q);
    if Present(EntryOf(m, z, q)) {
      SameContents(m0, p0, m, p, z, q);
    }
  }

  // ---------------------------------------------------------------- the process writes

  /** A store of the process into one of its resident pages. */
  method Store(m0: Memory, ghost p0: Places, s: nat, page: nat, offset: nat, value: byte) returns (m: Memory)
    requires Strict(m0, p0) && s in m0.spaces && page < LOWER_PAGES && offset < PAGE_SIZE && Present(EntryOf(m0, s, page))
    ensures Strict(m, p0) && m.spaces == m0.spaces && m.freshId == m0.freshId && m.info == m0.info
    ensures forall files :: View(m0, files, s, page).Some? && |View(m0, files, s, page).value| == PAGE_SIZE
    ensures forall files, z, q: nat :: z in m0.spaces && q < LOWER_PAGES ==>
              View(m, files, z, q) ==
              if (z, q) == (s, page) then Some(View(m0, files, s, page).value[offset := value]) else View(m0, files, z, q)
    ensures forall z, q: nat :: z in m0.spaces && q < LOWER_PAGES ==> EntryOf(m, z, q) == EntryOf(m0, z, q)
  {
    ResidentFacts(m0, p0, s, page, 0, map[]);
    var f := EntryOf(m0, s, page).pfn;
    var bytes := m0.phys[f].bytes[offset := value];
    StoreInv(m0, p0, f, bytes);
    m := m0.(phys := m0.phys[f := Bytes(bytes)]);
    forall files, z, q: nat | z in m0.spaces && q < LOWER_PAGES
      ensures View(m, files, z, q) ==
              if (z, q) == (s, page) then Some(View(m0, files, s, page).value[offset := value]) else View(m0, files, z, q)
    {
      StoreEntry(m0, p0, f, bytes, z, q);
      if Present(EntryOf(m0, z, q)) && (z, q) != (s, page) {
        OtherFrame(m0, p0, s, page, z, q, 0, map[]);
      }
    }
    forall z, q: nat | z in m0.spaces && q < LOWER_PAGES
      ensures EntryOf(m, z, q) == EntryOf(m0, z, q)
    {
      StoreEntry(m0, p0, f, bytes, z, q);
    }
  }

  lemma StoreEntry(m: Memory, p: Places, f: nat, bytes: seq<byte>, z: nat, q: nat)
    requires Strict(m, p) && f in p && p[f].Data? && z in m.spaces && q < LOWER_PAGES
    ensures EntryOf(m.(phys := m.phys[f := Bytes(bytes)]), z, q) == EntryOf(m, z, q)
  {
    assert SpaceInv(m, p, z);
    DataWrite(m.phys, p, f, Bytes(bytes), m.spaces[z].root, z, q);
  }

  lemma StoreInv(m: Memory, p: Places, f: nat, bytes: seq<byte>)
    requires Strict(m, p) && f in p && p[f].Data? && |bytes| == PAGE_SIZE
    ensures Strict(m.(phys := m.phys[f := Bytes(bytes)]), p)
  {
    var m' := m.(phys := m.phys[f := Bytes(bytes)]);
    DataWriteTree(m.phys, p, f, Bytes(bytes));
    assert DataOk(m, p, f);
    forall z, q: nat | z in m.spaces && q < LOWER_PAGES
      ensures EntryOk(m', p, z, q, 0, map[])
    {
      assert EntryOk(m, p, z, q, 0, map[]);
      StoreEntry(m, p, f, bytes, z, q);
    }
    forall z | z in m.spaces
      ensures SpaceInv(m', p, z)
    {
      assert SpaceInv(m, p, z);
    }
    forall g | g in p && p[g].Data?
      ensures DataOk(m', p, g)
    {
      assert DataOk(m, p, g);
      StoreEntry(m, p, f, bytes, p[g].space, m.info[g].mappedAddr);
    }
    forall g | g in p
      ensures PlaceOk(m', p[g])
    {
      assert PlaceOk(m, p[g]);
    }
  }
}
