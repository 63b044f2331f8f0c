/**
  The virtual memory manager step by step: frame allocation, page-table walks, page faults and
  invalidation. Every step takes the machine `m0` and leaves the machine `m`.
 */
module Vmm {
  import opened Common
  import opened Ranges
  import opened PageTable
  import opened Memory
  import opened Invalidate
  import opened Allocate

  /** Flags of an intermediate table: PAGE_PRESENT | PAGE_WRITABLE | PAGE_USER. */
  const TABLE_FLAGS: nat := 7

  /** Outcome of a page fault; running out of frames is a kernel panic. */
  datatype Fault = Mapped(pfn: nat) | BadAddress | OutOfMemory

  // ---------------------------------------------------------------- frames

  /** The precondition is the assertion of the source; an empty freelist is a panic. */
  method AllocPage(m0: Memory) returns (f: nat, m: Memory)
    requires m0.freelist != [] && m0.freelist[0] in m0.info && m0.info[m0.freelist[0]].free
    ensures f == m0.freelist[0]
    ensures m == m0.(freelist := m0.freelist[1..], info := m0.info[f := m0.info[f].(free := false)])
  {
    f := m0.freelist[0];
    m := m0.(info := m0.info[f := m0.info[f].(free := false)]);
    m := m.(freelist := m.freelist[1..]);
  }

  /** The precondition is the assertion of the source. */
  method FreePage(m0: Memory, f: nat) returns (m: Memory)
    requires f in m0.info && !m0.info[f].free
    ensures m == m0.(freelist := [f] + m0.freelist, info := m0.info[f := PageInfo(true, 0)])
  {
    m := m0.(info := m0.info[f := m0.info[f].(free := true, mappedAddr := 0)]);
    m := m.(freelist := [f] + m.freelist);
  }

  // ---------------------------------------------------------------- page tables

  /** create_next_page_table: allocates a zeroed table and links it at word `i` of table `t`. */
  method CreateTable(m0: Memory, ghost p0: Places, s: nat, t: nat, i: nat, flags: nat, ghost loose: map<nat, nat>)
    returns (g: nat, m: Memory, ghost p: Places)
    requires Linkable(m0, p0, s, t, i, loose) && flags % 8 == 7
    ensures g == m0.freelist[0] && m == Linked(m0, s, t, i, flags) && p == LinkPlaces(p0, t, i, g)
    ensures Inv(m, p, s, loose) && OnlyTables(m0, p0, m, p) && OthersKept(m0, m, s)
  {
    LinkedInv(m0, p0, s, t, i, flags, loose);
    LinkedKeeps(m0, p0, s, t, i, flags, loose);
    HeadIsFree(m0, p0, s, loose);
    g, m := AllocPage(m0);
    m := m.(spaces := m.spaces[s := m.spaces[s].(tablePages := m.spaces[s].tablePages + [g])]);
    m := m.(phys := m.phys[g := ZeroTable()]);
    m := m.(phys := m.phys[t := Words(m.phys[t].words[i := PTE(g, flags)])]);
    p := LinkPlaces(p0, t, i, g);
  }

  /** The tables that are missing on the way to the word of a page. */
  function Missing(m: Memory, s: nat, page: nat): nat
    requires s in m.spaces
  {
    MissingFrom(m.phys, m.spaces[s].root, page, 4)
  }

  /** The walk has got from the root of pagemap `s` down to `table`, creating the tables that were missing. */
  ghost predicate Walking(m0: Memory, p0: Places, m: Memory, p: Places, s: nat, page: nat, table: nat, level: nat, loose: map<nat, nat>) {
    WalkClauses(m0, p0, m, p, s, page, table, level, loose) == true
  }

  ghost predicate WalkClauses(m0: Memory, p0: Places, m: Memory, p: Places, s: nat, page: nat, table: nat, level: nat, loose: map<nat, nat>) {
    && 1 <= level <= 4 && page < LOWER_PAGES && Inv(m, p, s, loose) && s in m0.spaces && s in m.spaces && m.spaces[s].root == m0.spaces[s].root
    && OnPath(p, m.spaces[s].root, s, page, 4) && OnPath(p, table, s, page, level) && IsTable(m.phys, table)
    && TableFrom(m.phys, m.spaces[s].root, page, 4, level) == Some(table)
    && OnlyTables(m0, p0, m, p) && OthersKept(m0, m, s)
    && |m.freelist| + Missing(m0, s, page) == |m0.freelist| + MissingFrom(m.phys, table, page, level)
    && (|m.freelist| >= |m0.freelist| ==> m == m0 && p == p0)
  }

  lemma WalkDown(m0: Memory, p0: Places, m: Memory, p: Places, s: nat, page: nat, table: nat, level: nat, loose: map<nat, nat>)
    requires Walking(m0, p0, m, p, s, page, table, level, loose) && level > 1
    ensures IsTable(m.phys, table)
    ensures var e := m.phys[table].words[Index(page, level)];
            Present(e) ==> Walking(m0, p0, m, p, s, page, e.pfn, level - 1, loose)
  {
    var e := m.phys[table].words[Index(page, level)];
    if Present(e) {
      LowerIndex(page, level);
      DownStep(m, p, s, m.spaces[s].root, table, page, level, loose);
    }
  }

  /** A missing table is created; those below it will be missing too. */
  method WalkCreate(ghost m0: Memory, ghost p0: Places, m1: Memory, ghost p1: Places, s: nat, page: nat, table: nat, level: nat, i: nat,
                    ghost loose: map<nat, nat>)
    returns (g: nat, m: Memory, ghost p: Places)
    requires Walking(m0, p0, m1, p1, s, page, table, level, loose) && level > 1 && m1.freelist != [] && i == Index(page, level)
    requires IsTable(m1.phys, table) && !Present(m1.phys[table].words[i])
    ensures Walking(m0, p0, m, p, s, page, g, level - 1, loose)
  {
    LowerIndex(page, level);
    HeadIsFree(m1, p1, s, loose);
    g, m, p := CreateTable(m1, p1, s, table, i, TABLE_FLAGS, loose);
    LinkStep(m1, p1, s, m1.spaces[s].root, table, page, level, loose);
    OnlyTablesTrans(m0, p0, m1, p1, m, p);
  }

  /** find_page_table_entry: the last-level table, created on the way down if asked to. */
  method FindTable(m0: Memory, ghost p0: Places, s: nat, page: nat, create: bool, ghost loose: map<nat, nat>)
    returns (leaf: Option<nat>, m: Memory, ghost p: Places)
    requires Inv(m0, p0, s, loose) && s in m0.spaces && page < LOWER_PAGES
    ensures Inv(m, p, s, loose) && OnlyTables(m0, p0, m, p) && s in m.spaces && OthersKept(m0, m, s)
    ensures !create ==> m == m0 && p == p0 && leaf == Leaf(m.phys, m.spaces[s].root, page)
    ensures leaf.Some? ==> leaf == Leaf(m.phys, m.spaces[s].root, page)
    ensures create && leaf.None? ==> m.freelist == []
    ensures create ==> (leaf.Some? <==> Missing(m0, s, page) <= |m0.freelist|)
    ensures leaf.Some? ==> |m.freelist| + Missing(m0, s, page) == |m0.freelist|
    ensures Missing(m0, s, page) == 0 ==> m == m0 && p == p0
  {
    m, p := m0, p0;
    var table, level := m.spaces[s].root, 4;
    StartWalk(m, p, s, page, loose);
    while level > 1
      invariant 1 <= level <= 4 && Walking(m0, p0, m, p, s, page, table, level, loose)
      invariant !create ==> m == m0 && p == p0
    {
      WalkDown(m0, p0, m, p, s, page, table, level, loose);
      var i := Index(page, level);
      var e := m.phys[table].words[i];
      if Present(e) {
        table := e.pfn;
      } else if create {
        if m.freelist == [] {
          return None, m, p;
        }
        table, m, p := WalkCreate(m0, p0, m, p, s, page, table, level, i, loose);
      } else {
        LowerIndex(page, level);
        StopStep(m, p, s, m.spaces[s].root, table, page, level, loose);
        return None, m, p;
      }
      level := level - 1;
    }
    TableFromLeaf(m.phys, m.spaces[s].root, page, 4);
    return Some(table), m, p;
  }

  // ---------------------------------------------------------------- lookup and page faults

  /** addr_to_range: the cached lookup always agrees with an uncached scan of the list. */
  method AddrToRange(m0: Memory, ghost p0: Places, s: nat, page: nat) returns (r: Option<MappedRange>, m: Memory)
    requires Strict(m0, p0) && s in m0.spaces
    ensures Strict(m, p0) && s in m.spaces
    ensures r == Find(m0.spaces[s].ranges, page)
    ensures m == m0.(spaces := m0.spaces[s := m0.spaces[s].(cached := m.spaces[s].cached)])
  {
    m := m0;
    var rs := m.spaces[s].ranges;
    assert SpaceInv(m, p0, s);
    if m.spaces[s].cached.Some? {
      ByIdMember(rs, m.spaces[s].cached.value);
      var c := ById(rs, m.spaces[s].cached.value);
      if c.value.Covers(page) {
        FindUnique(rs, page, c.value);
        return c, m;
      }
    }
    var i := 0;
    while i < |rs|
      invariant 0 <= i <= |rs| && Find(rs, page) == Find(rs[i..], page)
    {
      if rs[i].Covers(page) {
        ByIdUnique(rs, m.freshId, rs[i]);
        CacheInv(m, p0, s, Some(rs[i].id));
        m := m.(spaces := m.spaces[s := m.spaces[s].(cached := Some(rs[i].id))]);
        return Some(rs[i]), m;
      }
      assert rs[i..][1..] == rs[i+1..];
      i := i + 1;
    }
    return None, m;
  }

  /** The ANONYMOUS and FILE cases of the page-fault switch. */
  method InstallPage(m0: Memory, files: map<nat, seq<byte>>, s: nat, page: nat, range: MappedRange, leaf: nat)
    returns (f: nat, m: Memory)
    requires m0.freelist != [] && m0.freelist[0] in m0.info && m0.info[m0.freelist[0]].free && s in m0.spaces
    requires range.id in m0.spaces[s].lists && (range.kind == File ==> range.file.Some?)
    requires IsTable(m0.phys, leaf) && m0.freelist[0] != leaf
    requires range.kind == Anonymous || range.kind == File
    ensures f == m0.freelist[0]
    ensures m == m0.(
                   freelist := m0.freelist[1..],
                   info := m0.info[f := PageInfo(false, page)],
                   phys := SetWord(m0.phys[f := Bytes(FaultPage(files, range, page))], leaf, Index(page, 1), PTE(f, range.flags)),
                   spaces := m0.spaces[s := m0.spaces[s].(lists :=
                     m0.spaces[s].lists[range.id := m0.spaces[s].lists[range.id] + [f]])])
  {
    f, m := AllocPage(m0);
    m := m.(info := m.info[f := m.info[f].(mappedAddr := page)]);
    m := m.(spaces := m.spaces[s := m.spaces[s].(lists := m.spaces[s].lists[range.id := m.spaces[s].lists[range.id] + [f]])]);
    m := m.(phys := m.phys[f := Bytes(ZeroPage())]);
    if range.kind == File && range.file.value in files {
      var offset := (page - range.originalBase) * PAGE_SIZE + range.fileOffset;
      m := m.(phys := m.phys[f := Bytes(FilePage(files[range.file.value], offset))]);
    }
    m := m.(phys := m.phys[leaf := Words(m.phys[leaf].words[Index(page, 1) := PTE(f, range.flags)])]);
  }

  /** The frames a fault takes: the missing tables, which come first, and the page itself if it is to be brought in. */
  ghost function FaultNeeds(m: Memory, s: nat, page: nat): nat
    requires s in m.spaces
  {
    Missing(m, s, page) + if !Present(EntryOf(m, s, page)) && Find(m.spaces[s].ranges, page).Some? then 1 else 0
  }

  /**
    handle_page_fault brings in the page and changes nothing that any process can read. It is
    refused exactly when the page is already present or no range covers it. It runs out of frames
    exactly when there are fewer than it needs.
   */
  method HandlePageFault(m0: Memory, ghost p0: Places, files: map<nat, seq<byte>>, s: nat, page: nat)
    returns (r: Fault, m: Memory, ghost p: Places)
    requires Strict(m0, p0) && s in m0.spaces && page < LOWER_PAGES
    ensures Strict(m, p) && SameViews(m0, m, files) && EntriesKept(m0, m, s, page)
    ensures r.OutOfMemory? <==> |m0.freelist| < FaultNeeds(m0, s, page)
    ensures r.BadAddress? <==> !r.OutOfMemory? && (Present(EntryOf(m0, s, page)) || Find(m0.spaces[s].ranges, page).None?)
    ensures r.Mapped? ==>
              && !Present(EntryOf(m0, s, page))
              && Find(m0.spaces[s].ranges, page).Some? && s in m.spaces
              && EntryOf(m, s, page) == PTE(r.pfn, Find(m0.spaces[s].ranges, page).value.flags) && Present(EntryOf(m, s, page))
    ensures !r.Mapped? ==> s in m.spaces && EntryOf(m, s, page) == EntryOf(m0, s, page)
    ensures r.OutOfMemory? ==> m.freelist == []
  {
    var leaf;
    StrictAnywhere(m0, p0, s);
    leaf, m, p := FindTable(m0, p0, s, page, true, map[]);
    OnlyTablesViews(m0, p0, m, p, files, s, page);
    StrictAnywhere(m, p, s);
    if leaf.None? {
      return OutOfMemory, m, p;
    }
    WalkReadsWord(m, p, s, page);
    if Present(m.phys[leaf.value].words[Index(page, 1)]) {
      return BadAddress, m, p;
    }
    ghost var m1 := m;
    var found;
    found, m := AddrToRange(m, p, s, page);
    CacheViews(m1, m, files, s, page);
    SameViewsTrans(m0, m1, m, files, s, page);
    if found.None? {
      return BadAddress, m, p;
    }
    if m.freelist == [] {
      return OutOfMemory, m, p;
    }
    ghost var m2 := m;
    var f;
    f, m, p := BringIn(m, p, files, s, page, found.value, leaf.value);
    SameViewsTrans(m0, m2, m, files, s, page);
    return Mapped(f), m, p;
  }

  /** The page is brought in, once its range and its last-level table are known. */
  method BringIn(m0: Memory, ghost p0: Places, files: map<nat, seq<byte>>, s: nat, page: nat, r: MappedRange, leaf: nat)
    returns (f: nat, m: Memory, ghost p: Places)
    requires Strict(m0, p0) && s in m0.spaces && page < LOWER_PAGES && m0.freelist != []
    requires Find(m0.spaces[s].ranges, page) == Some(r)
    requires Leaf(m0.phys, m0.spaces[s].root, page) == Some(leaf) && !Present(EntryOf(m0, s, page))
    ensures Strict(m, p) && SameViews(m0, m, files) && EntriesKept(m0, m, s, page) && s in m.spaces
    ensures EntryOf(m, s, page) == PTE(f, r.flags) && Present(EntryOf(m, s, page))
  {
    Installed(m0, p0, s, page, r, files);
    f, m := InstallPage(m0, files, s, page, r, leaf);
    p := p0[f := Data(s, r.id)];
  }

  // ---------------------------------------------------------------- invalidation

  /** invalidate_page: hands the frame of a resident page to the target range, or frees it. */
  method InvalidatePage(m0: Memory, ghost p0: Places, s: nat, page: nat, target: Option<MappedRange>,
                        ghost lo: nat, ghost next: nat, ghost loose: map<nat, nat>)
    returns (m: Memory, ghost p: Places)
    requires lo <= page < LOWER_PAGES && next == page + 1 && s in m0.spaces && Inv(m0, p0, s, Outside(loose, lo, page))
    requires target.Some? ==> TargetOk(m0.spaces[s], target.value) && target.value.Covers(page)
    ensures Inv(m, p, s, Outside(loose, lo, next))
    ensures Invalidated(m0, p0, m, p, s, page, next, target)
  {
    ghost var cur := Outside(loose, lo, page);
    OutsideNext(loose, lo, page);
    StrayWord(m0, p0, s, page, cur);
    var leaf;
    leaf, m, p := FindTable(m0, p0, s, page, false, cur);
    if leaf.None? || !Present(m.phys[leaf.value].words[Index(page, 1)]) {
      TightenInv(m, p, s, page, cur);
      NotInvalidated(m, p, s, page, page + 1, target, s, cur);
      return;
    }
    var f := m.phys[leaf.value].words[Index(page, 1)].pfn;
    ResidentFacts(m, p, s, page, s, cur);
    assert !m.info[f].free;
    match target
    case Some(r) =>
      MovedInv(m, p, s, page, r, cur);
      MovedRelation(m, p, s, page, r, cur);
      m := m.(info := m.info[f := m.info[f].(mappedAddr := page)]);
      m := m.(spaces := m.spaces[s := m.spaces[s].(lists := Relinked(m.spaces[s].lists, f, r.id))]);
      m := m.(phys := m.phys[leaf.value := Words(m.phys[leaf.value].words[Index(page, 1) := PTE(f, r.flags)])]);
      p := p[f := Data(s, r.id)];
    case None =>
      FreedInv(m, p, s, page, cur);
      FreedRelation(m, p, s, page, cur);
      m := m.(spaces := m.spaces[s := m.spaces[s].(lists := Unlinked(m.spaces[s].lists, f))]);
      m := m.(phys := m.phys[leaf.value := Words(m.phys[leaf.value].words[Index(page, 1) := EMPTY])]);
      m := FreePage(m, f);
      p := p[f := Free];
  }

  /** invalidate_pages over pages base to base + length. */
  method InvalidatePages(m0: Memory, ghost p0: Places, s: nat, base: nat, length: nat, target: Option<MappedRange>,
                         ghost loose: map<nat, nat>)
    returns (m: Memory, ghost p: Places)
    requires Inv(m0, p0, s, loose) && s in m0.spaces && base + length <= LOWER_PAGES
    requires target.Some? ==> TargetOk(m0.spaces[s], target.value)
    requires target.Some? ==> target.value.base <= base && base + length <= target.value.End()
    ensures Inv(m, p, s, Outside(loose, base, base + length))
    ensures Invalidated(m0, p0, m, p, s, base, base + length, target)
  {
    m, p := m0, p0;
    OutsideNext(loose, base, base);
    NotInvalidated(m, p, s, base, base, target, s, loose);
    var page, end := base, base + length;
    while page < end
      invariant base <= page <= end && s in m.spaces
      invariant Invalidated(m0, p0, m, p, s, base, page, target)
      invariant Inv(m, p, s, Outside(loose, base, page))
    {
      ghost var m1, p1 := m, p;
      var next := page + 1;
      m, p := InvalidatePage(m, p, s, page, target, base, next, loose);
      InvalidatedNext(m0, p0, m1, p1, m, p, s, base, page, next, target);
      page := next;
    }
  }

  /** A range of this pagemap that may take frames. */
  ghost predicate TargetOk(sp: Space, r: MappedRange) {
    ById(sp.ranges, r.id) == Some(r) && r.id in sp.lists && r.flags % 2 == 1
  }

  lemma StrayWord(m: Memory, places: Places, s: nat, page: nat, loose: map<nat, nat>)
    requires Inv(m, places, s, loose) && s in m.spaces && page < LOWER_PAGES
    ensures var l := Leaf(m.phys, m.spaces[s].root, page);
            if l.Some? then IsTable(m.phys, l.value) && EntryOf(m, s, page) == m.phys[l.value].words[Index(page, 1)]
            else !Present(EntryOf(m, s, page))
  {
    assert SpaceInv(m, places, s);
    LowerIndex(page, 4);
    LeafPlace(m.phys, places, m.spaces[s].root, s, page, 4);
    if Leaf(m.phys, m.spaces[s].root, page).Some? {
      LeafFacts(m, places, s, page, s, loose);
    }
  }

  lemma CacheViews(m: Memory, m': Memory, files: map<nat, seq<byte>>, s: nat, page: nat)
    requires s in m.spaces && s in m'.spaces
    requires m' == m.(spaces := m.spaces[s := m.spaces[s].(cached := m'.spaces[s].cached)])
    ensures SameViews(m, m', files) && EntriesKept(m, m', s, page) && EntryOf(m', s, page) == EntryOf(m, s, page)
  {
    assert forall z, q :: z in m.spaces ==> EntryOf(m', z, q) == EntryOf(m, z, q);
  }

  /** All there is to say about a page that has been brought in. */
  lemma Installed(m: Memory, places: Places, s: nat, page: nat, r: MappedRange, files: map<nat, seq<byte>>)
    requires Strict(m, places) && s in m.spaces && page < LOWER_PAGES && m.freelist != []
    requires Find(m.spaces[s].ranges, page) == Some(r)
    requires Leaf(m.phys, m.spaces[s].root, page).Some? && !Present(EntryOf(m, s, page))
    ensures var f := m.freelist[0];
            var m1 := m.(phys := m.phys[f := Bytes(FaultPage(files, r, page))]);
            && (r.kind == Anonymous || r.kind == File) && (r.kind == File ==> r.file.Some?) && r.flags % 2 == 1
            && IsTable(m.phys, Leaf(m.phys, m.spaces[s].root, page).value) && f != Leaf(m.phys, m.spaces[s].root, page).value
            && f in places && places[f].Free? && f in m.info && m.info[f].free && r.id in m.spaces[s].lists
            && Leaf(m1.phys, m.spaces[s].root, page) == Leaf(m.phys, m.spaces[s].root, page)
            && IsTable(m1.phys, Leaf(m1.phys, m.spaces[s].root, page).value)
            && Strict(Filled(m1, s, page, r), places[f := Data(s, r.id)])
            && SameViews(m, Filled(m1, s, page, r), files)
            && EntriesKept(m, Filled(m1, s, page, r), s, page)
            && EntryOf(Filled(m1, s, page, r), s, page) == PTE(f, r.flags)
  {
    var f, content := m.freelist[0], FaultPage(files, r, page);
    var m1 := m.(phys := m.phys[f := Bytes(content)]);
    InstallFacts(m, places, s, page, r, content);
    HeadIsFree(m, places, 0, map[]);
    LeafFacts(m, places, s, page, 0, map[]);
    var m2 := Filled(m1, s, page, r);
    FilledInv(m1, places, s, page, r, map[]);
    StrictAnywhere(m2, places[f := Data(s, r.id)], s);
    forall z, q: nat | z in m.spaces && q < LOWER_PAGES
      ensures View(m2, files, z, q) == View(m, files, z, q)
      ensures EntryOf(m2, z, q) == if (z, q) == (s, page) then PTE(f, r.flags) else EntryOf(m, z, q)
    {
      FilledView(m, places, s, page, r, content, files, z, q);
      WriteFrameEntry(m, places, f, Bytes(content), 0, map[], z, q);
      FilledEntry(m1, places, s, page, r, map[], z, q);
    }
  }

  lemma WalkReadsWord(m: Memory, places: Places, s: nat, page: nat)
    requires Strict(m, places) && s in m.spaces && page < LOWER_PAGES && Leaf(m.phys, m.spaces[s].root, page).Some?
    ensures IsTable(m.phys, Leaf(m.phys, m.spaces[s].root, page).value)
    ensures EntryOf(m, s, page) == m.phys[Leaf(m.phys, m.spaces[s].root, page).value].words[Index(page, 1)]
  {
    LeafFacts(m, places, s, page, 0, map[]);
    assert SpaceInv(m, places, s);
    LowerIndex(page, 4);
    LeafPlace(m.phys, places, m.spaces[s].root, s, page, 4);
  }

  /** The new frame can be prepared before it is linked. */
  lemma InstallFacts(m: Memory, places: Places, s: nat, page: nat, r: MappedRange, content: seq<byte>)
    requires Strict(m, places) && s in m.spaces && page < LOWER_PAGES && m.freelist != []
    requires Find(m.spaces[s].ranges, page) == Some(r) && |content| == PAGE_SIZE
    requires Leaf(m.phys, m.spaces[s].root, page).Some? && !Present(EntryOf(m, s, page))
    ensures m.freelist[0] in m.phys && m.freelist[0] in places && places[m.freelist[0]].Free?
    ensures var m1 := m.(phys := m.phys[m.freelist[0] := Bytes(content)]);
            && Fillable(m1, places, s, page, r, map[])
            && Leaf(m1.phys, m1.spaces[s].root, page) == Leaf(m.phys, m.spaces[s].root, page)
    ensures r.kind == File <==> r.file.Some?
    ensures r.kind == Anonymous || r.kind == File
  {
    var f := m.freelist[0];
    HeadIsFree(m, places, 0, map[]);
    WriteFrameInv(m, places, f, Bytes(content), 0, map[]);
    var m1 := m.(phys := m.phys[f := Bytes(content)]);
    StrictAnywhere(m1, places, s);
    assert SpaceInv(m, places, s);
    FindMember(m.spaces[s].ranges, page);
    ByIdUnique(m.spaces[s].ranges, m.freshId, r);
    DataWrite(m.phys, places, f, Bytes(content), m.spaces[s].root, s, page);
    LeafFacts(m1, places, s, page, s, map[]);
    assert RangeOk(r) && r.WellFormed();
  }

  lemma StartWalk(m: Memory, places: Places, s: nat, page: nat, loose: map<nat, nat>)
    requires Inv(m, places, s, loose) && s in m.spaces && page < LOWER_PAGES
    ensures OnPath(places, m.spaces[s].root, s, page, 4) && IsTable(m.phys, m.spaces[s].root)
    ensures TableFrom(m.phys, m.spaces[s].root, page, 4, 4) == Some(m.spaces[s].root)
    ensures OnlyTables(m, places, m, places)
  {
    assert SpaceInv(m, places, s);
    LowerIndex(page, 4);
    assert TableOk(m.phys, places, m.spaces[s].root);
    forall f | f in places && places[f].Data?
      ensures FrameKept(m, places, m, places, f)
    {
      assert DataOk(m, places, f);
    }
  }

  lemma DownStep(m: Memory, places: Places, s: nat, root: nat, t: nat, page: nat, level: nat, loose: map<nat, nat>)
    requires Inv(m, places, s, loose) && page < LOWER_PAGES && 2 <= level <= 4
    requires OnPath(places, t, s, page, level) && IsTable(m.phys, t) && Present(m.phys[t].words[Index(page, level)])
    requires TableFrom(m.phys, root, page, 4, level) == Some(t)
    ensures OnPath(places, m.phys[t].words[Index(page, level)].pfn, s, page, level - 1)
    ensures IsTable(m.phys, m.phys[t].words[Index(page, level)].pfn)
    ensures TableFrom(m.phys, root, page, 4, level - 1) == Some(m.phys[t].words[Index(page, level)].pfn)
  {
    WalkStep(m.phys, places, t, s, page, level);
    assert TableOk(m.phys, places, m.phys[t].words[Index(page, level)].pfn);
    TableFromStep(m.phys, root, page, 4, level - 1);
  }

  lemma StopStep(m: Memory, places: Places, s: nat, root: nat, t: nat, page: nat, level: nat, loose: map<nat, nat>)
    requires Inv(m, places, s, loose) && page < LOWER_PAGES && 2 <= level <= 4
    requires IsTable(m.phys, t) && !Present(m.phys[t].words[Index(page, level)])
    requires TableFrom(m.phys, root, page, 4, level) == Some(t)
    ensures Leaf(m.phys, root, page) == None
  {
    TableFromStep(m.phys, root, page, 4, level - 1);
    TableFromNone(m.phys, root, page, 4, level - 1);
  }

  lemma LinkStep(m: Memory, places: Places, s: nat, root: nat, t: nat, page: nat, level: nat, loose: map<nat, nat>)
    requires 2 <= level <= 4 && page < LOWER_PAGES && Linkable(m, places, s, t, Index(page, level), loose)
    requires OnPath(places, root, s, page, 4) && OnPath(places, t, s, page, level)
    requires TableFrom(m.phys, root, page, 4, level) == Some(t)
    ensures var g, phys' := m.freelist[0], LinkTable(m.phys, t, Index(page, level), m.freelist[0], TABLE_FLAGS);
            var places' := LinkPlaces(places, t, Index(page, level), m.freelist[0]);
            && OnPath(places', root, s, page, 4) && OnPath(places', g, s, page, level - 1) && IsTable(phys', g)
            && TableFrom(phys', root, page, 4, level - 1) == Some(g)
  {
    var g, i := m.freelist[0], Index(page, level);
    var phys' := LinkTable(m.phys, t, i, g, TABLE_FLAGS);
    HeadIsFree(m, places, s, loose);
    PrefixStep(page, level);
    LinkTableFrom(m.phys, places, t, i, g, TABLE_FLAGS, root, s, page, 4);
    TableFromStep(phys', root, page, 4, level - 1);
    assert phys'[t].words[i] == PTE(g, TABLE_FLAGS);
    assert IsTable(phys', g);
  }
}
