/** Pagemap::fork as a whole: the child is a copy of the parent in frames of its own. */
module Fork {
  import opened Common
  import opened Ranges
  import opened PageTable
  import opened Memory
  import opened Invalidate
  import opened ForkTables
  import opened ForkOps
  import opened TableCount

  /** A fault on `q` of the child brings in what a fault of the parent would: not so for a file range that has lost its front. */
  predicate SameFault(rs: seq<MappedRange>, q: nat) {
    match Find(rs, q)
    case Some(r) => r.kind == File ==> r.base == r.originalBase
    case None => true
  }

  /**
    Pagemap `c` of `m` is a copy of pagemap `s` of `m0`, page by page and range by range, and no
    other pagemap has noticed.
   */
  ghost predicate IsFork(m0: Memory, m: Memory, p: Places, s: nat, c: nat) {
    && Strict(m, p) && Untouched(m0, m, c) && s in m0.spaces && c in m.spaces
    && (forall q: nat {:trigger CopyRel(m0, m, s, c, q)} :: q < LOWER_PAGES ==> CopyRel(m0, m, s, c, q))
    && (forall q: nat {:trigger RangeCopied(m0.spaces[s].ranges, m.spaces[c].ranges, q)} ::
          RangeCopied(m0.spaces[s].ranges, m.spaces[c].ranges, q))
  }

  /** Both lists map `q` alike, the child from its own version of the range; the offset behind it agrees exactly when SameFault says so. */
  ghost predicate RangeCopied(rs: seq<MappedRange>, cs: seq<MappedRange>, q: nat) {
    && At(cs, q) == At(rs, q)
    && (Find(rs, q).Some? ==> Find(cs, q).Some? && Find(cs, q).value == Forked(Find(rs, q).value, Find(cs, q).value.id))
    && (BackingAt(cs, q) == BackingAt(rs, q) <==> SameFault(rs, q))
  }

  lemma ParentOf(rs: seq<MappedRange>, cs: seq<MappedRange>, x: MappedRange) returns (r: MappedRange)
    requires ChildList(rs, |rs|, cs) && x in cs
    ensures r in rs && x == Forked(r, x.id)
  {
    assert ForkedFrom(x, rs, |rs|);
    var j :| 0 <= j < |rs| && x == Forked(rs[j], x.id);
    r := rs[j];
  }

  lemma ChildOf(rs: seq<MappedRange>, cs: seq<MappedRange>, r: MappedRange) returns (x: MappedRange)
    requires ChildList(rs, |rs|, cs) && r in rs
    ensures x in cs && x == Forked(r, x.id)
  {
    var j :| 0 <= j < |rs| && rs[j] == r;
    assert HasFork(cs, rs[j]);
    x :| x in cs && x == Forked(r, x.id);
  }

  lemma ChildFind(rs: seq<MappedRange>, cs: seq<MappedRange>, q: nat)
    requires Disjoint(rs) && Disjoint(cs) && ChildList(rs, |rs|, cs)
    ensures Find(rs, q).None? <==> Find(cs, q).None?
    ensures Find(rs, q).Some? ==> Find(cs, q).Some? && Find(cs, q).value == Forked(Find(rs, q).value, Find(cs, q).value.id)
  {
    FindMember(rs, q);
    FindMember(cs, q);
    if Find(cs, q).Some? {
      var r := ParentOf(rs, cs, Find(cs, q).value);
      FindUnique(rs, q, r);
    }
    if Find(rs, q).Some? {
      var x := ChildOf(rs, cs, Find(rs, q).value);
      FindUnique(cs, q, x);
    }
  }

  lemma ChildRanges(rs: seq<MappedRange>, cs: seq<MappedRange>, q: nat)
    requires Disjoint(rs) && Disjoint(cs) && AllWellFormed(rs) && ChildList(rs, |rs|, cs)
    requires forall r :: r in rs ==> RangeOk(r)
    ensures RangeCopied(rs, cs, q)
  {
    ChildFind(rs, cs, q);
    FindMember(rs, q);
  }

  lemma Unmapped(m: Memory, p: Places, s: nat, q: nat)
    requires Strict(m, p) && s in m.spaces && q < LOWER_PAGES && Find(m.spaces[s].ranges, q).None?
    ensures !Present(EntryOf(m, s, q))
  {
    assert EntryOk(m, p, s, q, 0, map[]);
    FindMember(m.spaces[s].ranges, q);
    if Present(EntryOf(m, s, q)) {
      ByIdMember(m.spaces[s].ranges, p[EntryOf(m, s, q).pfn].range);
    }
  }

  lemma ForkDone(m0: Memory, p0: Places, m: Memory, p: Places, s: nat, c: nat)
    requires s in m0.spaces && Forking(m0, p0, m, p, s, c, |m0.spaces[s].ranges|)
    ensures IsFork(m0, m, p, s, c)
  {
    var rs, cs := m0.spaces[s].ranges, m.spaces[c].ranges;
    assert SpaceInv(m0, p0, s) && SpaceInv(m, p, c);
    forall q: nat
      ensures RangeCopied(rs, cs, q)
    {
      ChildRanges(rs, cs, q);
    }
    forall q: nat | q < LOWER_PAGES
      ensures CopyRel(m0, m, s, c, q)
    {
      assert PageState(m0, m, s, c, |rs|, [], 0, q);
      FindMember(rs, q);
      if Find(rs, q).None? {
        Unmapped(m0, p0, s, q);
      } else {
        var j :| 0 <= j < |rs| && rs[j] == Find(rs, q).value;
        assert ForkOps.Done(rs, |rs|, q);
      }
    }
  }

  lemma ForkBegun(m0: Memory, p0: Places, m1: Memory, p1: Places, m: Memory, p: Places, s: nat, c: nat)
    requires Strict(m0, p0) && Strict(m1, p1) && Strict(m, p) && Untouched(m0, m1, c) && s in m0.spaces && c in m1.spaces
    requires OnlyTables(m1, p1, m, p) && OthersKept(m1, m, c) && m1.spaces[c].ranges == []
    requires forall q: nat :: q < LOWER_PAGES ==> EntryOf(m1, c, q) == EMPTY
    ensures Untouched(m0, m, c) && Forking(m0, p0, m, p, s, c, 0)
  {
    OnlyTablesAdded(m1, p1, m, p, c, 0);
    AddedUntouched(m0, m1, m, c, 0);
    forall q: nat | q < LOWER_PAGES
      ensures PageState(m0, m, s, c, 0, [], 0, q)
    {
      assert EntryOf(m, c, q) == EntryOf(m1, c, q);
    }
  }

  /** The child's tables exist and are empty of translations. */
  method CopyTables(m0: Memory, ghost p0: Places, s: nat, c: nat) returns (ok: bool, m: Memory, ghost p: Places)
    requires Strict(m0, p0) && s in m0.spaces && c !in m0.spaces && m0.freelist != []
    ensures Strict(m, p) && Untouched(m0, m, c)
    ensures ok ==> Forking(m0, p0, m, p, s, c, 0) && s in m.spaces && m.spaces[s] == m0.spaces[s] && HasLeaves(m0, m, s, c)
    ensures !ok ==> m.freelist == []
    ensures ok <==> |m0.spaces[s].tablePages| <= |m0.freelist|
    ensures ok ==> |m.freelist| + |m0.spaces[s].tablePages| == |m0.freelist|
    ensures ok ==> m.spaces[c].ranges == [] && m.freshId == m0.freshId
  {
    TablesListed(m0, p0, s);
    m, p := NewChild(m0, p0, s, c);
    ghost var m1, p1 := m, p;
    var src, dst := m.spaces[s].root, m.spaces[c].root;
    ok, m, p := CopyTable(m, p, s, c, src, dst, 4);
    ForkBegun(m0, p0, m1, p1, m, p, s, c);
    if ok {
      TablesReady(m0, m1, m, p, s, c, src, dst);
    }
  }

  /** A new pagemap with the kernel half of the parent's root table. */
  method NewChild(m0: Memory, ghost p0: Places, s: nat, c: nat) returns (m: Memory, ghost p: Places)
    requires Strict(m0, p0) && s in m0.spaces && c !in m0.spaces && m0.freelist != []
    ensures Strict(m, p) && Untouched(m0, m, c) && s in m.spaces && m.spaces[c].ranges == [] && m.freshId == m0.freshId
    ensures forall q: nat :: q < LOWER_PAGES ==> EntryOf(m, c, q) == EMPTY
    ensures Copyable(m, p, s, c, m.spaces[s].root, m.spaces[c].root, 4) && Blank(m.phys, m.spaces[c].root, 0, 4)
    ensures SameKernelHalf(m0, m, s, c) && |m.freelist| + 1 == |m0.freelist|
    ensures m.spaces[s] == m0.spaces[s] && Subtables(m.phys, m.spaces[s].root, 4, 0) == Subtables(m0.phys, m0.spaces[s].root, 4, 0)
  {
    assert SpaceInv(m0, p0, s);
    assert TableOk(m0.phys, p0, m0.spaces[s].root);
    m, p := NewPagemap(m0, p0, m0.phys[m0.spaces[s].root].words, c);
    assert SpaceInv(m, p, s);
    BornSubtables(m0, p0, m, s);
  }

  lemma TablesReady(m0: Memory, m1: Memory, m: Memory, p: Places, s: nat, c: nat, src: nat, dst: nat)
    requires Strict(m, p) && Untouched(m0, m, c) && s in m0.spaces && s in m.spaces && c in m.spaces && c in m1.spaces
    requires src == m.spaces[s].root && dst == m.spaces[c].root == m1.spaces[c].root && Deep(m.phys, src, dst, 4, Limit(4))
    requires SameKernelHalf(m0, m1, s, c) && UpperKept(m1.phys, m.phys, dst, 4)
    ensures HasLeaves(m0, m, s, c)
  {
    forall q: nat | q < LOWER_PAGES
      ensures EntryOf(m, s, q) == EntryOf(m0, s, q)
    {
      assert SamePage(m0, m, s, q);
    }
    DeepHasLeaves(m0, m, p, s, c);
  }

  /** The resident pages of the ranges from number `n` on. */
  function Resident(sp: Space, n: nat): nat
    decreases if n < |sp.ranges| then |sp.ranges| - n else 0
  {
    if n >= |sp.ranges| then 0 else PagesOf(sp, n) + Resident(sp, n + 1)
  }

  /** The frames on the parent's own lists, which is what a child takes: tables, and the pages of all ranges. */
  function ForkNeeds(m: Memory, s: nat): nat
    requires s in m.spaces
  {
    |m.spaces[s].tablePages| + Resident(m.spaces[s], 0)
  }

  /** Pagemap::fork. It runs out of frames, which is a kernel panic, exactly when there are fewer than the parent has. */
  method ForkPagemap(m0: Memory, ghost p0: Places, s: nat, c: nat) returns (ok: bool, m: Memory, ghost p: Places)
    requires Strict(m0, p0) && s in m0.spaces && c !in m0.spaces
    ensures ok <==> ForkNeeds(m0, s) <= |m0.freelist|
    ensures ok ==> IsFork(m0, m, p, s, c) && |m.freelist| + ForkNeeds(m0, s) == |m0.freelist|
    ensures ok ==> m.spaces[c].ranges == ForkList(m0.spaces[s].ranges, |m0.spaces[s].ranges|, m0.freshId) && SameKernelHalf(m0, m, s, c)
    ensures !ok ==> m.freelist == []
  {
    TablesListed(m0, p0, s);
    if m0.freelist == [] {
      return false, m0, p0;
    }
    ok, m, p := CopyTables(m0, p0, s, c);
    if !ok {
      return;
    }
    ok, m, p := CopyRanges(m0, p0, m, p, s, c, |m.freelist|);
  }

  /** The first `n` ranges have been copied, of `frames` frames at the cost of one for each of their pages. */
  ghost predicate RangesCopied(m0: Memory, p0: Places, m: Memory, p: Places, s: nat, c: nat, n: nat, frames: nat) {
    RangesClauses(m0, p0, m, p, s, c, n, frames) == true
  }

  ghost predicate RangesClauses(m0: Memory, p0: Places, m: Memory, p: Places, s: nat, c: nat, n: nat, frames: nat) {
    && s in m0.spaces && n <= |m0.spaces[s].ranges| && Forking(m0, p0, m, p, s, c, n)
    && s in m.spaces && m.spaces[s] == m0.spaces[s] && HasLeaves(m0, m, s, c)
    && |m.freelist| + Resident(m0.spaces[s], 0) == frames + Resident(m0.spaces[s], n)
    && m.freshId == m0.freshId + n && c in m.spaces && m.spaces[c].ranges == ForkList(m0.spaces[s].ranges, n, m0.freshId)
  }

  /** One turn of the outer loop of fork. */
  method CopyNext(ghost m0: Memory, ghost p0: Places, m1: Memory, ghost p1: Places, s: nat, c: nat, n: nat, ghost next: nat, ghost frames: nat)
    returns (ok: bool, m: Memory, ghost p: Places)
    requires RangesCopied(m0, p0, m1, p1, s, c, n, frames) && s in m0.spaces && n < |m0.spaces[s].ranges| && next == n + 1
    ensures ok ==> RangesCopied(m0, p0, m, p, s, c, next, frames)
    ensures !ok ==> m.freelist == [] && frames < Resident(m0.spaces[s], 0)
  {
    ok, m, p := CopyRange(m0, p0, m1, p1, s, c, n);
  }

  /** The outer loop of fork. */
  method CopyRanges(ghost m0: Memory, ghost p0: Places, m1: Memory, ghost p1: Places, s: nat, c: nat, ghost frames: nat)
    returns (ok: bool, m: Memory, ghost p: Places)
    requires RangesCopied(m0, p0, m1, p1, s, c, 0, frames) && s in m0.spaces
    ensures ok <==> Resident(m0.spaces[s], 0) <= frames
    ensures ok ==> IsFork(m0, m, p, s, c) && |m.freelist| + Resident(m0.spaces[s], 0) == frames
    ensures ok ==> m.spaces[c].ranges == ForkList(m0.spaces[s].ranges, |m0.spaces[s].ranges|, m0.freshId) && SameKernelHalf(m0, m, s, c)
    ensures !ok ==> m.freelist == []
  {
    m, p := m1, p1;
    var n, count := 0, |m1.spaces[s].ranges|;
    while n < count
      invariant n <= count == |m0.spaces[s].ranges| && RangesCopied(m0, p0, m, p, s, c, n, frames)
    {
      var next := n + 1;
      ok, m, p := CopyNext(m0, p0, m, p, s, c, n, next, frames);
      if !ok {
        return;
      }
      n := next;
    }
    ForkDone(m0, p0, m, p, s, c);
    return true, m, p;
  }

  // ---------------------------------------------------------------- what the processes see

  /** The child reads what the parent reads, wherever a fault of the child would too. */
  lemma ForkViews(m0: Memory, p0: Places, m: Memory, p: Places, s: nat, c: nat, files: map<nat, seq<byte>>, q: nat)
    requires Strict(m0, p0) && IsFork(m0, m, p, s, c) && q < LOWER_PAGES
    requires SameFault(m0.spaces[s].ranges, q) || Present(EntryOf(m0, s, q))
    ensures View(m, files, c, q) == View(m0, files, s, q)
  {
    assert CopyRel(m0, m, s, c, q);
    assert RangeCopied(m0.spaces[s].ranges, m.spaces[c].ranges, q);
  }

  /** The processes that existed before read what they did. */
  lemma ForkKeepsViews(m0: Memory, m: Memory, p: Places, s: nat, c: nat, files: map<nat, seq<byte>>, z: nat, q: nat)
    requires IsFork(m0, m, p, s, c) && z in m0.spaces && q < LOWER_PAGES
    ensures View(m, files, z, q) == View(m0, files, z, q)
  {
    assert SamePage(m0, m, z, q);
  }

  // ---------------------------------------------------------------- one owner per frame

  datatype Owner = Freelist | TablePages(space: nat) | PageList(space: nat, range: nat)

  /** Frame `f` is on the list that `o` names. */
  predicate OnList(m: Memory, f: nat, o: Owner) {
    match o
    case Freelist => f in m.freelist
    case TablePages(s) => s in m.spaces && f in m.spaces[s].tablePages
    case PageList(s, r) => s in m.spaces && r in m.spaces[s].lists && f in m.spaces[s].lists[r]
  }

  /** Every frame is on exactly one list, and on that one once. */
  lemma OneOwner(m: Memory, p: Places, f: nat)
    requires Strict(m, p) && f in m.info
    ensures exists o :: OnList(m, f, o)
    ensures forall o, o' :: OnList(m, f, o) && OnList(m, f, o') ==> o == o'
    ensures m.info[f].free <==> OnList(m, f, Freelist)
    ensures NoDup(m.freelist)
  {
    assert FreeIff(m.freelist, p, f) && FlagIff(m.info, p, f) && PlaceOk(m, p[f]);
    var o := match p[f] case Free => Freelist case Table(s, _, _) => TablePages(s) case Data(s, r) => PageList(s, r);
    forall o'
      ensures OnList(m, f, o') <==> o' == o
    {
      ListMeansPlace(m, p, f, o');
    }
    assert OnList(m, f, o);
  }

  lemma ListMeansPlace(m: Memory, p: Places, f: nat, o: Owner)
    requires Strict(m, p) && f in m.info
    ensures OnList(m, f, o) <==>
            match p[f] case Free => o == Freelist case Table(s, _, _) => o == TablePages(s) case Data(s, r) => o == PageList(s, r)
  {
    assert PlaceOk(m, p[f]);
    match o
    case Freelist => assert FreeIff(m.freelist, p, f);
    case TablePages(s) =>
      if s in m.spaces {
        assert SpaceInv(m, p, s);
      }
    case PageList(s, r) =>
      if s in m.spaces && r in m.spaces[s].lists {
        assert SpaceInv(m, p, s);
        assert PageListOk(m.spaces[s].lists[r], p, s, r);
      }
  }

  /** A present translation names a frame listed, with this address, in the one range that covers the page. */
  lemma PresentIsListed(m: Memory, p: Places, s: nat, q: nat)
    requires Strict(m, p) && s in m.spaces && q < LOWER_PAGES && Present(EntryOf(m, s, q))
    ensures var f := EntryOf(m, s, q).pfn;
            && Find(m.spaces[s].ranges, q).Some?
            && OnList(m, f, PageList(s, Find(m.spaces[s].ranges, q).value.id))
            && f in m.info && m.info[f].mappedAddr == q
            && EntryOf(m, s, q).flags == Find(m.spaces[s].ranges, q).value.flags
  {
    assert EntryOk(m, p, s, q, 0, map[]) && SpaceInv(m, p, s);
    var id := p[EntryOf(m, s, q).pfn].range;
    var r := ById(m.spaces[s].ranges, id).value;
    ByIdMember(m.spaces[s].ranges, id);
    FindUnique(m.spaces[s].ranges, q, r);
    ResidentListed(m, p, s, r, q);
  }

  /** No two pages, of one process or of two, share a frame; in particular parent and child share none. */
  lemma NoSharing(m: Memory, p: Places, s: nat, q: nat, z: nat, q': nat)
    requires Strict(m, p) && s in m.spaces && z in m.spaces && q < LOWER_PAGES && q' < LOWER_PAGES
    requires Present(EntryOf(m, s, q)) && Present(EntryOf(m, z, q')) && EntryOf(m, s, q).pfn == EntryOf(m, z, q').pfn
    ensures s == z && q == q'
  {
    if (s, q) != (z, q') {
      OtherFrame(m, p, s, q, z, q', 0, map[]);
    }
  }

  /**
    Nor do processes share tables: two walks that meet in a table, at any of the four levels, are of
    the same process, at the same level, and of pages under the same entry.
   */
  lemma NoSharedTables(m: Memory, p: Places, s: nat, q: nat, l: nat, z: nat, q': nat, l': nat)
    requires Strict(m, p) && s in m.spaces && z in m.spaces && q < LOWER_PAGES && q' < LOWER_PAGES && 1 <= l <= 4 && 1 <= l' <= 4
    requires TableFrom(m.phys, m.spaces[s].root, q, 4, l).Some?
    requires TableFrom(m.phys, m.spaces[z].root, q', 4, l') == TableFrom(m.phys, m.spaces[s].root, q, 4, l)
    ensures s == z && l == l' && Prefix(q, l) == Prefix(q', l)
  {
    assert SpaceInv(m, p, s) && SpaceInv(m, p, z);
    LowerIndex(q, 4);
    LowerIndex(q', 4);
    TablePlace(m.phys, p, m.spaces[s].root, s, q, 4, l);
    TablePlace(m.phys, p, m.spaces[z].root, z, q', 4, l');
  }
}
