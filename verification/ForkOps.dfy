/** Pagemap::fork, second half: the child gets a copy of every range and of every resident page. */
module ForkOps {
  import opened Common
  import opened Ranges
  import opened PageTable
  import opened Memory
  import opened Invalidate
  import opened Allocate
  import opened Vmm
  import opened AddRangeOps
  import opened ForkTables

  // ---------------------------------------------------------------- one page

  /** Page `q` of the child: the same flags and the same bytes as the parent's, in its own frame, or no frame where the parent has none. */
  ghost predicate CopyRel(m0: Memory, m: Memory, s: nat, c: nat, q: nat) {
    && s in m0.spaces && c in m.spaces
    && (Present(EntryOf(m, c, q)) <==> Present(EntryOf(m0, s, q)))
    && (Present(EntryOf(m, c, q)) ==>
          var f, g := EntryOf(m0, s, q).pfn, EntryOf(m, c, q).pfn;
          && EntryOf(m, c, q).flags == EntryOf(m0, s, q).flags
          && f in m0.phys && g in m.phys && m.phys[g] == m0.phys[f])
  }

  /** Everything about pagemap `c` except one page and the list of the range it joins. */
  ghost predicate PageAdded(m: Memory, m': Memory, c: nat, page: nat) {
    && c in m.spaces && m'.spaces.Keys == m.spaces.Keys && m'.freshId == m.freshId && OthersTables(m, m', c)
    && m'.info.Keys == m.info.Keys
    && (forall z, q: nat {:trigger SamePage(m, m', z, q)} ::
          z in m.spaces && q < LOWER_PAGES && (z, q) != (c, page) ==> SamePage(m, m', z, q))
  }

  ghost predicate OthersTables(m: Memory, m': Memory, c: nat)
    requires m'.spaces.Keys == m.spaces.Keys && c in m.spaces
  {
    && (forall z {:trigger m'.spaces[z]} :: z in m.spaces && z != c ==> m'.spaces[z] == m.spaces[z])
    && m'.spaces[c].ranges == m.spaces[c].ranges && m'.spaces[c].lists.Keys == m.spaces[c].lists.Keys
  }

  ghost predicate Copying(m: Memory, p: Places, c: nat, page: nat, r: MappedRange, content: seq<byte>) {
    && Strict(m, p) && c in m.spaces && page < LOWER_PAGES && m.freelist != [] && |content| == PAGE_SIZE
    && Find(m.spaces[c].ranges, page) == Some(r)
    && Leaf(m.phys, m.spaces[c].root, page).Some? && !Present(EntryOf(m, c, page))
  }

  lemma CopyInstalled(m: Memory, p: Places, c: nat, page: nat, r: MappedRange, content: seq<byte>)
    requires Copying(m, p, c, page, r, content)
    ensures var f, t := m.freelist[0], Leaf(m.phys, m.spaces[c].root, page).value;
            var m1 := m.(phys := m.phys[f := Bytes(content)]);
            && f in p && p[f].Free? && f in m.info && m.info[f].free && r.id in m.spaces[c].lists
            && IsTable(m.phys, t) && f != t && Leaf(m1.phys, m.spaces[c].root, page) == Some(t) && IsTable(m1.phys, t)
            && Strict(Filled(m1, c, page, r), p[f := Data(c, r.id)])
            && PageAdded(m, Filled(m1, c, page, r), c, page)
            && EntryOf(Filled(m1, c, page, r), c, page) == PTE(f, r.flags)
            && f in Filled(m1, c, page, r).phys && Filled(m1, c, page, r).phys[f] == Bytes(content)
  {
    var f := m.freelist[0];
    var m1 := m.(phys := m.phys[f := Bytes(content)]);
    InstallFacts(m, p, c, page, r, content);
    HeadIsFree(m, p, 0, map[]);
    LeafFacts(m, p, c, page, 0, map[]);
    var m2 := Filled(m1, c, page, r);
    FilledInv(m1, p, c, page, r, map[]);
    StrictAnywhere(m2, p[f := Data(c, r.id)], c);
    forall z, q: nat | z in m.spaces && q < LOWER_PAGES
      ensures EntryOf(m2, z, q) == if (z, q) == (c, page) then PTE(f, r.flags) else EntryOf(m, z, q)
      ensures (z, q) != (c, page) ==> SamePage(m, m2, z, q)
    {
      WriteFrameEntry(m, p, f, Bytes(content), 0, map[], z, q);
      FilledEntry(m1, p, c, page, r, map[], z, q);
      if Present(EntryOf(m, z, q)) {
        ResidentFacts(m, p, z, q, 0, map[]);
      }
    }
  }

  /** Where pagemap `c` had a last-level table it still has it. */
  ghost predicate LeavesKept(m: Memory, m': Memory, c: nat) {
    && c in m.spaces && c in m'.spaces && m'.spaces[c].root == m.spaces[c].root
    && (IsTable(m.phys, m.spaces[c].root) ==> UpperKept(m.phys, m'.phys, m.spaces[c].root, 4))
    && forall q: nat {:trigger Leaf(m'.phys, m'.spaces[c].root, q)} :: q < LOWER_PAGES ==>
         Leaf(m'.phys, m'.spaces[c].root, q) == Leaf(m.phys, m.spaces[c].root, q)
  }

  lemma CopyLeaves(m: Memory, p: Places, c: nat, page: nat, r: MappedRange, content: seq<byte>)
    requires Copying(m, p, c, page, r, content) && r.id in m.spaces[c].lists
    requires var m1 := m.(phys := m.phys[m.freelist[0] := Bytes(content)]);
             Leaf(m1.phys, m1.spaces[c].root, page).Some? && IsTable(m1.phys, Leaf(m1.phys, m1.spaces[c].root, page).value)
    ensures LeavesKept(m, Filled(m.(phys := m.phys[m.freelist[0] := Bytes(content)]), c, page, r), c)
  {
    var f := m.freelist[0];
    var m1 := m.(phys := m.phys[f := Bytes(content)]);
    HeadIsFree(m, p, 0, map[]);
    assert SpaceInv(m, p, c);
    DataWriteTree(m.phys, p, f, Bytes(content));
    DataWrite(m.phys, p, f, Bytes(content), m.spaces[c].root, c, page);
    LeafFacts(m, p, c, page, 0, map[]);
    forall q: nat | q < LOWER_PAGES
      ensures Leaf(Filled(m1, c, page, r).phys, m.spaces[c].root, q) == Leaf(m.phys, m.spaces[c].root, q)
    {
      DataWrite(m.phys, p, f, Bytes(content), m.spaces[c].root, c, q);
      SetEntryExact(m1.phys, p, m.spaces[c].root, c, page, PTE(f, r.flags), m.spaces[c].root, c, q);
    }
  }

  /** map_page and the copy of one page, once its last-level table exists. */
  method CopyIn(m0: Memory, ghost p0: Places, c: nat, page: nat, r: MappedRange, content: seq<byte>, leaf: nat)
    returns (m: Memory, ghost p: Places)
    requires Copying(m0, p0, c, page, r, content) && Leaf(m0.phys, m0.spaces[c].root, page) == Some(leaf)
    ensures Strict(m, p) && PageAdded(m0, m, c, page)
    ensures Present(PTE(0, r.flags)) && EntryOf(m, c, page).flags == r.flags && Present(EntryOf(m, c, page))
    ensures EntryOf(m, c, page).pfn in m.phys && m.phys[EntryOf(m, c, page).pfn] == Bytes(content)
    ensures LeavesKept(m0, m, c) && |m.freelist| + 1 == |m0.freelist|
  {
    CopyInstalled(m0, p0, c, page, r, content);
    CopyLeaves(m0, p0, c, page, r, content);
    InstallFacts(m0, p0, c, page, r, content);
    ghost var m1 := m0.(phys := m0.phys[m0.freelist[0] := Bytes(content)]);
    ghost var m2 := Filled(m1, c, page, r);
    var f;
    f, m := AllocPage(m0);
    m := m.(info := m.info[f := m.info[f].(mappedAddr := page)]);
    m := m.(spaces := m.spaces[c := m.spaces[c].(lists := m.spaces[c].lists[r.id := m.spaces[c].lists[r.id] + [f]])]);
    m := m.(phys := m.phys[f := Bytes(content)]);
    m := m.(phys := m.phys[leaf := Words(m.phys[leaf].words[Index(page, 1) := PTE(f, r.flags)])]);
    p := p0[f := Data(c, r.id)];
    assert m == m2;
  }

  lemma OnlyTablesAdded(m: Memory, p: Places, m': Memory, p': Places, c: nat, page: nat)
    requires OnlyTables(m, p, m', p') && Strict(m, p) && c in m.spaces
    requires OthersKept(m, m', c)
    ensures PageAdded(m, m', c, page)
    ensures page < LOWER_PAGES ==> SamePage(m, m', c, page)
  {
    forall z, q: nat | z in m.spaces && q < LOWER_PAGES
      ensures SamePage(m, m', z, q)
    {
      assert EntryOf(m', z, q) == EntryOf(m, z, q);
      if Present(EntryOf(m, z, q)) {
        ResidentFacts(m, p, z, q, 0, map[]);
        assert FrameKept(m, p, m', p', EntryOf(m, z, q).pfn);
      }
    }
  }

  lemma AddedTrans(m: Memory, m': Memory, m'': Memory, c: nat, page: nat)
    requires PageAdded(m, m', c, page) && PageAdded(m', m'', c, page)
    ensures PageAdded(m, m'', c, page)
  {
    forall z, q: nat | z in m.spaces && q < LOWER_PAGES && (z, q) != (c, page)
      ensures SamePage(m, m'', z, q)
    {
      assert SamePage(m, m', z, q) && SamePage(m', m'', z, q);
    }
    forall z | z in m.spaces && z != c
      ensures m''.spaces[z] == m.spaces[z]
    {
      assert m'.spaces[z] == m.spaces[z];
    }
  }

  /** One page of the parent is copied into the child's range. */
  method CopyPage(m0: Memory, ghost p0: Places, c: nat, page: nat, r: MappedRange, content: seq<byte>)
    returns (ok: bool, m: Memory, ghost p: Places)
    requires Strict(m0, p0) && c in m0.spaces && page < LOWER_PAGES && |content| == PAGE_SIZE
    requires Find(m0.spaces[c].ranges, page) == Some(r) && !Present(EntryOf(m0, c, page))
    ensures Strict(m, p) && PageAdded(m0, m, c, page)
    ensures ok ==>
              && EntryOf(m, c, page).flags == r.flags && Present(EntryOf(m, c, page))
              && EntryOf(m, c, page).pfn in m.phys && m.phys[EntryOf(m, c, page).pfn] == Bytes(content)
    ensures !ok ==> m.freelist == []
    ensures ok <==> Missing(m0, c, page) + 1 <= |m0.freelist|
    ensures ok ==> |m.freelist| + Missing(m0, c, page) + 1 == |m0.freelist|
    ensures ok && Missing(m0, c, page) == 0 ==> LeavesKept(m0, m, c)
  {
    StrictAnywhere(m0, p0, c);
    var leaf;
    leaf, m, p := FindTable(m0, p0, c, page, true, map[]);
    StrictAnywhere(m, p, c);
    OnlyTablesAdded(m0, p0, m, p, c, page);
    if leaf.None? || m.freelist == [] {
      return false, m, p;
    }
    ghost var m1 := m;
    assert SamePage(m0, m1, c, page);
    m, p := CopyIn(m, p, c, page, r, content, leaf.value);
    AddedTrans(m0, m1, m, c, page);
    return true, m, p;
  }

  // ---------------------------------------------------------------- the ranges of the child

  ghost predicate ForkedFrom(x: MappedRange, rs: seq<MappedRange>, n: nat) {
    exists j :: 0 <= j < n && j < |rs| && x == Forked(rs[j], x.id)
  }

  ghost predicate HasFork(cs: seq<MappedRange>, r: MappedRange) {
    exists x :: x in cs && x == Forked(r, x.id)
  }

  /** The child has a copy of each of the parent's first `n` ranges and nothing else. */
  ghost predicate ChildList(rs: seq<MappedRange>, n: nat, cs: seq<MappedRange>) {
    && n <= |rs|
    && (forall x {:trigger ForkedFrom(x, rs, n)} :: x in cs ==> ForkedFrom(x, rs, n))
    && (forall j {:trigger HasFork(cs, rs[j])} :: 0 <= j < n ==> HasFork(cs, rs[j]))
  }

  ghost predicate Done(rs: seq<MappedRange>, n: nat, q: nat) {
    exists j :: 0 <= j < n && j < |rs| && rs[j].Covers(q)
  }

  /** Page `q` is one of the first `k` pages of list `l`. */
  ghost predicate InPrefix(m0: Memory, l: seq<nat>, k: nat, q: nat) {
    exists i :: 0 <= i < k && i < |l| && l[i] in m0.info && m0.info[l[i]].mappedAddr == q
  }

  ghost predicate PageState(m0: Memory, m: Memory, s: nat, c: nat, n: nat, l: seq<nat>, k: nat, q: nat) {
    && s in m0.spaces
    && if Done(m0.spaces[s].ranges, n, q) || InPrefix(m0, l, k, q) then CopyRel(m0, m, s, c, q)
       else c in m.spaces && !Present(EntryOf(m, c, q))
  }

  /** Pages of the first `n` ranges, and the first `k` pages of range `n`, have been copied. */
  ghost predicate Filling(m0: Memory, p0: Places, m: Memory, p: Places, s: nat, c: nat, n: nat, l: seq<nat>, k: nat) {
    && Strict(m0, p0) && Strict(m, p) && Untouched(m0, m, c) && s in m0.spaces && n <= |m0.spaces[s].ranges|
    && forall q: nat {:trigger PageState(m0, m, s, c, n, l, k, q)} :: q < LOWER_PAGES ==> PageState(m0, m, s, c, n, l, k, q)
  }

  /** A frame on the list of a range is resident at a page of that range, under its flags. */
  lemma ListedFacts(m: Memory, p: Places, s: nat, r: MappedRange, f: nat)
    requires Strict(m, p) && s in m.spaces && r in m.spaces[s].ranges
    requires r.id in m.spaces[s].lists && f in m.spaces[s].lists[r.id]
    ensures f in m.info && f in m.phys && m.phys[f].Bytes? && |m.phys[f].bytes| == PAGE_SIZE
    ensures var q := m.info[f].mappedAddr; q < LOWER_PAGES && r.Covers(q) && EntryOf(m, s, q) == PTE(f, r.flags) && Present(EntryOf(m, s, q))
  {
    assert SpaceInv(m, p, s);
    assert PageListOk(m.spaces[s].lists[r.id], p, s, r.id);
    assert DataOk(m, p, f);
    assert EntryOk(m, p, s, m.info[f].mappedAddr, 0, map[]);
    ByIdUnique(m.spaces[s].ranges, m.freshId, r);
  }

  /** Conversely, a resident page of a range is on its list. */
  lemma ResidentListed(m: Memory, p: Places, s: nat, r: MappedRange, q: nat)
    requires Strict(m, p) && s in m.spaces && r in m.spaces[s].ranges && r.Covers(q) && q < LOWER_PAGES
    requires Present(EntryOf(m, s, q))
    ensures r.id in m.spaces[s].lists && EntryOf(m, s, q).pfn in m.spaces[s].lists[r.id]
    ensures EntryOf(m, s, q).pfn in m.info && m.info[EntryOf(m, s, q).pfn].mappedAddr == q
  {
    var f := EntryOf(m, s, q).pfn;
    ResidentFacts(m, p, s, q, 0, map[]);
    assert SpaceInv(m, p, s);
    assert EntryOk(m, p, s, q, 0, map[]);
    ByIdMember(m.spaces[s].ranges, p[f].range);
    FindUnique(m.spaces[s].ranges, q, r);
    FindUnique(m.spaces[s].ranges, q, ById(m.spaces[s].ranges, p[f].range).value);
    assert PageListOk(m.spaces[s].lists[r.id], p, s, r.id);
  }

  lemma AddedUntouched(m0: Memory, m1: Memory, m2: Memory, c: nat, page: nat)
    requires Untouched(m0, m1, c) && PageAdded(m1, m2, c, page)
    ensures Untouched(m0, m2, c)
  {
    forall z, q: nat | z in m0.spaces && q < LOWER_PAGES
      ensures SamePage(m0, m2, z, q)
    {
      assert SamePage(m0, m1, z, q) && SamePage(m1, m2, z, q);
    }
    forall z | z in m0.spaces
      ensures m2.spaces[z] == m0.spaces[z]
    {
      assert m1.spaces[z] == m0.spaces[z];
    }
  }

  lemma PrefixNext(m0: Memory, l: seq<nat>, k: nat, q: nat)
    requires k < |l|
    ensures InPrefix(m0, l, k + 1, q) <==> InPrefix(m0, l, k, q) || (l[k] in m0.info && m0.info[l[k]].mappedAddr == q)
  {
    if InPrefix(m0, l, k + 1, q) {
      var i :| 0 <= i < k + 1 && i < |l| && l[i] in m0.info && m0.info[l[i]].mappedAddr == q;
      assert i < k ==> InPrefix(m0, l, k, q);
    }
    if l[k] in m0.info && m0.info[l[k]].mappedAddr == q {
      assert 0 <= k < k + 1 && k < |l| && l[k] in m0.info && m0.info[l[k]].mappedAddr == q;
    }
  }

  /** The page about to be copied is still absent from the child. */
  lemma FillReady(m0: Memory, p0: Places, m: Memory, p: Places, s: nat, c: nat, n: nat, l: seq<nat>, k: nat)
    requires Filling(m0, p0, m, p, s, c, n, l, k) && n < |m0.spaces[s].ranges| && k < |l| && NoDup(l)
    requires m0.spaces[s].ranges[n].id in m0.spaces[s].lists && l == m0.spaces[s].lists[m0.spaces[s].ranges[n].id]
    ensures l[k] in m0.info && l[k] in m.info && m.info[l[k]] == m0.info[l[k]].(free := m.info[l[k]].free)
    ensures l[k] in m.phys && l[k] in m0.phys && m.phys[l[k]] == m0.phys[l[k]] && m.phys[l[k]].Bytes? && |m.phys[l[k]].bytes| == PAGE_SIZE
    ensures var q := m0.info[l[k]].mappedAddr;
            && q < LOWER_PAGES && m0.spaces[s].ranges[n].Covers(q) && !Present(EntryOf(m, c, q))
            && EntryOf(m0, s, q) == PTE(l[k], m0.spaces[s].ranges[n].flags) && Present(EntryOf(m0, s, q))
  {
    var rs, r, f := m0.spaces[s].ranges, m0.spaces[s].ranges[n], l[k];
    assert r in rs && f in l;
    ListedFacts(m0, p0, s, r, f);
    var q := m0.info[f].mappedAddr;
    assert SamePage(m0, m, s, q);
    assert EntryOk(m, p, s, q, 0, map[]);
    assert SpaceInv(m0, p0, s);
    assert !Done(rs, n, q) by {
      forall j | 0 <= j < n
        ensures !rs[j].Covers(q)
      {
        assert Apart(rs[j], rs[n]);
      }
    }
    assert !InPrefix(m0, l, k, q) by {
      forall i | 0 <= i < k && l[i] in m0.info
        ensures m0.info[l[i]].mappedAddr != q
      {
        assert l[i] in l;
        ListedFacts(m0, p0, s, r, l[i]);
      }
    }
    assert PageState(m0, m, s, c, n, l, k, q);
  }

  lemma FillNext(m0: Memory, p0: Places, m1: Memory, p1: Places, m2: Memory, p2: Places, s: nat, c: nat, n: nat, l: seq<nat>, k: nat)
    requires Filling(m0, p0, m1, p1, s, c, n, l, k) && n < |m0.spaces[s].ranges| && k < |l| && NoDup(l)
    requires m0.spaces[s].ranges[n].id in m0.spaces[s].lists && l == m0.spaces[s].lists[m0.spaces[s].ranges[n].id]
    requires l[k] in m0.info && Strict(m2, p2) && PageAdded(m1, m2, c, m0.info[l[k]].mappedAddr)
    requires var q := m0.info[l[k]].mappedAddr;
             && Present(EntryOf(m2, c, q)) && EntryOf(m2, c, q).flags == m0.spaces[s].ranges[n].flags
             && EntryOf(m2, c, q).pfn in m2.phys && l[k] in m0.phys && m2.phys[EntryOf(m2, c, q).pfn] == m0.phys[l[k]]
    ensures Filling(m0, p0, m2, p2, s, c, n, l, k + 1)
  {
    var rs, page := m0.spaces[s].ranges, m0.info[l[k]].mappedAddr;
    FillReady(m0, p0, m1, p1, s, c, n, l, k);
    AddedUntouched(m0, m1, m2, c, page);
    var k' := k + 1;
    forall q: nat | q < LOWER_PAGES
      ensures PageState(m0, m2, s, c, n, l, k', q)
    {
      PrefixNext(m0, l, k, q);
      assert PageState(m0, m1, s, c, n, l, k, q);
      if q != page {
        assert SamePage(m1, m2, c, q);
      }
    }
  }

  /** The child has the tables for a page that is resident in the parent. */
  lemma NothingMissing(m0: Memory, m: Memory, p: Places, s: nat, c: nat, q: nat)
    requires HasLeaves(m0, m, s, c) && Strict(m, p) && q < LOWER_PAGES && Present(EntryOf(m0, s, q))
    ensures Missing(m, c, q) == 0
  {
    assert SpaceInv(m, p, c);
    LowerIndex(q, 4);
    NoneMissing(m.phys, p, m.spaces[c].root, c, q, 4);
  }

  lemma LeavesStay(m0: Memory, m: Memory, m': Memory, s: nat, c: nat)
    requires HasLeaves(m0, m, s, c) && LeavesKept(m, m', c)
    ensures HasLeaves(m0, m', s, c)
  {
    forall q: nat | q < LOWER_PAGES && Present(EntryOf(m0, s, q))
      ensures Leaf(m'.phys, m'.spaces[c].root, q).Some?
    {
      assert Leaf(m'.phys, m'.spaces[c].root, q) == Leaf(m.phys, m.spaces[c].root, q);
    }
  }

  /** The first `k` pages of list `l` of the parent's range `n` have been copied, at the cost of one frame each of `frames`. */
  ghost predicate PagesCopied(m0: Memory, p0: Places, m: Memory, p: Places, s: nat, c: nat, n: nat, l: seq<nat>, k: nat,
                              cs: seq<MappedRange>, frames: nat)
  {
    && Filling(m0, p0, m, p, s, c, n, l, k) && c in m.spaces && m.spaces[c].ranges == cs
    && HasLeaves(m0, m, s, c) && |m.freelist| + k == frames
  }

  /** One turn of the inner loop of fork. */
  method CopyNth(ghost m0: Memory, ghost p0: Places, m1: Memory, ghost p1: Places, s: nat, c: nat, ghost n: nat, l: seq<nat>, k: nat,
                 ghost k': nat, r': MappedRange, ghost cs: seq<MappedRange>, ghost frames: nat)
    returns (ok: bool, m: Memory, ghost p: Places)
    requires PagesCopied(m0, p0, m1, p1, s, c, n, l, k, cs, frames) && k < |l| && k' == k + 1 && NoDup(l)
    requires n < |m0.spaces[s].ranges| && m0.spaces[s].ranges[n].id in m0.spaces[s].lists && l == m0.spaces[s].lists[m0.spaces[s].ranges[n].id]
    requires r' == Forked(m0.spaces[s].ranges[n], r'.id)
    requires forall q: nat :: m0.spaces[s].ranges[n].Covers(q) ==> Find(cs, q) == Some(r')
    ensures Strict(m, p) && Untouched(m0, m, c) && c in m.spaces && m.spaces[c].ranges == cs
    ensures ok <==> m1.freelist != []
    ensures ok ==> PagesCopied(m0, p0, m, p, s, c, n, l, k', cs, frames) && m.freshId == m1.freshId
    ensures !ok ==> m.freelist == []
  {
    FillReady(m0, p0, m1, p1, s, c, n, l, k);
    NothingMissing(m0, m1, p1, s, c, m0.info[l[k]].mappedAddr);
    var page, content := m1.info[l[k]].mappedAddr, m1.phys[l[k]].bytes;
    ok, m, p := CopyPage(m1, p1, c, page, r', content);
    AddedUntouched(m0, m1, m, c, page);
    if ok {
      FillNext(m0, p0, m1, p1, m, p, s, c, n, l, k);
      LeavesStay(m0, m1, m, s, c);
    }
  }

  /** The inner loop of fork: every page on the list of the parent's range `n` is copied. */
  method CopyPages(ghost m0: Memory, ghost p0: Places, m1: Memory, ghost p1: Places, s: nat, c: nat, ghost n: nat, id: nat, r': MappedRange)
    returns (ok: bool, m: Memory, ghost p: Places)
    requires Strict(m0, p0) && s in m0.spaces && n < |m0.spaces[s].ranges| && m0.spaces[s].ranges[n].id == id && id in m0.spaces[s].lists
    requires Filling(m0, p0, m1, p1, s, c, n, m0.spaces[s].lists[id], 0) && s in m1.spaces && m1.spaces[s] == m0.spaces[s]
    requires c in m1.spaces && r' == Forked(m0.spaces[s].ranges[n], r'.id)
    requires forall q: nat :: m0.spaces[s].ranges[n].Covers(q) ==> Find(m1.spaces[c].ranges, q) == Some(r')
    requires HasLeaves(m0, m1, s, c)
    ensures Strict(m, p) && Untouched(m0, m, c) && c in m.spaces && m.spaces[c].ranges == m1.spaces[c].ranges
    ensures ok ==> Filling(m0, p0, m, p, s, c, n, m0.spaces[s].lists[id], |m0.spaces[s].lists[id]|)
    ensures !ok ==> m.freelist == []
    ensures ok <==> |m0.spaces[s].lists[id]| <= |m1.freelist|
    ensures ok ==> HasLeaves(m0, m, s, c) && |m.freelist| + |m0.spaces[s].lists[id]| == |m1.freelist| && m.freshId == m1.freshId
  {
    m, p := m1, p1;
    var l := m.spaces[s].lists[id];
    ghost var cs, frames := m1.spaces[c].ranges, |m1.freelist|;
    assert NoDup(l) by {
      assert SpaceInv(m0, p0, s);
      assert PageListOk(m0.spaces[s].lists[id], p0, s, id);
    }
    var k := 0;
    while k < |l|
      invariant 0 <= k <= |l| && PagesCopied(m0, p0, m, p, s, c, n, l, k, cs, frames) && m.freshId == m1.freshId
    {
      var k' := k + 1;
      ok, m, p := CopyNth(m0, p0, m, p, s, c, n, l, k, k', r', cs, frames);
      if !ok {
        return;
      }
      k := k';
    }
    return true, m, p;
  }

  // ---------------------------------------------------------------- range after range

  /** The child mirrors the parent's first `n` ranges. */
  ghost predicate Forking(m0: Memory, p0: Places, m: Memory, p: Places, s: nat, c: nat, n: nat) {
    && Filling(m0, p0, m, p, s, c, n, [], 0)
    && c in m.spaces && ChildList(m0.spaces[s].ranges, n, m.spaces[c].ranges)
  }

  lemma DoneNext(rs: seq<MappedRange>, n: nat, q: nat)
    requires n < |rs|
    ensures Done(rs, n + 1, q) <==> Done(rs, n, q) || rs[n].Covers(q)
  {
    if Done(rs, n + 1, q) {
      var j :| 0 <= j < n + 1 && j < |rs| && rs[j].Covers(q);
      assert j < n ==> Done(rs, n, q);
    }
    if rs[n].Covers(q) {
      assert 0 <= n < n + 1 && n < |rs| && rs[n].Covers(q);
    }
  }

  /** When all its pages are copied, range `n` counts as done. */
  lemma RangeDone(m0: Memory, p0: Places, m: Memory, p: Places, s: nat, c: nat, n: nat, id: nat, q: nat)
    requires s in m0.spaces && n < |m0.spaces[s].ranges| && m0.spaces[s].ranges[n].id == id && id in m0.spaces[s].lists
    requires Filling(m0, p0, m, p, s, c, n, m0.spaces[s].lists[id], |m0.spaces[s].lists[id]|) && q < LOWER_PAGES
    ensures PageState(m0, m, s, c, n + 1, [], 0, q)
  {
    var rs, r, l := m0.spaces[s].ranges, m0.spaces[s].ranges[n], m0.spaces[s].lists[id];
    assert r in rs;
    DoneNext(rs, n, q);
    assert PageState(m0, m, s, c, n, l, |l|, q);
    if InPrefix(m0, l, |l|, q) {
      var i :| 0 <= i < |l| && l[i] in m0.info && m0.info[l[i]].mappedAddr == q;
      assert l[i] in l;
      ListedFacts(m0, p0, s, r, l[i]);
    } else if r.Covers(q) && Present(EntryOf(m0, s, q)) {
      ResidentListed(m0, p0, s, r, q);
    }
  }

  function ForkArgs(r: MappedRange): Args {
    Args(r.base, r.length, r.flags, r.kind, r.phyBase, r.file, r.fileOffset, false, false, false)
  }

  /** Before its pages are copied, a new range of the child changes no word and no byte anywhere. */
  lemma LinkedSamePage(m1: Memory, p1: Places, m2: Memory, p2: Places, c: nat, args: Args, added: Added, z: nat, q: nat)
    requires Strict(m1, p1) && Finished(m1, p1, m2, p2, c, args, added) && z in m1.spaces && q < LOWER_PAGES
    requires args.Inside(q) ==> !Present(EntryOf(m1, c, q))
    ensures SamePage(m1, m2, z, q)
  {
    assert EntryOf(m2, z, q) == EntryOf(m1, z, q);
    if Present(EntryOf(m1, z, q)) {
      ResidentFacts(m2, p2, z, q, 0, map[]);
      assert ContentsKept(m1, p1, m2, p2, EntryOf(m1, z, q).pfn);
    }
  }

  lemma ForkApart(rs: seq<MappedRange>, n: nat, cs: seq<MappedRange>)
    requires Disjoint(rs) && n < |rs| && ChildList(rs, n, cs)
    ensures NoOverlap(cs, ForkArgs(rs[n]))
  {
    forall x | x in cs
      ensures !x.Overlaps(rs[n].base, rs[n].End())
    {
      assert ForkedFrom(x, rs, n);
      var j :| 0 <= j < n && j < |rs| && x == Forked(rs[j], x.id);
      assert Apart(rs[j], rs[n]);
    }
  }

  lemma ChildListNext(rs: seq<MappedRange>, n: nat, cs: seq<MappedRange>, id: nat)
    requires n < |rs| && ChildList(rs, n, cs)
    ensures ChildList(rs, n + 1, Insert(cs, Forked(rs[n], id)))
  {
    var cs' := Insert(cs, Forked(rs[n], id));
    InsertMembers(cs, Forked(rs[n], id));
    forall x | x in cs'
      ensures ForkedFrom(x, rs, n + 1)
    {
      if x in cs {
        assert ForkedFrom(x, rs, n);
        var j :| 0 <= j < n && j < |rs| && x == Forked(rs[j], x.id);
        assert 0 <= j < n + 1 && j < |rs| && x == Forked(rs[j], x.id);
      } else {
        assert 0 <= n < n + 1 && n < |rs| && x == Forked(rs[n], x.id);
      }
    }
    forall j | 0 <= j < n + 1
      ensures HasFork(cs', rs[j])
    {
      if j < n {
        assert HasFork(cs, rs[j]);
        var x :| x in cs && x == Forked(rs[j], x.id);
        assert x in cs';
      } else {
        assert Forked(rs[n], id) in cs';
      }
    }
  }

  lemma LinkForked(m0: Memory, p0: Places, m1: Memory, p1: Places, m2: Memory, p2: Places, s: nat, c: nat, n: nat, l: seq<nat>)
    requires Forking(m0, p0, m1, p1, s, c, n) && n < |m0.spaces[s].ranges|
    requires Finished(m1, p1, m2, p2, c, ForkArgs(m0.spaces[s].ranges[n]),
                      Added(Insert(m1.spaces[c].ranges, Forked(m0.spaces[s].ranges[n], m1.freshId)), m1.freshId + 1))
    ensures Filling(m0, p0, m2, p2, s, c, n, l, 0) && s in m2.spaces && m2.spaces[s] == m0.spaces[s]
  {
    var rs, r := m0.spaces[s].ranges, m0.spaces[s].ranges[n];
    var args, added := ForkArgs(r), Added(Insert(m1.spaces[c].ranges, Forked(r, m1.freshId)), m1.freshId + 1);
    assert SpaceInv(m0, p0, s);
    forall q: nat | q < LOWER_PAGES
      ensures r.Covers(q) ==> !Present(EntryOf(m1, c, q))
    {
      assert PageState(m0, m1, s, c, n, [], 0, q);
      if r.Covers(q) {
        NotDone(rs, m0.freshId, n, q);
      }
    }
    forall z, q: nat | z in m1.spaces && q < LOWER_PAGES
      ensures SamePage(m1, m2, z, q)
    {
      LinkedSamePage(m1, p1, m2, p2, c, args, added, z, q);
    }
    forall z, q: nat | z in m0.spaces && q < LOWER_PAGES
      ensures SamePage(m0, m2, z, q)
    {
      assert SamePage(m0, m1, z, q) && SamePage(m1, m2, z, q);
    }
    forall z | z in m0.spaces
      ensures m2.spaces[z] == m0.spaces[z]
    {
      assert m1.spaces[z] == m0.spaces[z];
    }
    forall q: nat | q < LOWER_PAGES
      ensures PageState(m0, m2, s, c, n, l, 0, q)
    {
      assert PageState(m0, m1, s, c, n, [], 0, q);
      assert SamePage(m1, m2, c, q);
    }
  }

  lemma NotDone(rs: seq<MappedRange>, freshId: nat, n: nat, q: nat)
    requires ListOk(rs, freshId) && n < |rs| && rs[n].Covers(q)
    ensures !Done(rs, n, q)
  {
    forall j | 0 <= j < n
      ensures !rs[j].Covers(q)
    {
      assert Apart(rs[j], rs[n]);
    }
  }

  /** add_range links the child's version of range `n`. */
  method LinkFork(ghost m0: Memory, ghost p0: Places, m1: Memory, ghost p1: Places, s: nat, c: nat, ghost n: nat, r: MappedRange)
    returns (m: Memory, ghost p: Places)
    requires Forking(m0, p0, m1, p1, s, c, n) && n < |m0.spaces[s].ranges| && r == m0.spaces[s].ranges[n]
    ensures c in m1.spaces && c in m.spaces && m.spaces[c].ranges == Insert(m1.spaces[c].ranges, Forked(r, m1.freshId))
    ensures Finished(m1, p1, m, p, c, ForkArgs(r), Added(Insert(m1.spaces[c].ranges, Forked(r, m1.freshId)), m1.freshId + 1))
    ensures FramesAlone(m1, m)
  {
    assert SpaceInv(m0, p0, s) && r in m0.spaces[s].ranges && RangeOk(r) && r.WellFormed();
    ForkApart(m0.spaces[s].ranges, n, m1.spaces[c].ranges);
    m, p := AddRangeOps.AddRange(m1, p1, c, ForkArgs(r));
  }

  /** The number of resident pages of range `n`. */
  function PagesOf(sp: Space, n: nat): nat
    requires n < |sp.ranges|
  {
    if sp.ranges[n].id in sp.lists then |sp.lists[sp.ranges[n].id]| else 0
  }

  /** One iteration of the outer loop of fork. */
  method CopyRange(ghost m0: Memory, ghost p0: Places, m1: Memory, ghost p1: Places, s: nat, c: nat, n: nat)
    returns (ok: bool, m: Memory, ghost p: Places)
    requires Forking(m0, p0, m1, p1, s, c, n) && n < |m0.spaces[s].ranges| && s in m1.spaces && m1.spaces[s] == m0.spaces[s]
    requires HasLeaves(m0, m1, s, c)
    ensures Strict(m, p) && Untouched(m0, m, c) && c in m.spaces
    ensures ok ==> Forking(m0, p0, m, p, s, c, n + 1) && s in m.spaces && m.spaces[s] == m0.spaces[s] && HasLeaves(m0, m, s, c)
    ensures !ok ==> m.freelist == []
    ensures ok <==> PagesOf(m0.spaces[s], n) <= |m1.freelist|
    ensures ok ==> |m.freelist| + PagesOf(m0.spaces[s], n) == |m1.freelist| && m.freshId == m1.freshId + 1
    ensures c in m1.spaces && m.spaces[c].ranges == Insert(m1.spaces[c].ranges, Forked(m0.spaces[s].ranges[n], m1.freshId))
  {
    var r := m1.spaces[s].ranges[n];
    HasList(m0, p0, s, r);
    m, p := LinkFork(m0, p0, m1, p1, s, c, n, r);
    var r' := Forked(r, m1.freshId);
    LinkForked(m0, p0, m1, p1, m, p, s, c, n, m0.spaces[s].lists[r.id]);
    LeavesStay(m0, m1, m, s, c);
    ChildListNext(m0.spaces[s].ranges, n, m1.spaces[c].ranges, m1.freshId);
    FoundForked(m1, p1, m, p, c, r');
    ok, m, p := CopyPages(m0, p0, m, p, s, c, n, r.id, r');
    if ok {
      NextForking(m0, p0, m, p, s, c, n, r.id);
    }
  }

  lemma HasList(m: Memory, p: Places, s: nat, r: MappedRange)
    requires Strict(m, p) && s in m.spaces && r in m.spaces[s].ranges
    ensures r.id in m.spaces[s].lists
  {
    assert SpaceInv(m, p, s);
    ByIdUnique(m.spaces[s].ranges, m.freshId, r);
  }

  lemma FoundForked(m1: Memory, p1: Places, m2: Memory, p2: Places, c: nat, r': MappedRange)
    requires Strict(m2, p2) && c in m1.spaces && c in m2.spaces && m2.spaces[c].ranges == Insert(m1.spaces[c].ranges, r')
    ensures forall q: nat :: r'.Covers(q) ==> Find(m2.spaces[c].ranges, q) == Some(r')
  {
    assert SpaceInv(m2, p2, c);
    InsertMembers(m1.spaces[c].ranges, r');
    forall q: nat | r'.Covers(q)
      ensures Find(m2.spaces[c].ranges, q) == Some(r')
    {
      FindUnique(m2.spaces[c].ranges, q, r');
    }
  }

  lemma NextForking(m0: Memory, p0: Places, m: Memory, p: Places, s: nat, c: nat, n: nat, id: nat)
    requires s in m0.spaces && n < |m0.spaces[s].ranges| && m0.spaces[s].ranges[n].id == id && id in m0.spaces[s].lists
    requires Filling(m0, p0, m, p, s, c, n, m0.spaces[s].lists[id], |m0.spaces[s].lists[id]|)
    ensures Filling(m0, p0, m, p, s, c, n + 1, [], 0) && s in m.spaces && m.spaces[s] == m0.spaces[s]
  {
    var n' := n + 1;
    forall q: nat | q < LOWER_PAGES
      ensures PageState(m0, m, s, c, n', [], 0, q)
    {
      RangeDone(m0, p0, m, p, s, c, n, id, q);
    }
  }
}
