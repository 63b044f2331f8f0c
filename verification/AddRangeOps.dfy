/** The method add_range, proved against the list function of module Ranges and the frame invariant. */
module AddRangeOps {
  import opened Common
  import opened Ranges
  import opened PageTable
  import opened Memory
  import opened Invalidate
  import opened Reshape
  import opened Vmm
  import opened RangeOps

  /** The word of a page in the window once add_range is done. */
  ghost function WindowWord(rs0: seq<MappedRange>, args: Args, q: nat, e: PTE): PTE {
    if !Present(e) then e
    else if args.kind == NoRange || (Find(rs0, q).Some? && Classify(Find(rs0, q).value, args) == Covered) then EMPTY
    else PTE(e.pfn, args.flags)
  }

  /** Translations outside the window are untouched; inside, frames are kept unless their range was covered whole or removed. */
  ghost predicate WindowEntries(m0: Memory, m: Memory, s: nat, args: Args)
    requires s in m0.spaces && m.spaces.Keys == m0.spaces.Keys
  {
    forall z, q: nat {:trigger EntryOf(m, z, q)} :: z in m0.spaces && q < LOWER_PAGES ==>
      EntryOf(m, z, q) ==
      if z == s && args.Inside(q) then WindowWord(m0.spaces[s].ranges, args, q, EntryOf(m0, z, q)) else EntryOf(m0, z, q)
  }

  // ---------------------------------------------------------------- list positions

  /** The insertion point: after the last element, or after the first one whose successor starts beyond `base`. */
  method FindInsertIndex(rs: seq<MappedRange>, base: nat) returns (k: nat)
    ensures k == InsertIndex(rs, base)
  {
    if rs == [] {
      return 0;
    }
    k := 1;
    while k < |rs| && rs[k].base <= base
      invariant 1 <= k <= |rs| && InsertFrom(rs, 1, base) == InsertFrom(rs, k, base)
    {
      k := k + 1;
    }
  }

  method FindMergeIndex(rs: seq<MappedRange>, args: Args) returns (k: Option<nat>)
    ensures k == MergeIndex(rs, args)
  {
    if !args.merge || args.kind != Anonymous {
      return None;
    }
    var i := 0;
    while i < |rs|
      invariant 0 <= i <= |rs| && MergeFrom(rs, 0, args) == MergeFrom(rs, i, args)
    {
      if Mergeable(rs[i], args) {
        return Some(i);
      }
      i := i + 1;
    }
    return None;
  }

  // ---------------------------------------------------------------- one iteration of the overlap loop

  method DeleteCovered(ghost m0: Memory, ghost p0: Places, m1: Memory, ghost p1: Places, s: nat, args: Args,
                       ghost scan: Scan, i: nat, ghost loose: map<nat, nat>)
    returns (m: Memory, ghost p: Places)
    requires Resolving(m0, p0, m1, p1, s, args, scan, loose) && i == scan.next < |scan.rs|
    requires Classify(scan.rs[i], args) == Covered
    ensures Resolving(m0, p0, m, p, s, args, StepScan(scan, args), loose)
  {
    var r := m1.spaces[s].ranges[i];
    CoveredFacts(m0, p0, m1, p1, s, args, scan, loose);
    m, p := InvalidatePages(m1, p1, s, r.base, r.length, None, loose);
    CoveredStep(m0, p0, m1, p1, m, p, s, args, scan, loose);
    // the destructor unlinks the range; its page list is empty by now
    var sp := m.spaces[s];
    m := m.(spaces := m.spaces[s := sp.(ranges := sp.ranges[..i] + sp.ranges[i+1..], lists := sp.lists - {r.id}, cached := None)]);
  }

  /** The end of add_range: a new range object with an empty page list is linked into the list. */
  method LinkRange(m0: Memory, s: nat, args: Args) returns (r: MappedRange, k: nat, m: Memory)
    requires s in m0.spaces
    ensures r == MakeRange(args, m0.freshId) && k == InsertIndex(m0.spaces[s].ranges, args.base)
    ensures m == WithSpace(m0, s, m0.spaces[s].(ranges := Insert(m0.spaces[s].ranges, r),
                                               lists := m0.spaces[s].lists[r.id := []]), m0.freshId + 1)
  {
    var sp := m0.spaces[s];
    r := MappedRange(m0.freshId, args.base, args.base, args.length, args.flags, args.kind, args.phyBase, args.file, args.fileOffset);
    k := FindInsertIndex(sp.ranges, r.base);
    m := m0.(spaces := m0.spaces[s := sp.(ranges := sp.ranges[..k] + [r] + sp.ranges[k..], lists := sp.lists[r.id := []])],
             freshId := m0.freshId + 1);
  }

  /** The list part of a split: shorten the range, link the right part as a range of its own. */
  method CutRange(m0: Memory, s: nat, args: Args, i: nat) returns (right: MappedRange, next: nat, m: Memory)
    requires s in m0.spaces && i < |m0.spaces[s].ranges| && Classify(m0.spaces[s].ranges[i], args) == Split
    ensures var r := m0.spaces[s].ranges[i];
            && right == SplitRange(r, args, m0.freshId)
            && m == SplitMemory(m0, s, i, TrimmedRight(r, args), right)
            && next == StepScan(Scan(m0.spaces[s].ranges, i, m0.freshId, false), args).next
  {
    var sp := m0.spaces[s];
    var r := sp.ranges[i];
    var k;
    m := m0.(spaces := m0.spaces[s := sp.(ranges := sp.ranges[i := r.(length := args.base - r.base)], cached := None)]);
    right, k, m := LinkRange(m, s, SplitArgs(r, args));
    next := if k <= i + 1 then i + 2 else i + 1;
    assert m.spaces == SplitMemory(m0, s, i, TrimmedRight(r, args), right).spaces;
  }

  /** The resident pages of the right part follow it. */
  method MoveRight(m0: Memory, ghost p0: Places, s: nat, right: MappedRange, ghost listed: map<nat, nat>)
    returns (m: Memory, ghost p: Places)
    requires Inv(m0, p0, s, listed) && s in m0.spaces && right.End() <= LOWER_PAGES && TargetOk(m0.spaces[s], right)
    ensures Inv(m, p, s, Outside(listed, right.base, right.End())) && Invalidated(m0, p0, m, p, s, right.base, right.End(), Some(right))
  {
    m, p := InvalidatePages(m0, p0, s, right.base, right.length, Some(right), listed);
  }

  method SplitInTwo(ghost m0: Memory, ghost p0: Places, m1: Memory, ghost p1: Places, s: nat, args: Args,
                    ghost scan: Scan, i: nat, ghost loose: map<nat, nat>)
    returns (next: nat, m: Memory, ghost p: Places)
    requires Resolving(m0, p0, m1, p1, s, args, scan, loose) && i == scan.next < |scan.rs|
    requires Classify(scan.rs[i], args) == Split
    ensures Resolving(m0, p0, m, p, s, args, StepScan(scan, args), Listed(args.base, args.End(), scan.rs[i].id))
    ensures next == StepScan(scan, args).next
  {
    ghost var r := scan.rs[scan.next];
    assert m1.spaces[s].ranges == scan.rs && m1.freshId == scan.freshId;
    ghost var listed := Listed(args.base, r.End(), r.id);
    SplitInv(m0, p0, m1, p1, s, args, scan, loose);
    var right;
    right, next, m := CutRange(m1, s, args, i);
    ghost var mid := SplitMemory(m1, s, scan.next, TrimmedRight(r, args), right);
    assert m == mid && right == SplitRange(r, args, scan.freshId);
    m, p := MoveRight(m, p1, s, right, listed);
    SplitStep(m0, p0, m1, p1, mid, right, listed, right.End(), m, p, s, args, scan, loose);
  }

  method TrimRange(ghost m0: Memory, ghost p0: Places, m1: Memory, ghost p1: Places, s: nat, args: Args,
                   ghost scan: Scan, i: nat, ghost loose: map<nat, nat>)
    returns (m: Memory, ghost loose': map<nat, nat>)
    requires Resolving(m0, p0, m1, p1, s, args, scan, loose) && i == scan.next < |scan.rs|
    requires Classify(scan.rs[i], args) == TrimLeft || Classify(scan.rs[i], args) == TrimRight
    ensures Resolving(m0, p0, m, p1, s, args, StepScan(scan, args), loose')
  {
    var sp := m1.spaces[s];
    var r := sp.ranges[i];
    assert sp.ranges == scan.rs;
    if args.base <= r.base {
      var overlap := args.End() - r.base;
      m := m1.(spaces := m1.spaces[s := sp.(ranges := sp.ranges[i := r.(base := r.base + overlap, length := r.length - overlap)], cached := None)]);
      loose' := Cut(loose, r.base, args.End(), r.id);
      assert m.spaces[s].ranges == scan.rs[i := TrimmedLeft(r, args)];
      TrimStep(m0, p0, m1, p1, s, args, scan, loose, TrimmedLeft(r, args), r.base, args.End());
    } else {
      m := m1.(spaces := m1.spaces[s := sp.(ranges := sp.ranges[i := r.(length := r.length - (r.End() - args.base))], cached := None)]);
      loose' := Cut(loose, args.base, r.End(), r.id);
      assert m.spaces[s].ranges == scan.rs[i := TrimmedRight(r, args)];
      TrimStep(m0, p0, m1, p1, s, args, scan, loose, TrimmedRight(r, args), args.base, r.End());
    }
  }

  lemma SkipStep(m0: Memory, p0: Places, m: Memory, p: Places, s: nat, args: Args, scan: Scan, loose: map<nat, nat>)
    requires Resolving(m0, p0, m, p, s, args, scan, loose) && scan.next < |scan.rs|
    requires Classify(scan.rs[scan.next], args) == Skip
    ensures Resolving(m0, p0, m, p, s, args, StepScan(scan, args), loose)
  {
    StepOk(scan, args);
  }

  /** One iteration for a range that is not an exact cover. */
  method ResolveOne(ghost m0: Memory, ghost p0: Places, m1: Memory, ghost p1: Places, s: nat, args: Args,
                    ghost scan: Scan, i: nat, ghost loose1: map<nat, nat>)
    returns (next: nat, overlaps: bool, m: Memory, ghost p: Places, ghost loose: map<nat, nat>)
    requires Resolving(m0, p0, m1, p1, s, args, scan, loose1) && i == scan.next < |scan.rs|
    requires Classify(scan.rs[i], args) != Exact
    ensures Resolving(m0, p0, m, p, s, args, StepScan(scan, args), loose)
    ensures next == StepScan(scan, args).next && overlaps == (Classify(scan.rs[i], args) != Skip)
  {
    m, p, loose, next := m1, p1, loose1, i;
    var r := m.spaces[s].ranges[i];
    overlaps := true;
    if args.base >= r.End() || args.End() <= r.base {
      SkipStep(m0, p0, m, p, s, args, scan, loose);
      next, overlaps := i + 1, false;
    } else if args.base <= r.base && args.End() >= r.End() {
      m, p := DeleteCovered(m0, p0, m, p, s, args, scan, i, loose);
    } else if args.base <= r.base || args.End() >= r.End() {
      m, loose := TrimRange(m0, p0, m, p, s, args, scan, i, loose);
      next := i + 1;
    } else {
      next, m, p := SplitInTwo(m0, p0, m, p, s, args, scan, i, loose);
      loose := Listed(args.base, args.End(), r.id);
    }
  }

  /**
    One pass of the overlap loop. It ends at an exact cover, or with the window clear of all ranges;
    `need` tells whether anything overlapped.
   */
  method ResolvePass(ghost m0: Memory, ghost p0: Places, m1: Memory, ghost p1: Places, s: nat, args: Args,
                     ghost scan0: Scan, ghost loose0: map<nat, nat>)
    returns (exact: Option<nat>, need: bool, m: Memory, ghost p: Places, ghost scan: Scan, ghost loose: map<nat, nat>)
    requires Resolving(m0, p0, m1, p1, s, args, scan0, loose0) && scan0.next == 0
    ensures Resolving(m0, p0, m, p, s, args, scan, loose)
    ensures RunPass(scan, args) == RunPass(scan0, args)
    ensures exact.Some? ==> scan.next == exact.value < |scan.rs| && Classify(scan.rs[exact.value], args) == Exact
    ensures exact.None? ==> RunPass(scan0, args) == Done(scan) && NoOverlap(scan.rs, args)
    ensures scan.overlap == (scan0.overlap || need)
    ensures NoOverlap(scan0.rs, args) ==> !need && exact.None?
  {
    m, p, scan, loose, need := m1, p1, scan0, loose0, false;
    var i := 0;
    while i < |m.spaces[s].ranges|
      invariant Resolving(m0, p0, m, p, s, args, scan, loose) && s in m.spaces
      invariant i == scan.next <= |scan.rs| && scan.rs == m.spaces[s].ranges
      invariant RunPass(scan, args) == RunPass(scan0, args)
      invariant scan.overlap == (scan0.overlap || need)
      invariant NoOverlap(scan0.rs, args) ==> !need && scan.rs == scan0.rs
      decreases Work(scan.rs[scan.next..], args)
    {
      var r := m.spaces[s].ranges[i];
      if Classify(r, args) == Exact {
        return Some(i), need, m, p, scan, loose;
      }
      assert r in scan.rs;
      StepProgress(scan, args);
      var overlaps;
      i, overlaps, m, p, loose := ResolveOne(m0, p0, m, p, s, args, scan, i, loose);
      need := need || overlaps;
      scan := StepScan(scan, args);
    }
    return None, need, m, p, scan, loose;
  }

  // ---------------------------------------------------------------- start and end

  lemma StartResolving(m0: Memory, p0: Places, s: nat, args: Args)
    requires Strict(m0, p0) && s in m0.spaces
    ensures Resolving(m0, p0, m0.(spaces := m0.spaces[s := m0.spaces[s].(cached := None)]), p0, s, args,
                      Scan(m0.spaces[s].ranges, 0, m0.freshId, false), map[])
  {
    var m := m0.(spaces := m0.spaces[s := m0.spaces[s].(cached := None)]);
    CacheInv(m0, p0, s, None);
    StrictAnywhere(m, p0, s);
    assert SpaceInv(m0, p0, s);
    forall z, q: nat | z in m0.spaces && q < LOWER_PAGES
      ensures EntryOf(m, z, q) == EntryOf(m0, z, q) && !Gone(m0.spaces[s].ranges, m0.spaces[s].ranges, args, q)
    {
      FindMember(m0.spaces[s].ranges, q);
    }
    forall f
      ensures ContentsKept(m0, p0, m, p0, f)
    {
      if f in p0 && p0[f].Data? {
        assert DataOk(m0, p0, f);
      }
    }
  }

  /** After the last pass, what is gone is what was covered. */
  lemma GoneIsCovered(m0: Memory, p0: Places, m: Memory, p: Places, s: nat, args: Args, scan: Scan, loose: map<nat, nat>, q: nat)
    requires Resolving(m0, p0, m, p, s, args, scan, loose) && NoOverlap(scan.rs, args)
    ensures Gone(m0.spaces[s].ranges, scan.rs, args, q) <==>
            Find(m0.spaces[s].ranges, q).Some? && Classify(Find(m0.spaces[s].ranges, q).value, args) == Covered
    ensures Gone(m0.spaces[s].ranges, scan.rs, args, q) ==> args.Inside(q)
  {
    FindMember(m0.spaces[s].ranges, q);
  }

  ghost predicate TargetFits(target: Option<MappedRange>, args: Args) {
    if target.Some? then target.value.flags == args.flags && args.kind != NoRange else args.kind == NoRange
  }

  lemma FinishEntries(m0: Memory, p0: Places, m: Memory, p: Places, s: nat, args: Args, scan: Scan, loose: map<nat, nat>,
                      m1: Memory, m2: Memory, target: Option<MappedRange>)
    requires Resolving(m0, p0, m, p, s, args, scan, loose) && NoOverlap(scan.rs, args) && TargetFits(target, args)
    requires m1.phys == m.phys && m1.spaces.Keys == m.spaces.Keys && OthersKept(m, m1, s) && m1.spaces[s].root == m.spaces[s].root
    requires m2.spaces.Keys == m1.spaces.Keys && EntriesAfter(m1, m2, s, args.base, args.End(), target)
    ensures WindowEntries(m0, m2, s, args)
  {
    forall z, q: nat | z in m0.spaces && q < LOWER_PAGES
      ensures EntryOf(m2, z, q) ==
              if z == s && args.Inside(q) then WindowWord(m0.spaces[s].ranges, args, q, EntryOf(m0, z, q)) else EntryOf(m0, z, q)
    {
      assert m1.spaces[z].root == m.spaces[z].root;
      assert EntryOf(m1, z, q) == EntryOf(m, z, q);
      FinishWord(m0, p0, m, p, s, args, scan, loose, target, z, q);
    }
  }

  /** The word of one page, once the frames of the window are handed over. */
  lemma FinishWord(m0: Memory, p0: Places, m: Memory, p: Places, s: nat, args: Args, scan: Scan, loose: map<nat, nat>,
                   target: Option<MappedRange>, z: nat, q: nat)
    requires Resolving(m0, p0, m, p, s, args, scan, loose) && NoOverlap(scan.rs, args) && TargetFits(target, args)
    requires z in m0.spaces && q < LOWER_PAGES
    ensures (if z == s && args.Inside(q) then AfterWord(EntryOf(m, z, q), target) else EntryOf(m, z, q)) ==
            if z == s && args.Inside(q) then WindowWord(m0.spaces[s].ranges, args, q, EntryOf(m0, z, q)) else EntryOf(m0, z, q)
  {
    GoneIsCovered(m0, p0, m, p, s, args, scan, loose, q);
    assert EntryOf(m, z, q) == EntryOf(m, z, q);
  }

  /** Without an overlap no page of the window was resident, so there is nothing to invalidate. */
  lemma IdleEntries(m0: Memory, p0: Places, m: Memory, p: Places, s: nat, args: Args, scan: Scan, loose: map<nat, nat>, m1: Memory)
    requires Resolving(m0, p0, m, p, s, args, scan, loose) && NoOverlap(scan.rs, args) && !scan.overlap
    requires m1.phys == m.phys && m1.spaces.Keys == m.spaces.Keys && OthersKept(m, m1, s) && m1.spaces[s].root == m.spaces[s].root
    ensures WindowEntries(m0, m1, s, args)
  {
    forall z, q: nat | z in m0.spaces && q < LOWER_PAGES
      ensures EntryOf(m1, z, q) ==
              if z == s && args.Inside(q) then WindowWord(m0.spaces[s].ranges, args, q, EntryOf(m0, z, q)) else EntryOf(m0, z, q)
    {
      assert m1.spaces[z].root == m.spaces[z].root;
      assert EntryOf(m1, z, q) == EntryOf(m, z, q);
      assert EntryOk(m, p, z, q, s, map[]);
      FindMember(scan.rs, q);
      if z == s && Present(EntryOf(m, z, q)) {
        ByIdMember(scan.rs, p[EntryOf(m, z, q).pfn].range);
      }
    }
  }

  lemma LooseInWindow(rs: seq<MappedRange>, args: Args, loose: map<nat, nat>)
    requires LooseOk(rs, args, loose)
    ensures Outside(loose, args.base, args.End()) == map[]
  {
    forall q | q in loose
      ensures args.Inside(q)
    {
      assert LoosePage(rs, args, q, loose[q]);
    }
  }

  /** The state after the list edit of the last part of add_range, with no frame moved yet. */
  ghost predicate Edit(m: Memory, m1: Memory, p: Places, s: nat, loose: map<nat, nat>) {
    && Inv(m1, p, s, loose) && s in m.spaces
    && m1.phys == m.phys && m1.spaces.Keys == m.spaces.Keys && OthersKept(m, m1, s)
    && m1.spaces[s] == m.spaces[s].(ranges := m1.spaces[s].ranges, lists := m1.spaces[s].lists)
  }

  /** Hands the resident pages of the window to the target range, or frees them. */
  method Settle(ghost m0: Memory, ghost p0: Places, ghost m1: Memory, ghost p1: Places, m2: Memory, s: nat, args: Args,
                ghost scan: Scan, ghost loose: map<nat, nat>, invalidate: bool, target: Option<MappedRange>)
    returns (m: Memory, ghost p: Places)
    requires Resolving(m0, p0, m1, p1, s, args, scan, loose) && NoOverlap(scan.rs, args) && OpArgs(args)
    requires Edit(m1, m2, p1, s, loose) && (scan.overlap ==> invalidate) && TargetFits(target, args)
    requires target.Some? ==> TargetOk(m2.spaces[s], target.value) && target.value.base <= args.base && args.End() <= target.value.End()
    ensures Strict(m, p) && m.spaces.Keys == m0.spaces.Keys && OthersKept(m0, m, s)
    ensures m.spaces[s] == m2.spaces[s].(lists := m.spaces[s].lists) && m.freshId == m2.freshId
    ensures WindowEntries(m0, m, s, args) && AllContentsKept(m0, p0, m, p)
    ensures !invalidate ==> m == m2
  {
    SettleFacts(m0, p0, m1, p1, m2, s, args, scan, loose, loose);
    m, p := m2, p1;
    if invalidate {
      m, p := InvalidatePages(m, p, s, args.base, args.length, target, loose);
      FinishEntries(m0, p0, m1, p1, s, args, scan, loose, m2, m, target);
      LooseInWindow(scan.rs, args, loose);
      StrictAnywhere(m, p, s);
      ContentsTrans(m0, p0, m2, p1, m, p);
    } else {
      IdleEntries(m0, p0, m1, p1, s, args, scan, loose, m2);
      StrictAnywhere(m, p, s);
    }
  }

  lemma SettleFacts(m0: Memory, p0: Places, m1: Memory, p1: Places, m2: Memory, s: nat, args: Args, scan: Scan,
                    loose: map<nat, nat>, loose': map<nat, nat>)
    requires Resolving(m0, p0, m1, p1, s, args, scan, loose) && Edit(m1, m2, p1, s, loose')
    ensures OthersKept(m0, m2, s) && AllContentsKept(m0, p0, m2, p1)
  {
    forall f
      ensures ContentsKept(m0, p0, m2, p1, f)
    {
      assert ContentsKept(m0, p0, m1, p1, f);
    }
    forall z | z in m0.spaces && z != s
      ensures m2.spaces[z] == m0.spaces[z]
    {
      assert m1.spaces[z] == m0.spaces[z];
    }
  }

  lemma MergeEdit(m0: Memory, p0: Places, m: Memory, p: Places, s: nat, args: Args, scan: Scan, loose: map<nat, nat>, i: nat)
    requires Resolving(m0, p0, m, p, s, args, scan, loose) && NoOverlap(scan.rs, args) && OpArgs(args)
    requires i < |scan.rs| && Mergeable(scan.rs[i], args) && args.kind == Anonymous
    ensures var r' := Merged(scan.rs[i], args);
            var m1 := m.(spaces := m.spaces[s := m.spaces[s].(ranges := scan.rs[i := r'])]);
            Edit(m, m1, p, s, loose) && TargetOk(m1.spaces[s], r')
  {
    var r, r' := scan.rs[i], Merged(scan.rs[i], args);
    assert r in scan.rs && SpaceInv(m, p, s) && RangeOk(r);
    MergeOk(scan.rs, scan.freshId, args, i);
    forall q: nat | q in loose
      ensures !r.Covers(q)
    {
      assert LoosePage(scan.rs, args, q, loose[q]);
      FindMember(scan.rs, q);
    }
    ReplaceInv(m, p, s, i, r', loose, args.base, args.base);
    assert Cut(loose, args.base, args.base, r'.id) == loose;
    ReplaceMembers(scan.rs, i, r');
    ExchangedIds(scan.rs, scan.rs[i := r'], scan.freshId, r, r', r'.id);
    ByIdUnique(scan.rs, scan.freshId, r);
  }

  lemma InsertEdit(m0: Memory, p0: Places, m: Memory, p: Places, s: nat, args: Args, scan: Scan, loose: map<nat, nat>)
    requires Resolving(m0, p0, m, p, s, args, scan, loose) && NoOverlap(scan.rs, args) && OpArgs(args) && args.kind != NoRange
    ensures var r := MakeRange(args, m.freshId);
            var m1 := WithSpace(m, s, m.spaces[s].(ranges := Insert(scan.rs, r), lists := m.spaces[s].lists[r.id := []]), m.freshId + 1);
            Edit(m, m1, p, s, loose) && TargetOk(m1.spaces[s], r)
  {
    var r := MakeRange(args, m.freshId);
    InsertInv(m, p, s, r, loose);
    InsertOk(scan.rs, r, m.freshId);
    InsertedIds(scan.rs, m.freshId, r, r.id);
  }

  /** What the whole of add_range leaves behind, given the list it must produce. */
  ghost predicate Finished(m0: Memory, p0: Places, m: Memory, p: Places, s: nat, args: Args, added: Added) {
    && Strict(m, p)
    && s in m0.spaces && m.spaces.Keys == m0.spaces.Keys && OthersKept(m0, m, s)
    && m.spaces[s] == m0.spaces[s].(ranges := added.rs, lists := m.spaces[s].lists, cached := None)
    && m.freshId == added.freshId
    && WindowEntries(m0, m, s, args)
    && AllContentsKept(m0, p0, m, p)
  }

  /** No frame was written, taken or freed. */
  predicate FramesAlone(m0: Memory, m: Memory) {
    m.phys == m0.phys && m.freelist == m0.freelist
  }

  /** The new mapping extends an adjacent anonymous range with the same flags. */
  method MergeInto(ghost m0: Memory, ghost p0: Places, m1: Memory, ghost p1: Places, s: nat, args: Args,
                   ghost scan: Scan, ghost loose: map<nat, nat>, hadOverlap: bool, k: nat)
    returns (m: Memory, ghost p: Places)
    requires Resolving(m0, p0, m1, p1, s, args, scan, loose) && NoOverlap(scan.rs, args) && OpArgs(args)
    requires hadOverlap == scan.overlap && MergeIndex(scan.rs, args) == Some(k)
    ensures Finished(m0, p0, m, p, s, args, Finish(scan.rs, scan.freshId, args))
    ensures !hadOverlap ==> FramesAlone(m1, m)
  {
    var sp := m1.spaces[s];
    var r := sp.ranges[k];
    MergeEdit(m0, p0, m1, p1, s, args, scan, loose, k);
    if args.base == r.End() {
      r := r.(length := r.length + args.length);
    } else {
      r := r.(base := r.base - args.length, length := r.length + args.length);
    }
    m := m1.(spaces := m1.spaces[s := sp.(ranges := sp.ranges[k := r])]);
    m, p := Settle(m0, p0, m1, p1, m, s, args, scan, loose, hadOverlap, Some(r));
  }

  /** The part of add_range after the overlaps are resolved. */
  method FinishRange(ghost m0: Memory, ghost p0: Places, m1: Memory, ghost p1: Places, s: nat, args: Args,
                     ghost scan: Scan, ghost loose: map<nat, nat>, hadOverlap: bool)
    returns (m: Memory, ghost p: Places)
    requires Resolving(m0, p0, m1, p1, s, args, scan, loose) && NoOverlap(scan.rs, args) && OpArgs(args)
    requires hadOverlap == scan.overlap
    ensures Finished(m0, p0, m, p, s, args, Finish(scan.rs, scan.freshId, args))
    ensures !hadOverlap && args.kind != NoRange ==> FramesAlone(m1, m)
  {
    var k := FindMergeIndex(m1.spaces[s].ranges, args);
    if k.Some? {
      m, p := MergeInto(m0, p0, m1, p1, s, args, scan, loose, hadOverlap, k.value);
    } else if args.kind == NoRange {
      m, p := Settle(m0, p0, m1, p1, m1, s, args, scan, loose, true, None);
    } else {
      InsertEdit(m0, p0, m1, p1, s, args, scan, loose);
      var r, _, m2 := LinkRange(m1, s, args);
      m, p := Settle(m0, p0, m1, p1, m2, s, args, scan, loose, hadOverlap, Some(r));
    }
  }

  // ---------------------------------------------------------------- the in-place path

  /** An exact cover is alone in the window: nothing is loose and nothing has been deleted. */
  lemma ExactFacts(m0: Memory, p0: Places, m: Memory, p: Places, s: nat, args: Args, scan: Scan, loose: map<nat, nat>)
    requires Resolving(m0, p0, m, p, s, args, scan, loose) && OpArgs(args)
    requires scan.next < |scan.rs| && Classify(scan.rs[scan.next], args) == Exact
    ensures var r := scan.rs[scan.next];
            var r' := r.(flags := args.flags);
            && loose == map[] && r in m0.spaces[s].ranges && RangeOk(r) && r.kind != NoRange && r in scan.rs
            && TargetOk(m.spaces[s].(ranges := scan.rs[scan.next := r']), r')
            && Replaceable(m, p, s, scan.next, r', map[], r.base, r.End())
    ensures forall z, q: nat :: z in m0.spaces && q < LOWER_PAGES ==> EntryOf(m, z, q) == EntryOf(m0, z, q)
  {
    var i, r := scan.next, scan.rs[scan.next];
    var r' := r.(flags := args.flags);
    assert r in scan.rs && SpaceInv(m, p, s) && RangeOk(r) && r.WellFormed();
    forall q | q in loose
      ensures false
    {
      assert LoosePage(scan.rs, args, q, loose[q]);
      FindMember(scan.rs, q);
    }
    forall z, q: nat | z in m0.spaces && q < LOWER_PAGES
      ensures EntryOf(m, z, q) == EntryOf(m0, z, q)
    {
      ExactNotGone(m0.spaces[s].ranges, m0.freshId, scan.rs, args, r, q);
    }
    ReplaceOk(scan.rs, i, r', scan.freshId);
    ReplaceMembers(scan.rs, i, r');
    ExchangedIds(scan.rs, scan.rs[i := r'], scan.freshId, r, r', r.id);
    ByIdUnique(scan.rs, scan.freshId, r);
  }

  lemma ExactNotGone(rs0: seq<MappedRange>, freshId: nat, rs: seq<MappedRange>, args: Args, r: MappedRange, q: nat)
    requires ListOk(rs0, freshId) && r in rs0 && Classify(r, args) == Exact
    ensures !Gone(rs0, rs, args, q)
  {
    FindMember(rs0, q);
    if r.Covers(q) {
      FindUnique(rs0, q, r);
    }
  }

  lemma ExactEntries(m0: Memory, p0: Places, m: Memory, p: Places, s: nat, args: Args, scan: Scan, loose: map<nat, nat>,
                     m1: Memory, m2: Memory)
    requires Resolving(m0, p0, m, p, s, args, scan, loose) && OpArgs(args)
    requires scan.next < |scan.rs| && Classify(scan.rs[scan.next], args) == Exact
    requires m1.phys == m.phys && m1.spaces.Keys == m.spaces.Keys && OthersKept(m, m1, s) && m1.spaces[s].root == m.spaces[s].root
    requires m2.spaces.Keys == m1.spaces.Keys
    requires EntriesAfter(m1, m2, s, args.base, args.End(), Some(scan.rs[scan.next].(flags := args.flags)))
    ensures WindowEntries(m0, m2, s, args)
  {
    var r := scan.rs[scan.next];
    ExactFacts(m0, p0, m, p, s, args, scan, loose);
    forall z, q: nat | z in m0.spaces && q < LOWER_PAGES
      ensures EntryOf(m2, z, q) ==
              if z == s && args.Inside(q) then WindowWord(m0.spaces[s].ranges, args, q, EntryOf(m0, z, q)) else EntryOf(m0, z, q)
    {
      assert m1.spaces[z].root == m.spaces[z].root;
      assert EntryOf(m1, z, q) == EntryOf(m, z, q);
      if args.Inside(q) {
        FindUnique(m0.spaces[s].ranges, q, r);
      }
    }
  }

  /** With unchanged flags the words already read as they should. */
  lemma ExactIdle(m0: Memory, p0: Places, m: Memory, p: Places, s: nat, args: Args, scan: Scan, loose: map<nat, nat>)
    requires Resolving(m0, p0, m, p, s, args, scan, loose) && OpArgs(args)
    requires scan.next < |scan.rs| && Classify(scan.rs[scan.next], args) == Exact && scan.rs[scan.next].flags == args.flags
    ensures WindowEntries(m0, m, s, args) && Strict(m, p)
    ensures scan.rs[scan.next := scan.rs[scan.next].(flags := args.flags)] == scan.rs
  {
    var r := scan.rs[scan.next];
    ExactFacts(m0, p0, m, p, s, args, scan, loose);
    StrictAnywhere(m, p, s);
    forall z, q: nat | z in m0.spaces && q < LOWER_PAGES
      ensures EntryOf(m, z, q) ==
              if z == s && args.Inside(q) then WindowWord(m0.spaces[s].ranges, args, q, EntryOf(m0, z, q)) else EntryOf(m0, z, q)
    {
      assert EntryOk(m, p, z, q, s, map[]);
      if z == s && args.Inside(q) {
        FindUnique(m0.spaces[s].ranges, q, r);
        if Present(EntryOf(m, z, q)) {
          var id := p[EntryOf(m, z, q).pfn].range;
          ByIdMember(scan.rs, id);
          FindUnique(scan.rs, q, r);
          FindUnique(scan.rs, q, ById(scan.rs, id).value);
        }
      }
    }
  }

  lemma ExactInv(m0: Memory, p0: Places, m: Memory, p: Places, s: nat, args: Args, scan: Scan, loose: map<nat, nat>)
    requires Resolving(m0, p0, m, p, s, args, scan, loose) && OpArgs(args)
    requires scan.next < |scan.rs| && Classify(scan.rs[scan.next], args) == Exact
    ensures var r := scan.rs[scan.next];
            var m1 := m.(spaces := m.spaces[s := m.spaces[s].(ranges := scan.rs[scan.next := r.(flags := args.flags)])]);
            Edit(m, m1, p, s, Listed(r.base, r.End(), r.id))
  {
    var r := scan.rs[scan.next];
    ExactFacts(m0, p0, m, p, s, args, scan, loose);
    ReplaceInv(m, p, s, scan.next, r.(flags := args.flags), map[], r.base, r.End());
    assert Cut(map[], r.base, r.End(), r.id) == Listed(r.base, r.End(), r.id);
  }

  /** An exact cover of the same type keeps its pages and gets the new flags. */
  method UpdateInPlace(ghost m0: Memory, ghost p0: Places, m1: Memory, ghost p1: Places, s: nat, args: Args,
                       ghost scan: Scan, i: nat, ghost loose: map<nat, nat>)
    returns (m: Memory, ghost p: Places)
    requires Resolving(m0, p0, m1, p1, s, args, scan, loose) && OpArgs(args)
    requires i == scan.next < |scan.rs| && Classify(scan.rs[i], args) == Exact
    ensures Finished(m0, p0, m, p, s, args, Added(scan.rs[i := scan.rs[i].(flags := args.flags)], scan.freshId))
  {
    var sp := m1.spaces[s];
    var r := sp.ranges[i];
    m, p := m1, p1;
    if r.flags != args.flags {
      ExactFacts(m0, p0, m1, p1, s, args, scan, loose);
      ExactInv(m0, p0, m1, p1, s, args, scan, loose);
      var r' := r.(flags := args.flags);
      m := m.(spaces := m.spaces[s := sp.(ranges := sp.ranges[i := r'])]);
      ghost var m2, stale := m, Listed(r.base, r.End(), r.id);
      m, p := InvalidatePages(m, p, s, r.base, r.length, Some(r'), stale);
      assert Outside(stale, r.base, r.End()) == map[];
      StrictAnywhere(m, p, s);
      ExactEntries(m0, p0, m1, p1, s, args, scan, loose, m2, m);
      SettleFacts(m0, p0, m1, p1, m2, s, args, scan, loose, stale);
      ContentsTrans(m0, p0, m2, p1, m, p);
    } else {
      ExactIdle(m0, p0, m1, p1, s, args, scan, loose);
    }
  }

  // ---------------------------------------------------------------- add_range

  lemma Rewind(m0: Memory, p0: Places, m: Memory, p: Places, s: nat, args: Args, scan: Scan, loose: map<nat, nat>)
    requires Resolving(m0, p0, m, p, s, args, scan, loose)
    ensures Resolving(m0, p0, m, p, s, args, scan.(next := 0), loose)
  {
  }

  /**
    add_range. The new list is the one the list function gives; the frames of the window follow it,
    and the frame invariant holds again at the end.
   */
  method AddRange(m0: Memory, ghost p0: Places, s: nat, args: Args) returns (m: Memory, ghost p: Places)
    requires Strict(m0, p0) && s in m0.spaces && OpArgs(args)
    requires !args.resolve ==> NoOverlap(m0.spaces[s].ranges, args)
    ensures Finished(m0, p0, m, p, s, args, Ranges.AddRange(m0.spaces[s].ranges, m0.freshId, args))
    ensures !args.resolve && args.kind != NoRange ==> FramesAlone(m0, m)
  {
    m, p := m0.(spaces := m0.spaces[s := m0.spaces[s].(cached := None)]), p0;
    StartResolving(m0, p0, s, args);
    ghost var scan0 := Scan(m0.spaces[s].ranges, 0, m0.freshId, false);
    ghost var scan, loose, passes: nat := scan0, map[], 0;
    var hadOverlap, need := false, args.resolve;
    while need
      invariant Resolving(m0, p0, m, p, s, args, scan, loose) && s in m.spaces
      invariant hadOverlap == scan.overlap && passes <= 2
      invariant passes == 0 ==> scan == scan0 && need == args.resolve && FramesAlone(m0, m)
      invariant passes > 0 ==> args.resolve && NoOverlap(scan.rs, args) && RunPass(scan0, args).Done?
                               && RunPass(scan0, args).scan.rs == scan.rs && RunPass(scan0, args).scan.freshId == scan.freshId
      invariant passes == 2 ==> !need
      decreases 2 - passes
    {
      ghost var scan1 := scan.(next := 0);
      Rewind(m0, p0, m, p, s, args, scan, loose);
      var exact;
      exact, need, m, p, scan, loose := ResolvePass(m0, p0, m, p, s, args, scan1, loose);
      if exact.Some? {
        m, p := UpdateInPlace(m0, p0, m, p, s, args, scan, exact.value, loose);
        return;
      }
      if passes > 0 {
        PassIdle(scan1, args);
      }
      hadOverlap := hadOverlap || need;
      passes := passes + 1;
    }
    m, p := FinishRange(m0, p0, m, p, s, args, scan, loose, hadOverlap);
  }
}
