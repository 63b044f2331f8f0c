/** add_range on the machine: the list edits of module Ranges together with what happens to the frames. */
module RangeOps {
  import opened Common
  import opened Ranges
  import opened PageTable
  import opened Memory
  import opened Invalidate
  import opened Reshape
  import opened Vmm

  /** Page `q` belonged to a range that the request covered and that has been deleted by now. */
  ghost predicate Gone(rs0: seq<MappedRange>, rs: seq<MappedRange>, args: Args, q: nat) {
    Find(rs0, q).Some? && Classify(Find(rs0, q).value, args) == Covered && Find(rs0, q).value !in rs
  }

  /** So far, exactly the resident pages of deleted ranges have lost their frame. */
  ghost predicate GoneEntries(m0: Memory, m: Memory, s: nat, args: Args)
    requires s in m0.spaces && m.spaces.Keys == m0.spaces.Keys
  {
    forall z, q: nat {:trigger EntryOf(m, z, q)} :: z in m0.spaces && q < LOWER_PAGES ==>
      EntryOf(m, z, q) ==
      if z == s && Gone(m0.spaces[s].ranges, m.spaces[s].ranges, args, q) && Present(EntryOf(m0, z, q)) then EMPTY
      else EntryOf(m0, z, q)
  }

  /** The loose pages are in the window, no range covers them, and their lists belong to ranges already dealt with. */
  ghost predicate LooseOk(rs: seq<MappedRange>, args: Args, loose: map<nat, nat>) {
    forall q {:trigger q in loose} :: q in loose ==> LoosePage(rs, args, q, loose[q])
  }

  ghost predicate LoosePage(rs: seq<MappedRange>, args: Args, q: nat, id: nat) {
    && args.Inside(q)
    && ById(rs, id).Some? && !ById(rs, id).value.Overlaps(args.base, args.End())
    && Find(rs, q).None?
  }

  ghost predicate Originals(rs0: seq<MappedRange>, rs: seq<MappedRange>, args: Args) {
    forall r :: r in rs && r.Overlaps(args.base, args.End()) ==> r in rs0
  }

  /** The machine `m` in the middle of resolving overlaps, having started as `m0`. */
  ghost predicate Resolving(m0: Memory, p0: Places, m: Memory, p: Places, s: nat, args: Args, scan: Scan, loose: map<nat, nat>) {
    ResolvingClauses(m0, p0, m, p, s, args, scan, loose) == true
  }

  ghost predicate ResolvingClauses(m0: Memory, p0: Places, m: Memory, p: Places, s: nat, args: Args, scan: Scan,
                                   loose: map<nat, nat>)
  {
    && Inv(m, p, s, loose)
    && s in m0.spaces && m.spaces.Keys == m0.spaces.Keys && OthersKept(m0, m, s)
    && ListOk(m0.spaces[s].ranges, m0.freshId)
    && m.spaces[s] == m0.spaces[s].(ranges := scan.rs, lists := m.spaces[s].lists, cached := None)
    && m.freshId == scan.freshId
    && ScanOk(scan, args)
    && Originals(m0.spaces[s].ranges, scan.rs, args)
    && LooseOk(scan.rs, args, loose)
    && (!scan.overlap ==> loose == map[] && scan.rs == m0.spaces[s].ranges)
    && GoneEntries(m0, m, s, args)
    && AllContentsKept(m0, p0, m, p)
  }

  ghost predicate OpArgs(args: Args) {
    && args.WellFormed()
    && (args.kind == NoRange || args.kind == Anonymous || args.kind == File)
    && (args.kind != NoRange ==> args.flags % 2 == 1)
    && args.End() <= LOWER_PAGES
  }

  // ---------------------------------------------------------------- how the deleted ranges are tracked

  lemma GoneExchange(rs0: seq<MappedRange>, rs: seq<MappedRange>, rs': seq<MappedRange>, r: MappedRange,
                     pieces: set<MappedRange>, args: Args, q: nat)
    requires Exchanged(rs, rs', r, pieces)
    requires forall x :: x in pieces ==> !x.Overlaps(args.base, args.End())
    ensures Gone(rs0, rs', args, q) <==>
            Gone(rs0, rs, args, q) || (Find(rs0, q) == Some(r) && Classify(r, args) == Covered)
  {
  }

  lemma OriginalsExchange(rs0: seq<MappedRange>, rs: seq<MappedRange>, rs': seq<MappedRange>, r: MappedRange,
                          pieces: set<MappedRange>, args: Args)
    requires Exchanged(rs, rs', r, pieces) && Originals(rs0, rs, args)
    requires forall x :: x in pieces ==> !x.Overlaps(args.base, args.End())
    ensures Originals(rs0, rs', args)
  {
  }

  lemma PiecesOutside(r: MappedRange, args: Args, freshId: nat)
    requires Classify(r, args) != Exact
    ensures forall x :: x in Pieces(r, args, freshId) ==> !x.Overlaps(args.base, args.End())
  {
    forall x | x in Pieces(r, args, freshId)
      ensures !x.Overlaps(args.base, args.End())
    {
      PieceOutside(r, args, freshId, x);
    }
  }

  // ---------------------------------------------------------------- trimming

  lemma TrimFacts(m0: Memory, p0: Places, m: Memory, p: Places, s: nat, args: Args, scan: Scan, loose: map<nat, nat>,
                  r': MappedRange, lo: nat, hi: nat)
    requires Resolving(m0, p0, m, p, s, args, scan, loose) && scan.next < |scan.rs|
    requires var c := Classify(scan.rs[scan.next], args);
             var r := scan.rs[scan.next];
             || (c == TrimLeft && r' == TrimmedLeft(r, args) && lo == r.base && hi == args.End())
             || (c == TrimRight && r' == TrimmedRight(r, args) && lo == args.base && hi == r.End())
    ensures Replaceable(m, p, s, scan.next, r', loose, lo, hi)
    ensures StepScan(scan, args).rs == scan.rs[scan.next := r']
  {
    var r := scan.rs[scan.next];
    assert r in scan.rs && SpaceInv(m, p, s) && RangeOk(r);
    StepOk(scan, args);
    forall q: nat | q in loose
      ensures !r.Covers(q)
    {
      assert LoosePage(scan.rs, args, q, loose[q]);
      FindMember(scan.rs, q);
    }
  }

  lemma TrimLoose(rs: seq<MappedRange>, freshId: nat, args: Args, i: nat, r': MappedRange, loose: map<nat, nat>, lo: nat, hi: nat, q: nat)
    requires ListOk(rs, freshId) && i < |rs| && ListOk(rs[i := r'], freshId) && LooseOk(rs, args, loose)
    requires r'.id == rs[i].id && rs[i].base <= r'.base && r'.End() <= rs[i].End()
    requires args.base <= lo && hi <= args.End() && rs[i].base <= lo && hi <= rs[i].End()
    requires rs[i].Overlaps(args.base, args.End()) && !r'.Overlaps(args.base, args.End())
    requires q in Cut(loose, lo, hi, r'.id)
    ensures LoosePage(rs[i := r'], args, q, Cut(loose, lo, hi, r'.id)[q])
  {
    var rs' := rs[i := r'];
    assert rs[i] in rs;
    ReplaceMembers(rs, i, r');
    ExchangedFind(rs, rs', rs[i], {r'}, q);
    if lo <= q < hi {
      ExchangedIds(rs, rs', freshId, rs[i], r', r'.id);
    } else {
      assert LoosePage(rs, args, q, loose[q]);
      ExchangedIds(rs, rs', freshId, rs[i], r', loose[q]);
      ByIdUnique(rs, freshId, rs[i]);
    }
  }

  /** One trim: the range shrinks, the pages it gave up are loose, no frame is touched. */
  lemma TrimStep(m0: Memory, p0: Places, m: Memory, p: Places, s: nat, args: Args, scan: Scan, loose: map<nat, nat>,
                 r': MappedRange, lo: nat, hi: nat)
    requires Resolving(m0, p0, m, p, s, args, scan, loose) && scan.next < |scan.rs|
    requires var c := Classify(scan.rs[scan.next], args);
             var r := scan.rs[scan.next];
             || (c == TrimLeft && r' == TrimmedLeft(r, args) && lo == r.base && hi == args.End())
             || (c == TrimRight && r' == TrimmedRight(r, args) && lo == args.base && hi == r.End())
    ensures Resolving(m0, p0, WithSpace(m, s, Replaced(m.spaces[s], scan.next, r'), m.freshId), p, s, args,
                      StepScan(scan, args), Cut(loose, lo, hi, r'.id))
  {
    var i, r := scan.next, scan.rs[scan.next];
    var m', loose', rs' := WithSpace(m, s, Replaced(m.spaces[s], i, r'), m.freshId), Cut(loose, lo, hi, r'.id), scan.rs[i := r'];
    TrimFacts(m0, p0, m, p, s, args, scan, loose, r', lo, hi);
    ReplaceInv(m, p, s, i, r', loose, lo, hi);
    StepOk(scan, args);
    StepMembers(scan, args);
    PiecesOutside(r, args, scan.freshId);
    OriginalsExchange(m0.spaces[s].ranges, scan.rs, rs', r, Pieces(r, args, scan.freshId), args);
    forall q | q in loose'
      ensures LoosePage(rs', args, q, loose'[q])
    {
      TrimLoose(scan.rs, scan.freshId, args, i, r', loose, lo, hi, q);
    }
    forall z, q: nat | z in m0.spaces && q < LOWER_PAGES
      ensures EntryOf(m', z, q) ==
              if z == s && Gone(m0.spaces[s].ranges, rs', args, q) && Present(EntryOf(m0, z, q)) then EMPTY else EntryOf(m0, z, q)
    {
      assert EntryOf(m', z, q) == EntryOf(m, z, q);
      GoneExchange(m0.spaces[s].ranges, scan.rs, rs', r, Pieces(r, args, scan.freshId), args, q);
    }
    forall f
      ensures ContentsKept(m0, p0, m', p, f)
    {
      assert ContentsKept(m0, p0, m, p, f);
    }
  }

  lemma ContentsTrans(m: Memory, p: Places, m': Memory, p': Places, m'': Memory, p'': Places)
    requires AllContentsKept(m, p, m', p') && AllContentsKept(m', p', m'', p'')
    ensures AllContentsKept(m, p, m'', p'')
  {
    forall f
      ensures ContentsKept(m, p, m'', p'', f)
    {
      assert ContentsKept(m, p, m', p', f) && ContentsKept(m', p', m'', p'', f);
    }
  }

  // ---------------------------------------------------------------- deleting a covered range

  lemma CoveredFacts(m0: Memory, p0: Places, m: Memory, p: Places, s: nat, args: Args, scan: Scan, loose: map<nat, nat>)
    requires Resolving(m0, p0, m, p, s, args, scan, loose) && scan.next < |scan.rs|
    requires Classify(scan.rs[scan.next], args) == Covered
    ensures var r := scan.rs[scan.next];
            && RangeOk(r) && r in m0.spaces[s].ranges
            && Outside(loose, r.base, r.End()) == loose
            && (forall q :: q in loose ==> loose[q] != r.id)
  {
    var r := scan.rs[scan.next];
    assert r in scan.rs && SpaceInv(m, p, s);
    ByIdUnique(scan.rs, scan.freshId, r);
    forall q | q in loose
      ensures !r.Covers(q) && loose[q] != r.id
    {
      assert LoosePage(scan.rs, args, q, loose[q]);
      FindMember(scan.rs, q);
    }
  }

  lemma DropLoose(rs: seq<MappedRange>, freshId: nat, args: Args, i: nat, loose: map<nat, nat>, q: nat)
    requires ListOk(rs, freshId) && i < |rs| && LooseOk(rs, args, loose) && q in loose && loose[q] != rs[i].id
    ensures LoosePage(rs[..i] + rs[i+1..], args, q, loose[q])
  {
    assert LoosePage(rs, args, q, loose[q]);
    DroppedIds(rs, freshId, i, loose[q]);
    RemoveMembers(rs, i);
    FindMember(rs, q);
    FindNone(rs[..i] + rs[i+1..], q);
  }

  lemma CoveredEntries(m0: Memory, p0: Places, m: Memory, p: Places, m1: Memory, p1: Places, s: nat, args: Args, scan: Scan,
                       loose: map<nat, nat>, m2: Memory)
    requires Resolving(m0, p0, m, p, s, args, scan, loose) && scan.next < |scan.rs|
    requires Classify(scan.rs[scan.next], args) == Covered
    requires Invalidated(m, p, m1, p1, s, scan.rs[scan.next].base, scan.rs[scan.next].End(), None)
    requires s in m1.spaces && m1.spaces[s].ranges == scan.rs
    requires m2 == WithSpace(m1, s, Dropped(m1.spaces[s], scan.next), m1.freshId)
    ensures GoneEntries(m0, m2, s, args)
  {
    var i, r := scan.next, scan.rs[scan.next];
    var rs' := scan.rs[..i] + scan.rs[i+1..];
    CoveredFacts(m0, p0, m, p, s, args, scan, loose);
    StepMembers(scan, args);
    forall z, q: nat | z in m0.spaces && q < LOWER_PAGES
      ensures EntryOf(m2, z, q) ==
              if z == s && Gone(m0.spaces[s].ranges, rs', args, q) && Present(EntryOf(m0, z, q)) then EMPTY else EntryOf(m0, z, q)
    {
      assert EntryOf(m2, z, q) == EntryOf(m1, z, q);
      GoneExchange(m0.spaces[s].ranges, scan.rs, rs', r, {}, args, q);
      if r.Covers(q) {
        FindUnique(m0.spaces[s].ranges, q, r);
      } else {
        FindMember(m0.spaces[s].ranges, q);
      }
    }
  }

  lemma CoveredDrop(m0: Memory, p0: Places, m: Memory, p: Places, m1: Memory, p1: Places, s: nat, args: Args, scan: Scan,
                    loose: map<nat, nat>)
    requires Resolving(m0, p0, m, p, s, args, scan, loose) && scan.next < |scan.rs|
    requires Classify(scan.rs[scan.next], args) == Covered
    requires Inv(m1, p1, s, loose)
    requires Invalidated(m, p, m1, p1, s, scan.rs[scan.next].base, scan.rs[scan.next].End(), None)
    ensures s in m1.spaces && m1.spaces[s].ranges == scan.rs
    ensures scan.rs[scan.next].id in m1.spaces[s].lists && m1.spaces[s].lists[scan.rs[scan.next].id] == []
    ensures Inv(WithSpace(m1, s, Dropped(m1.spaces[s], scan.next), m1.freshId), p1, s, loose)
  {
    CoveredFacts(m0, p0, m, p, s, args, scan, loose);
    assert scan.rs[scan.next] in scan.rs;
    EmptyList(m1, p1, s, scan.rs[scan.next], loose);
    DropInv(m1, p1, s, scan.next, loose);
  }

  lemma CoveredList(m0: Memory, p0: Places, m: Memory, p: Places, s: nat, args: Args, scan: Scan, loose: map<nat, nat>)
    requires Resolving(m0, p0, m, p, s, args, scan, loose) && scan.next < |scan.rs|
    requires Classify(scan.rs[scan.next], args) == Covered
    ensures ScanOk(StepScan(scan, args), args) && Originals(m0.spaces[s].ranges, StepScan(scan, args).rs, args)
    ensures LooseOk(StepScan(scan, args).rs, args, loose)
  {
    var i, r, t := scan.next, scan.rs[scan.next], StepScan(scan, args);
    CoveredFacts(m0, p0, m, p, s, args, scan, loose);
    StepOk(scan, args);
    StepMembers(scan, args);
    OriginalsExchange(m0.spaces[s].ranges, scan.rs, t.rs, r, {}, args);
    forall q | q in loose
      ensures LoosePage(t.rs, args, q, loose[q])
    {
      DropLoose(scan.rs, scan.freshId, args, i, loose, q);
    }
  }

  /** The frames of a covered range are freed, then the range is deleted. */
  lemma CoveredStep(m0: Memory, p0: Places, m: Memory, p: Places, m1: Memory, p1: Places, s: nat, args: Args, scan: Scan,
                    loose: map<nat, nat>)
    requires Resolving(m0, p0, m, p, s, args, scan, loose) && scan.next < |scan.rs|
    requires Classify(scan.rs[scan.next], args) == Covered
    requires Inv(m1, p1, s, loose)
    requires Invalidated(m, p, m1, p1, s, scan.rs[scan.next].base, scan.rs[scan.next].End(), None)
    ensures s in m1.spaces && m1.spaces[s].ranges == scan.rs
    ensures scan.rs[scan.next].id in m1.spaces[s].lists && m1.spaces[s].lists[scan.rs[scan.next].id] == []
    ensures Resolving(m0, p0, WithSpace(m1, s, Dropped(m1.spaces[s], scan.next), m1.freshId), p1, s, args, StepScan(scan, args), loose)
  {
    CoveredDrop(m0, p0, m, p, m1, p1, s, args, scan, loose);
    CoveredList(m0, p0, m, p, s, args, scan, loose);
    var m2 := WithSpace(m1, s, Dropped(m1.spaces[s], scan.next), m1.freshId);
    CoveredEntries(m0, p0, m, p, m1, p1, s, args, scan, loose, m2);
    ContentsTrans(m0, p0, m, p, m1, p1);
    forall f
      ensures ContentsKept(m0, p0, m2, p1, f)
    {
      assert ContentsKept(m0, p0, m1, p1, f);
    }
  }

  // ---------------------------------------------------------------- splitting a range

  /** Everything about a split before any frame moves. */
  lemma SplitFacts(m0: Memory, p0: Places, m: Memory, p: Places, s: nat, args: Args, scan: Scan, loose: map<nat, nat>)
    requires Resolving(m0, p0, m, p, s, args, scan, loose) && scan.next < |scan.rs|
    requires Classify(scan.rs[scan.next], args) == Split
    ensures loose == map[]
    ensures var i, r := scan.next, scan.rs[scan.next];
            var left, right := TrimmedRight(r, args), SplitRange(r, args, scan.freshId);
            && Replaceable(m, p, s, i, left, map[], args.base, r.End())
            && RangeOk(right) && right.WellFormed() && right.id == m.freshId
            && (forall q :: q in scan.rs[i := left] ==> Apart(q, right))
            && StepScan(scan, args).rs == Insert(scan.rs[i := left], right)
  {
    var i, r := scan.next, scan.rs[scan.next];
    var left, right := TrimmedRight(r, args), SplitRange(r, args, scan.freshId);
    assert r in scan.rs && SpaceInv(m, p, s) && RangeOk(r) && r.WellFormed();
    ReplaceOk(scan.rs, i, left, scan.freshId);
    forall q | q in loose
      ensures false
    {
      assert LoosePage(scan.rs, args, q, loose[q]);
      FindMember(scan.rs, q);
    }
    forall q | q in scan.rs[i := left]
      ensures Apart(q, right)
    {
      var j :| 0 <= j < |scan.rs| && scan.rs[i := left][j] == q;
      assert j < i ==> Apart(scan.rs[j], scan.rs[i]);
      assert i < j ==> Apart(scan.rs[i], scan.rs[j]);
    }
  }

  /** The machine after the split, before the frames of the right part are moved. */
  ghost function SplitMemory(m: Memory, s: nat, i: nat, left: MappedRange, right: MappedRange): Memory
    requires s in m.spaces && i < |m.spaces[s].ranges|
  {
    var cut := m.spaces[s].ranges[i := left];
    WithSpace(m, s, m.spaces[s].(ranges := Insert(cut, right), lists := m.spaces[s].lists[right.id := []], cached := None),
              m.freshId + 1)
  }

  lemma SplitCutInv(m0: Memory, p0: Places, m: Memory, p: Places, s: nat, args: Args, scan: Scan, loose: map<nat, nat>)
    requires Resolving(m0, p0, m, p, s, args, scan, loose) && scan.next < |scan.rs|
    requires Classify(scan.rs[scan.next], args) == Split
    ensures var i, r := scan.next, scan.rs[scan.next];
            Inv(WithSpace(m, s, Replaced(m.spaces[s], i, TrimmedRight(r, args)), m.freshId), p, s, Listed(args.base, r.End(), r.id))
  {
    var i, r := scan.next, scan.rs[scan.next];
    SplitFacts(m0, p0, m, p, s, args, scan, loose);
    ReplaceInv(m, p, s, i, TrimmedRight(r, args), map[], args.base, r.End());
    assert Cut(map[], args.base, r.End(), r.id) == Listed(args.base, r.End(), r.id);
  }

  lemma SplitInv(m0: Memory, p0: Places, m: Memory, p: Places, s: nat, args: Args, scan: Scan, loose: map<nat, nat>)
    requires Resolving(m0, p0, m, p, s, args, scan, loose) && scan.next < |scan.rs|
    requires Classify(scan.rs[scan.next], args) == Split
    ensures var i, r := scan.next, scan.rs[scan.next];
            var left, right := TrimmedRight(r, args), SplitRange(r, args, scan.freshId);
            var m1 := SplitMemory(m, s, i, left, right);
            Inv(m1, p, s, Listed(args.base, r.End(), r.id)) && TargetOk(m1.spaces[s], right) && right.End() <= LOWER_PAGES
  {
    var i, r := scan.next, scan.rs[scan.next];
    var left, right := TrimmedRight(r, args), SplitRange(r, args, scan.freshId);
    var mc := WithSpace(m, s, Replaced(m.spaces[s], i, left), m.freshId);
    SplitFacts(m0, p0, m, p, s, args, scan, loose);
    SplitCutInv(m0, p0, m, p, s, args, scan, loose);
    InsertInv(mc, p, s, right, Listed(args.base, r.End(), r.id));
    var sp' := mc.spaces[s].(ranges := Insert(mc.spaces[s].ranges, right), lists := mc.spaces[s].lists[right.id := []]);
    assert mc.spaces[s := sp'] == m.spaces[s := sp'];
    assert SplitMemory(m, s, i, left, right) == WithSpace(mc, s, sp', mc.freshId + 1);
    assert TargetOk(SplitMemory(m, s, i, left, right).spaces[s], right) by {
      StepOk(scan, args);
      InsertedIds(scan.rs[i := left], m.freshId, right, right.id);
    }
  }

  lemma SplitEntry(m0: Memory, p0: Places, m: Memory, p: Places, s: nat, args: Args, scan: Scan, loose: map<nat, nat>, q: nat)
    requires Resolving(m0, p0, m, p, s, args, scan, loose) && scan.next < |scan.rs| && q < LOWER_PAGES
    requires Classify(scan.rs[scan.next], args) == Split && scan.rs[scan.next].Covers(q)
    ensures AfterWord(EntryOf(m, s, q), Some(SplitRange(scan.rs[scan.next], args, scan.freshId))) == EntryOf(m, s, q)
  {
    var r := scan.rs[scan.next];
    SplitFacts(m0, p0, m, p, s, args, scan, loose);
    assert EntryOk(m, p, s, q, s, loose);
    if Present(EntryOf(m, s, q)) {
      var id := p[EntryOf(m, s, q).pfn].range;
      ByIdMember(scan.rs, id);
      FindUnique(scan.rs, q, r);
      FindUnique(scan.rs, q, ById(scan.rs, id).value);
    }
  }

  lemma SplitLoose(scan: Scan, args: Args, q: nat)
    requires ScanOk(scan, args) && scan.next < |scan.rs| && Classify(scan.rs[scan.next], args) == Split && args.Inside(q)
    ensures LoosePage(StepScan(scan, args).rs, args, q, scan.rs[scan.next].id)
  {
    var r, t := scan.rs[scan.next], StepScan(scan, args);
    StepOk(scan, args);
    StepMembers(scan, args);
    SplitClears(scan, args);
    FindNone(t.rs, q);
    assert TrimmedRight(r, args) in Pieces(r, args, scan.freshId);
    ByIdUnique(t.rs, t.freshId, TrimmedRight(r, args));
  }

  lemma SplitEntries(m0: Memory, p0: Places, m: Memory, p: Places, m2: Memory, p2: Places, s: nat, args: Args, scan: Scan,
                     loose: map<nat, nat>)
    requires Resolving(m0, p0, m, p, s, args, scan, loose) && scan.next < |scan.rs|
    requires Classify(scan.rs[scan.next], args) == Split
    requires var r := scan.rs[scan.next];
             var right := SplitRange(r, args, scan.freshId);
             Invalidated(SplitMemory(m, s, scan.next, TrimmedRight(r, args), right), p, m2, p2, s, right.base, right.End(), Some(right))
    ensures m2.spaces.Keys == m0.spaces.Keys && GoneEntries(m0, m2, s, args)
    ensures OthersKept(m0, m2, s) && AllContentsKept(m0, p0, m2, p2)
  {
    var r, t := scan.rs[scan.next], StepScan(scan, args);
    var right := SplitRange(r, args, scan.freshId);
    var m1 := SplitMemory(m, s, scan.next, TrimmedRight(r, args), right);
    StepMembers(scan, args);
    PiecesOutside(r, args, scan.freshId);
    assert m2.spaces[s].ranges == t.rs;
    forall z, q: nat | z in m0.spaces && q < LOWER_PAGES
      ensures EntryOf(m2, z, q) ==
              if z == s && Gone(m0.spaces[s].ranges, t.rs, args, q) && Present(EntryOf(m0, z, q)) then EMPTY else EntryOf(m0, z, q)
    {
      assert EntryOf(m1, z, q) == EntryOf(m, z, q);
      GoneExchange(m0.spaces[s].ranges, scan.rs, t.rs, r, Pieces(r, args, scan.freshId), args, q);
      if z == s && right.Covers(q) {
        SplitEntry(m0, p0, m, p, s, args, scan, loose, q);
      }
    }
    forall f
      ensures ContentsKept(m0, p0, m2, p2, f)
    {
      assert ContentsKept(m0, p0, m, p, f) && ContentsKept(m1, p, m2, p2, f);
    }
    forall z | z in m0.spaces && z != s
      ensures m2.spaces[z] == m0.spaces[z]
    {
      assert m1.spaces[z] == m.spaces[z];
    }
  }

  lemma WindowStaysLoose(args: Args, r: MappedRange, end: nat)
    requires args.End() <= r.End() && end == r.End()
    ensures Outside(Listed(args.base, r.End(), r.id), args.End(), end) == Listed(args.base, args.End(), r.id)
  {
  }

  /** The right part becomes a range of its own and takes its resident pages; the window stays loose. */
  lemma SplitStep(m0: Memory, p0: Places, m: Memory, p: Places, mid: Memory, right: MappedRange, listed: map<nat, nat>, end: nat,
                  m2: Memory, p2: Places, s: nat, args: Args, scan: Scan, loose: map<nat, nat>)
    requires Resolving(m0, p0, m, p, s, args, scan, loose) && scan.next < |scan.rs|
    requires Classify(scan.rs[scan.next], args) == Split
    requires right == SplitRange(scan.rs[scan.next], args, scan.freshId) && end == right.End()
    requires listed == Listed(args.base, scan.rs[scan.next].End(), scan.rs[scan.next].id)
    requires mid == SplitMemory(m, s, scan.next, TrimmedRight(scan.rs[scan.next], args), right)
    requires Inv(m2, p2, s, Outside(listed, right.base, end)) && Invalidated(mid, p, m2, p2, s, right.base, end, Some(right))
    ensures Resolving(m0, p0, m2, p2, s, args, StepScan(scan, args), Listed(args.base, args.End(), scan.rs[scan.next].id))
  {
    var i, r := scan.next, scan.rs[scan.next];
    var t := StepScan(scan, args);
    var loose' := Listed(args.base, args.End(), r.id);
    SplitFacts(m0, p0, m, p, s, args, scan, loose);
    WindowStaysLoose(args, r, end);
    StepOk(scan, args);
    StepMembers(scan, args);
    PiecesOutside(r, args, scan.freshId);
    OriginalsExchange(m0.spaces[s].ranges, scan.rs, t.rs, r, Pieces(r, args, scan.freshId), args);
    forall q | q in loose'
      ensures LoosePage(t.rs, args, q, loose'[q])
    {
      SplitLoose(scan, args, q);
    }
    SplitEntries(m0, p0, m, p, m2, p2, s, args, scan, loose);
  }
}
