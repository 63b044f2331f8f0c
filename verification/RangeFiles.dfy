/** The references that a list of ranges holds to file descriptions, one per range that names a file. */
module RangeFiles {
  import opened Common
  import opened Ranges
  import opened Protect

  function FileOf(file: Option<nat>): multiset<nat> {
    if file.Some? then multiset{file.value} else multiset{}
  }

  function FileRefs(rs: seq<MappedRange>): multiset<nat> {
    if rs == [] then multiset{} else FileOf(rs[0].file) + FileRefs(rs[1..])
  }

  /** The files of the ranges for which the overlap loop takes branch `step`. */
  function FilesWhere(rs: seq<MappedRange>, args: Args, step: Step): multiset<nat> {
    if rs == [] then multiset{}
    else (if Classify(rs[0], args) == step then FileOf(rs[0].file) else multiset{}) + FilesWhere(rs[1..], args, step)
  }

  lemma {:induction false} RefsConcat(a: seq<MappedRange>, b: seq<MappedRange>)
    ensures FileRefs(a + b) == FileRefs(a) + FileRefs(b)
  {
    if a == [] {
      assert a + b == b;
    } else {
      assert (a + b)[1..] == a[1..] + b;
      RefsConcat(a[1..], b);
    }
  }

  lemma {:induction false} WhereConcat(a: seq<MappedRange>, b: seq<MappedRange>, args: Args, step: Step)
    ensures FilesWhere(a + b, args, step) == FilesWhere(a, args, step) + FilesWhere(b, args, step)
  {
    if a == [] {
      assert a + b == b;
    } else {
      assert (a + b)[1..] == a[1..] + b;
      WhereConcat(a[1..], b, args, step);
    }
  }

  lemma RefsAround(l: seq<MappedRange>, r: MappedRange, rest: seq<MappedRange>)
    ensures FileRefs(l + [r] + rest) == FileRefs(l) + FileOf(r.file) + FileRefs(rest)
    ensures FileRefs(l + rest) == FileRefs(l) + FileRefs(rest)
  {
    RefsConcat(l + [r], rest);
    RefsConcat(l, [r]);
    assert [r][1..] == [];
    RefsConcat(l, rest);
  }

  lemma RefsReplace(rs: seq<MappedRange>, i: nat, x: MappedRange)
    requires i < |rs| && x.file == rs[i].file
    ensures FileRefs(rs[i := x]) == FileRefs(rs)
  {
    assert rs == rs[..i] + [rs[i]] + rs[i+1..] && rs[i := x] == rs[..i] + [x] + rs[i+1..];
    RefsAround(rs[..i], rs[i], rs[i+1..]);
    RefsAround(rs[..i], x, rs[i+1..]);
  }

  lemma RefsInsert(rs: seq<MappedRange>, x: MappedRange)
    ensures FileRefs(Insert(rs, x)) == FileRefs(rs) + FileOf(x.file)
  {
    var k := InsertIndex(rs, x.base);
    RefsAt(rs, k, x);
  }

  lemma RefsAt(rs: seq<MappedRange>, k: nat, x: MappedRange)
    requires k <= |rs|
    ensures FileRefs(rs[..k] + [x] + rs[k..]) == FileRefs(rs) + FileOf(x.file)
  {
    var l, r := rs[..k], rs[k..];
    assert rs == l + r;
    RefsAround(l, x, r);
    Swap(FileRefs(l), FileOf(x.file), FileRefs(r));
  }

  lemma Swap(a: multiset<nat>, b: multiset<nat>, c: multiset<nat>)
    ensures a + b + c == a + c + b
  {
  }

  /** The part of the list the pass has yet to visit. */
  function Ahead(s: Scan): seq<MappedRange>
    requires s.next <= |s.rs|
  {
    s.rs[s.next..]
  }

  /** An element that no branch is taken for, put in anywhere, does not count. */
  lemma WhereSkips(a: seq<MappedRange>, x: MappedRange, b: seq<MappedRange>, args: Args, step: Step)
    requires Classify(x, args) == Skip && step != Skip
    ensures FilesWhere(a + ([x] + b), args, step) == FilesWhere(a + b, args, step)
  {
    WhereConcat(a, [x] + b, args, step);
    WhereConcat(a, b, args, step);
    assert ([x] + b)[1..] == b;
  }

  lemma InsertedBehind(rs: seq<MappedRange>, i: nat, k: nat, x: MappedRange)
    requires i <= k <= |rs|
    ensures (rs[..k] + [x] + rs[k..])[i..] == rs[i..k] + ([x] + rs[k..])
  {
    assert rs[..k] == rs[..i] + rs[i..k];
  }

  lemma SplitAhead(s: Scan, args: Args, step: Step)
    requires s.next < |s.rs| && Classify(s.rs[s.next], args) == Split && step != Skip
    ensures StepScan(s, args).next <= |StepScan(s, args).rs|
    ensures FilesWhere(Ahead(StepScan(s, args)), args, step) == FilesWhere(s.rs[s.next + 1..], args, step)
  {
    var i, r, t := s.next, s.rs[s.next], StepScan(s, args);
    var cut, q := s.rs[i := TrimmedRight(r, args)], SplitRange(r, args, s.freshId);
    var k := InsertIndex(cut, args.End());
    if k <= i + 1 {
      assert Ahead(t) == s.rs[i+1..];
    } else {
      var a, b := s.rs[i+1..k], s.rs[k..];
      assert cut[i+1..k] == a && cut[k..] == b;
      InsertedBehind(cut, i + 1, k, q);
      assert s.rs[i+1..] == a + b;
      WhereSkips(a, q, b, args, step);
    }
  }

  /** One iteration gives back the reference of a covered range, takes one for the right part of a split, and no other. */
  lemma StepFiles(s: Scan, args: Args)
    requires s.next < |s.rs| && Classify(s.rs[s.next], args) != Exact
    ensures var t, r := StepScan(s, args), s.rs[s.next];
            && t.next <= |t.rs|
            && FileRefs(t.rs) + (if Classify(r, args) == Covered then FileOf(r.file) else multiset{}) ==
               FileRefs(s.rs) + (if Classify(r, args) == Split then FileOf(r.file) else multiset{})
            && FilesWhere(Ahead(t), args, Covered) == FilesWhere(s.rs[s.next + 1..], args, Covered)
            && FilesWhere(Ahead(t), args, Split) == FilesWhere(s.rs[s.next + 1..], args, Split)
  {
    var i, r, t := s.next, s.rs[s.next], StepScan(s, args);
    match Classify(r, args)
    case Skip =>
    case Covered =>
      assert s.rs == s.rs[..i] + [r] + s.rs[i+1..] && Ahead(t) == s.rs[i+1..];
      RefsAround(s.rs[..i], r, s.rs[i+1..]);
    case TrimLeft =>
      assert Ahead(t) == s.rs[i+1..];
      RefsReplace(s.rs, i, TrimmedLeft(r, args));
    case TrimRight =>
      assert Ahead(t) == s.rs[i+1..];
      RefsReplace(s.rs, i, TrimmedRight(r, args));
    case Split =>
      SplitAhead(s, args, Covered);
      SplitAhead(s, args, Split);
      RefsReplace(s.rs, i, TrimmedRight(r, args));
      RefsInsert(s.rs[i := TrimmedRight(r, args)], SplitRange(r, args, s.freshId));
  }

  lemma {:induction false} PassFiles(s: Scan, args: Args)
    requires ScanOk(s, args) && NoExact(s.rs, args)
    ensures RunPass(s, args).Done?
    ensures FileRefs(RunPass(s, args).scan.rs) + FilesWhere(Ahead(s), args, Covered) == FileRefs(s.rs) + FilesWhere(Ahead(s), args, Split)
    decreases Work(s.rs[s.next..], args)
  {
    if s.next < |s.rs| {
      StepNoExact(s, args);
      StepProgress(s, args);
      StepOk(s, args);
      StepFiles(s, args);
      var t, r := StepScan(s, args), s.rs[s.next];
      PassFiles(t, args);
      assert Ahead(s)[0] == r && Ahead(s)[1..] == s.rs[s.next + 1..];
      Telescope(FileRefs(RunPass(t, args).scan.rs), FileRefs(t.rs), FileRefs(s.rs),
                if Classify(r, args) == Covered then FileOf(r.file) else multiset{},
                if Classify(r, args) == Split then FileOf(r.file) else multiset{},
                FilesWhere(Ahead(t), args, Covered), FilesWhere(Ahead(t), args, Split));
    }
  }

  lemma Telescope(end: multiset<nat>, mid: multiset<nat>, start: multiset<nat>, out: multiset<nat>, into: multiset<nat>,
                  outs: multiset<nat>, intos: multiset<nat>)
    requires mid + out == start + into && end + outs == mid + intos
    ensures end + (out + outs) == start + (into + intos)
  {
    assert forall x :: (end + (out + outs))[x] == (start + (into + intos))[x] by {
      forall x
        ensures (end + (out + outs))[x] == (start + (into + intos))[x]
      {
        assert (mid + out)[x] == (start + into)[x] && (end + outs)[x] == (mid + intos)[x];
      }
    }
  }

  /**
    add_range gives back the reference of every range it deletes, takes one for the right part of a
    range it splits and one for the range it makes, and keeps all others. An update in place takes
    and gives none.
   */
  lemma AddRangeFiles(rs: seq<MappedRange>, freshId: nat, args: Args)
    requires ListOk(rs, freshId) && args.resolve && args.WellFormed()
    ensures var rs' := AddRange(rs, freshId, args).rs;
            if exists i :: 0 <= i < |rs| && Classify(rs[i], args) == Exact then FileRefs(rs') == FileRefs(rs)
            else FileRefs(rs') + FilesWhere(rs, args, Covered) == FileRefs(rs) + FilesWhere(rs, args, Split) + FileOf(args.file)
  {
    var s := Scan(rs, 0, freshId, false);
    if i :| 0 <= i < |rs| && Classify(rs[i], args) == Exact {
      PassExact(s, args, i);
      RefsReplace(rs, i, rs[i].(flags := args.flags));
    } else {
      PassFiles(s, args);
      assert Ahead(s) == rs;
      FinishFiles(RunPass(s, args).scan.rs, RunPass(s, args).scan.freshId, args);
    }
  }

  lemma FinishFiles(rs: seq<MappedRange>, freshId: nat, args: Args)
    requires args.WellFormed()
    ensures FileRefs(Finish(rs, freshId, args).rs) == FileRefs(rs) + FileOf(args.file)
  {
    var m := MergeIndex(rs, args);
    if m.Some? {
      RefsReplace(rs, m.value, Merged(rs[m.value], args));
    } else if args.kind != NoRange {
      RefsInsert(rs, MakeRange(args, freshId));
    }
  }

  // ---------------------------------------------------------------- fork and mprotect

  /** The child takes one reference for each of the parent's. */
  lemma {:induction false} ForkFiles(rs: seq<MappedRange>, n: nat, freshId: nat)
    requires n <= |rs|
    ensures FileRefs(ForkList(rs, n, freshId)) == FileRefs(rs[..n])
  {
    if n == 0 {
      assert rs[..0] == [];
    } else {
      ForkFiles(rs, n - 1, freshId);
      assert rs[..n] == rs[..n - 1] + [rs[n - 1]];
      BothGrow(ForkList(rs, n - 1, freshId), Forked(rs[n - 1], freshId + n - 1), rs[..n - 1], rs[n - 1]);
    }
  }

  lemma BothGrow(cs: seq<MappedRange>, x: MappedRange, rs: seq<MappedRange>, r: MappedRange)
    requires FileRefs(cs) == FileRefs(rs) && x.file == r.file
    ensures FileRefs(Insert(cs, x)) == FileRefs(rs + [r])
  {
    RefsInsert(cs, x);
    RefsSnoc(rs, r);
  }

  lemma RefsSnoc(rs: seq<MappedRange>, r: MappedRange)
    ensures FileRefs(rs + [r]) == FileRefs(rs) + FileOf(r.file)
  {
    RefsConcat(rs, [r]);
    assert [r][0] == r && [r][1..] == [];
  }

  lemma {:induction false} WhereNone(rs: seq<MappedRange>, args: Args, step: Step)
    requires forall x :: x in rs ==> Classify(x, args) != step
    ensures FilesWhere(rs, args, step) == multiset{}
  {
    if rs != [] {
      assert forall x :: x in rs[1..] ==> x in rs;
      WhereNone(rs[1..], args, step);
    }
  }

  lemma WhereOne(rs: seq<MappedRange>, args: Args, step: Step, i: nat)
    requires i < |rs| && forall j :: 0 <= j < |rs| && j != i ==> Classify(rs[j], args) != step
    ensures FilesWhere(rs, args, step) == if Classify(rs[i], args) == step then FileOf(rs[i].file) else multiset{}
  {
    var l, r := rs[..i], rs[i+1..];
    assert rs == l + ([rs[i]] + r) && ([rs[i]] + r)[1..] == r;
    WhereConcat(l, [rs[i]] + r, args, step);
    WhereNone(l, args, step);
    WhereNone(r, args, step);
  }

  /** In a turn of mprotect only the range at `lo` takes a branch other than the first. */
  lemma TurnWhere(rs: seq<MappedRange>, freshId: nat, r: MappedRange, lo: nat, hi: nat, flags: nat, i: nat)
    requires ListOk(rs, freshId) && i < |rs| && rs[i] == r && r.Covers(lo) && lo < hi
    ensures var args := ProtectArgs(r, lo, hi, flags);
            && args.WellFormed()
            && (forall j :: 0 <= j < |rs| && j != i ==> Classify(rs[j], args) == Skip)
            && FilesWhere(rs, args, Covered) == multiset{}
            && FilesWhere(rs, args, Split) == (if lo > r.base && hi < r.End() then FileOf(r.file) else multiset{})
            && (Classify(r, args) == Exact <==> lo == r.base && r.End() <= hi)
  {
    var args := ProtectArgs(r, lo, hi, flags);
    WindowAlone(rs, freshId, r, lo, hi, flags, r);
    forall j | 0 <= j < |rs| && j != i
      ensures Classify(rs[j], args) == Skip
    {
      assert i < j ==> rs[i].id != rs[j].id;
      assert j < i ==> rs[j].id != rs[i].id;
      WindowAlone(rs, freshId, r, lo, hi, flags, rs[j]);
    }
    WhereNone(rs, args, Covered);
    WhereOne(rs, args, Split, i);
  }

  /** One turn of mprotect takes a reference for each part of the range that stays behind. */
  lemma TurnFiles(rs: seq<MappedRange>, freshId: nat, r: MappedRange, lo: nat, hi: nat, flags: nat)
    requires ListOk(rs, freshId) && r in rs && r.Covers(lo) && lo < hi
    ensures var args := ProtectArgs(r, lo, hi, flags);
            && FilesWhere(rs, args, Covered) == multiset{}
            && FileRefs(AddRange(rs, freshId, args).rs) ==
               FileRefs(rs) + (if r.base < lo then FileOf(r.file) else multiset{}) + (if hi < r.End() then FileOf(r.file) else multiset{})
  {
    var args := ProtectArgs(r, lo, hi, flags);
    var i :| 0 <= i < |rs| && rs[i] == r;
    TurnWhere(rs, freshId, r, lo, hi, flags, i);
    AddRangeFiles(rs, freshId, args);
    Nothing(FileRefs(rs), FileRefs(AddRange(rs, freshId, args).rs), FileOf(r.file));
  }

  lemma Nothing(a: multiset<nat>, b: multiset<nat>, c: multiset<nat>)
    ensures a + multiset{} == a && b + multiset{} == b && a + c + multiset{} == a + c && a + multiset{} + c == a + c
  {
  }

  /** The reference for the part of a range that is cut off in front of page `lo`. */
  function CutFront(rs: seq<MappedRange>, lo: nat): multiset<nat> {
    match Find(rs, lo)
    case Some(r) => if r.base < lo then FileOf(r.file) else multiset{}
    case None => multiset{}
  }

  /** The reference for the part of a range that is cut off behind page `stop` - 1. */
  function CutBack(rs: seq<MappedRange>, stop: nat): multiset<nat>
    requires stop > 0
  {
    match Find(rs, stop - 1)
    case Some(r) => if stop < r.End() then FileOf(r.file) else multiset{}
    case None => multiset{}
  }

  /** mprotect takes a reference for the range it cuts at its start and for the one it cuts where it stops, and no other. */
  lemma {:induction false} ProtectFiles(rs: seq<MappedRange>, freshId: nat, lo: nat, hi: nat, flags: nat)
    requires ListOk(rs, freshId)
    ensures var stop := FirstHole(rs, lo, hi);
            FileRefs(ProtectList(rs, freshId, lo, hi, flags).rs) ==
            if lo < stop then FileRefs(rs) + CutFront(rs, lo) + CutBack(rs, stop) else FileRefs(rs)
    decreases if lo < hi then hi - lo else 0
  {
    FindMember(rs, lo);
    if lo < hi && Find(rs, lo).Some? {
      var r := Find(rs, lo).value;
      var args := ProtectArgs(r, lo, hi, flags);
      var t := AddRange(rs, freshId, args);
      TurnAt(rs, freshId, r, lo, hi, flags, lo);
      ProtectFiles(t.rs, t.freshId, args.End(), hi, flags);
      ProtectFilesNext(rs, freshId, r, lo, hi, flags, FileRefs(ProtectList(rs, freshId, lo, hi, flags).rs));
    }
  }

  lemma ProtectFilesNext(rs: seq<MappedRange>, freshId: nat, r: MappedRange, lo: nat, hi: nat, flags: nat, refs: multiset<nat>)
    requires ListOk(rs, freshId) && Find(rs, lo) == Some(r) && r in rs && r.Covers(lo) && lo < hi
    requires var args := ProtectArgs(r, lo, hi, flags);
             var t := AddRange(rs, freshId, args);
             var stop := FirstHole(t.rs, args.End(), hi);
             refs == if args.End() < stop then FileRefs(t.rs) + CutFront(t.rs, args.End()) + CutBack(t.rs, stop) else FileRefs(t.rs)
    ensures lo < FirstHole(rs, lo, hi) && refs == FileRefs(rs) + CutFront(rs, lo) + CutBack(rs, FirstHole(rs, lo, hi))
  {
    var args, stop := ProtectArgs(r, lo, hi, flags), FirstHole(rs, lo, hi);
    var t := AddRange(rs, freshId, args);
    TurnFiles(rs, freshId, r, lo, hi, flags);
    SameHole(rs, freshId, r, lo, hi, flags);
    TurnCuts(rs, freshId, r, lo, hi, flags, stop);
    Chained(FileRefs(rs), CutFront(rs, lo), FileRefs(t.rs), if hi < r.End() then FileOf(r.file) else multiset{},
            CutFront(t.rs, args.End()), CutBack(t.rs, stop), CutBack(rs, stop), refs, args.End() < stop);
  }

  lemma TurnCuts(rs: seq<MappedRange>, freshId: nat, r: MappedRange, lo: nat, hi: nat, flags: nat, stop: nat)
    requires ListOk(rs, freshId) && r in rs && r.Covers(lo) && lo < hi && ProtectArgs(r, lo, hi, flags).End() <= stop <= hi
    ensures var args := ProtectArgs(r, lo, hi, flags);
            var t, cut := AddRange(rs, freshId, args), if hi < r.End() then FileOf(r.file) else multiset{};
            if args.End() < stop then cut == multiset{} && CutFront(t.rs, args.End()) == multiset{} && CutBack(t.rs, stop) == CutBack(rs, stop)
            else cut == CutBack(rs, stop)
  {
    var end := ProtectArgs(r, lo, hi, flags).End();
    assert end == Min(r.End(), hi);
    if end < stop {
      assert end == r.End();
      TurnFront(rs, freshId, r, lo, hi, flags);
      TurnBack(rs, freshId, r, lo, hi, flags, stop);
    } else {
      LastCut(rs, r, lo, hi);
    }
  }

  lemma LastCut(rs: seq<MappedRange>, r: MappedRange, lo: nat, hi: nat)
    requires Disjoint(rs) && r in rs && r.Covers(lo) && lo < hi
    ensures CutBack(rs, Min(r.End(), hi)) == if hi < r.End() then FileOf(r.file) else multiset{}
  {
    FindUnique(rs, Min(r.End(), hi) - 1, r);
  }

  lemma Chained(start: multiset<nat>, front: multiset<nat>, mid: multiset<nat>, cut: multiset<nat>, front': multiset<nat>, back': multiset<nat>,
                back: multiset<nat>, end: multiset<nat>, more: bool)
    requires mid == start + front + cut && end == if more then mid + front' + back' else mid
    requires if more then cut == multiset{} && front' == multiset{} && back' == back else cut == back
    ensures end == start + front + back
  {
    if more {
      assert mid == start + front;
      assert mid + front' == mid;
    }
  }

  /** A turn of mprotect does not move the first hole, which is behind the turn. */
  lemma SameHole(rs: seq<MappedRange>, freshId: nat, r: MappedRange, lo: nat, hi: nat, flags: nat)
    requires ListOk(rs, freshId) && Find(rs, lo) == Some(r) && r in rs && r.Covers(lo) && lo < hi
    ensures var args := ProtectArgs(r, lo, hi, flags);
            && args.End() <= FirstHole(rs, lo, hi) <= hi
            && FirstHole(AddRange(rs, freshId, args).rs, args.End(), hi) == FirstHole(rs, lo, hi)
  {
    var args := ProtectArgs(r, lo, hi, flags);
    var t := AddRange(rs, freshId, args);
    TurnAt(rs, freshId, r, lo, hi, flags, lo);
    ProtectStops(rs, freshId, lo, hi, flags);
    ProtectStops(t.rs, t.freshId, args.End(), hi, flags);
  }

  /** Where a turn ended, there is nothing to cut: the next range starts there, or names no file. */
  lemma TurnFront(rs: seq<MappedRange>, freshId: nat, r: MappedRange, lo: nat, hi: nat, flags: nat)
    requires ListOk(rs, freshId) && r in rs && r.Covers(lo) && lo < hi && r.End() < hi
    ensures CutFront(AddRange(rs, freshId, ProtectArgs(r, lo, hi, flags)).rs, r.End()) == multiset{}
  {
    var t := AddRange(rs, freshId, ProtectArgs(r, lo, hi, flags));
    TurnFurther(rs, freshId, r, lo, hi, flags, r.End());
    TurnAt(rs, freshId, r, lo, hi, flags, lo);
    FindMember(t.rs, r.End());
  }

  /** Further on there is as much to cut as there was. */
  lemma TurnBack(rs: seq<MappedRange>, freshId: nat, r: MappedRange, lo: nat, hi: nat, flags: nat, stop: nat)
    requires ListOk(rs, freshId) && r in rs && r.Covers(lo) && lo < hi && r.End() < stop <= hi
    ensures CutBack(AddRange(rs, freshId, ProtectArgs(r, lo, hi, flags)).rs, stop) == CutBack(rs, stop)
  {
    var t := AddRange(rs, freshId, ProtectArgs(r, lo, hi, flags));
    TurnFurther(rs, freshId, r, lo, hi, flags, stop - 1);
    TurnAt(rs, freshId, r, lo, hi, flags, lo);
    FindMember(t.rs, stop - 1);
    FindMember(rs, stop - 1);
  }
}
