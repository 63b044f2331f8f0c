/** mprotect on the list of ranges: one add_range per range met, up to the end or the first hole. */
module Protect {
  import opened Common
  import opened Ranges

  /** The piece of range `r` from page `lo` on that mprotect handles in one turn, and its arguments. */
  function ProtectArgs(r: MappedRange, lo: nat, hi: nat, flags: nat): Args
    requires r.Covers(lo) && lo < hi
  {
    var offset := (lo - r.base) * PAGE_SIZE;
    Args(lo, Min(r.End(), hi) - lo, flags, r.kind, if r.phyBase != 0 then r.phyBase + offset else 0,
         r.file, r.fileOffset + offset, true, true, true)
  }

  /** The list, and the page at which mprotect stopped: the end, or a hole. */
  datatype Protected = Protected(rs: seq<MappedRange>, freshId: nat, stop: nat)

  function ProtectList(rs: seq<MappedRange>, freshId: nat, lo: nat, hi: nat, flags: nat): (t: Protected)
    decreases if lo < hi then hi - lo else 0
  {
    FindMember(rs, lo);
    if lo >= hi || Find(rs, lo).None? then Protected(rs, freshId, lo)
    else
      var args := ProtectArgs(Find(rs, lo).value, lo, hi, flags);
      var added := AddRange(rs, freshId, args);
      ProtectList(added.rs, added.freshId, args.End(), hi, flags)
  }

  /** The same mapping with other flags. */
  predicate IsReflagged(x: Option<Mapping>, y: Option<Mapping>, flags: nat) {
    match x
    case Some(mapping) => y == Some(Mapping(mapping.kind, flags, mapping.file))
    case None => y == None
  }

  // ---------------------------------------------------------------- one turn of the loop

  /** The new piece has the old backing: its offsets are counted from the current base of the range. */
  predicate PieceSafe(r: MappedRange, lo: nat) {
    match r.kind
    case File => r.base == r.originalBase
    case Direct => r.base == r.originalBase && (r.phyBase != 0 || lo <= r.base)
    case DirectVirtual => r.base == r.originalBase && (r.phyBase != 0 || lo <= r.base)
    case _ => true
  }

  /** Only the range at `lo` meets the window, and it is never covered without being kept in place. */
  lemma WindowAlone(rs: seq<MappedRange>, freshId: nat, r: MappedRange, lo: nat, hi: nat, flags: nat, x: MappedRange)
    requires ListOk(rs, freshId) && r in rs && r.Covers(lo) && lo < hi && x in rs
    ensures var args := ProtectArgs(r, lo, hi, flags);
            && args.WellFormed()
            && (x != r ==> Classify(x, args) == Skip)
            && Classify(r, args) != Covered && Classify(r, args) != Skip
            && (Classify(r, args) == Exact <==> lo == r.base && r.End() <= hi)
            && (Classify(r, args) == Split <==> lo > r.base && hi < r.End())
  {
    assert r.WellFormed();
    if x != r {
      var i :| 0 <= i < |rs| && rs[i] == r;
      var j :| 0 <= j < |rs| && rs[j] == x;
      assert i < j ==> Apart(rs[i], rs[j]);
      assert j < i ==> Apart(rs[j], rs[i]);
    }
  }

  /** What a turn does to the mapping: the flags of its window, and nothing else. */
  lemma TurnAt(rs: seq<MappedRange>, freshId: nat, r: MappedRange, lo: nat, hi: nat, flags: nat, a: nat)
    requires ListOk(rs, freshId) && r in rs && r.Covers(lo) && lo < hi
    ensures var args := ProtectArgs(r, lo, hi, flags);
            var t := AddRange(rs, freshId, args);
            && ListOk(t.rs, t.freshId) && KeepsFile(rs, args)
            && (if args.Inside(a) then IsReflagged(At(rs, a), At(t.rs, a), flags) else At(t.rs, a) == At(rs, a))
            && (args.Inside(a) ==> Find(rs, a) == Some(r))
  {
    var args := ProtectArgs(r, lo, hi, flags);
    forall x | x in rs && Classify(x, args) == Exact
      ensures x.file == args.file
    {
      WindowAlone(rs, freshId, r, lo, hi, flags, x);
    }
    WindowAlone(rs, freshId, r, lo, hi, flags, r);
    AddRangeOverwrites(rs, freshId, args, a);
    if args.Inside(a) {
      FindUnique(rs, a, r);
    }
  }

  /** What a list holds after the pass of a turn that does not update in place. */
  lemma TurnInserted(rs: seq<MappedRange>, freshId: nat, args: Args, a: nat)
    requires ListOk(rs, freshId) && NoOverlap(rs, args) && args.WellFormed() && args.kind != NoRange && args.Inside(a)
    ensures var t := Finish(rs, freshId, args);
            BackingAt(t.rs, a) == MakeRange(args, freshId).Backing(a)
  {
    FinishOk(rs, freshId, args);
    var t := Finish(rs, freshId, args);
    var m := MergeIndex(rs, args);
    if m.Some? {
      var r := rs[m.value];
      assert r in rs && r.WellFormed();
      ReplaceMembers(rs, m.value, Merged(r, args));
      FindUnique(t.rs, a, Merged(r, args));
    } else {
      InsertMembers(rs, MakeRange(args, freshId));
      FindUnique(t.rs, a, MakeRange(args, freshId));
    }
  }

  /** A request that updates nothing in place gives its window the backing of the range it makes. */
  lemma MadeInside(rs: seq<MappedRange>, freshId: nat, args: Args, a: nat)
    requires ListOk(rs, freshId) && args.resolve && args.WellFormed() && args.kind != NoRange && args.Inside(a)
    requires forall x :: x in rs ==> Classify(x, args) != Exact
    ensures exists id :: BackingAt(AddRange(rs, freshId, args).rs, a) == MakeRange(args, id).Backing(a)
  {
    var s := Scan(rs, 0, freshId, false);
    PassClears(s, args);
    var t := RunPass(s, args).scan;
    TurnInserted(t.rs, t.freshId, args, a);
  }

  /** What a request to map a file, to map no file, or to unmap leaves in its window. */
  lemma FileInside(rs: seq<MappedRange>, freshId: nat, base: nat, length: nat, flags: nat, file: nat, offset: nat, a: nat)
    requires ListOk(rs, freshId) && base <= a < base + length
    ensures var rs' := AddRange(rs, freshId, FileArgs(base, length, flags, file, offset)).rs;
            At(rs', a) == Some(Mapping(File, flags, Some(file))) && BackingAt(rs', a) == Some(offset + (a - base) * 0x1000)
  {
    var args := FileArgs(base, length, flags, file, offset);
    AddRangeOverwrites(rs, freshId, args, a);
    MadeInside(rs, freshId, args, a);
  }

  lemma NoFileInside(rs: seq<MappedRange>, freshId: nat, base: nat, length: nat, flags: nat, keep: bool, a: nat)
    requires ListOk(rs, freshId) && base <= a < base + length
    ensures At(AddRange(rs, freshId, AnonymousArgs(base, length, flags, keep)).rs, a) == Some(Mapping(Anonymous, flags, None))
    ensures At(AddRange(rs, freshId, UnmapArgs(base, length)).rs, a) == None
  {
    AddRangeOverwrites(rs, freshId, AnonymousArgs(base, length, flags, keep), a);
    AddRangeOverwrites(rs, freshId, UnmapArgs(base, length), a);
  }

  /** A turn that does not update in place gives its window the backing of the new piece. */
  lemma TurnMakes(rs: seq<MappedRange>, freshId: nat, r: MappedRange, lo: nat, hi: nat, flags: nat, a: nat)
    requires ListOk(rs, freshId) && r in rs && r.Covers(lo) && lo < hi && !(lo == r.base && r.End() <= hi)
    requires ProtectArgs(r, lo, hi, flags).Inside(a)
    ensures var args := ProtectArgs(r, lo, hi, flags);
            BackingAt(AddRange(rs, freshId, args).rs, a) == MakeRange(args, freshId).Backing(a)
  {
    var args, s := ProtectArgs(r, lo, hi, flags), Scan(rs, 0, freshId, false);
    WindowAlone(rs, freshId, r, lo, hi, flags, r);
    forall x | x in rs
      ensures Classify(x, args) != Exact
    {
      WindowAlone(rs, freshId, r, lo, hi, flags, x);
    }
    PassClears(s, args);
    var t := RunPass(s, args).scan;
    TurnInserted(t.rs, t.freshId, args, a);
  }

  /** Inside its window a turn keeps the backing exactly when it updates in place or the range is safe. */
  lemma TurnBackingInside(rs: seq<MappedRange>, freshId: nat, r: MappedRange, lo: nat, hi: nat, flags: nat, a: nat)
    requires ListOk(rs, freshId) && r in rs && r.Covers(lo) && lo < hi
    requires ProtectArgs(r, lo, hi, flags).Inside(a)
    ensures BackingAt(AddRange(rs, freshId, ProtectArgs(r, lo, hi, flags)).rs, a) == BackingAt(rs, a) <==>
            (lo == r.base && r.End() <= hi) || PieceSafe(r, lo)
  {
    TurnAt(rs, freshId, r, lo, hi, flags, a);
    if lo == r.base && r.End() <= hi {
      WindowAlone(rs, freshId, r, lo, hi, flags, r);
      var i :| 0 <= i < |rs| && rs[i] == r;
      PassExact(Scan(rs, 0, freshId, false), ProtectArgs(r, lo, hi, flags), i);
      InPlaceAt(rs, freshId, ProtectArgs(r, lo, hi, flags), i, a);
    } else {
      TurnMakes(rs, freshId, r, lo, hi, flags, a);
      OffsetFromBase(r, lo, hi, flags, freshId, a);
    }
  }

  lemma OffsetFromBase(r: MappedRange, lo: nat, hi: nat, flags: nat, id: nat, a: nat)
    requires r.WellFormed() && r.Covers(lo) && lo < hi
    ensures MakeRange(ProtectArgs(r, lo, hi, flags), id).Backing(a) == r.Backing(a) <==> PieceSafe(r, lo)
  {
  }

  // ---------------------------------------------------------------- the whole loop

  /** mprotect gives the new flags to every page up to the end or the first hole, and changes no other mapping. */
  lemma {:induction false} ProtectAt(rs: seq<MappedRange>, freshId: nat, lo: nat, hi: nat, flags: nat, a: nat)
    requires ListOk(rs, freshId)
    ensures var t := ProtectList(rs, freshId, lo, hi, flags);
            && ListOk(t.rs, t.freshId)
            && lo <= t.stop && (lo <= hi ==> t.stop <= hi)
            && (t.stop < hi ==> At(rs, t.stop) == None)
            && (lo <= a < t.stop ==> At(rs, a).Some?)
            && if lo <= a < t.stop then At(rs, a).Some? && At(t.rs, a) == Some(Mapping(At(rs, a).value.kind, flags, At(rs, a).value.file))
               else At(t.rs, a) == At(rs, a)
    decreases if lo < hi then hi - lo else 0
  {
    FindMember(rs, lo);
    if lo < hi && Find(rs, lo).Some? {
      var r := Find(rs, lo).value;
      var args := ProtectArgs(r, lo, hi, flags);
      var t := AddRange(rs, freshId, args);
      TurnAt(rs, freshId, r, lo, hi, flags, a);
      ProtectAt(t.rs, t.freshId, args.End(), hi, flags, a);
      var stop := ProtectList(t.rs, t.freshId, args.End(), hi, flags).stop;
      TurnAt(rs, freshId, r, lo, hi, flags, stop);
    }
  }

  /** The first page from `lo` on that no range covers, or `hi` when there is none before it. */
  function FirstHole(rs: seq<MappedRange>, lo: nat, hi: nat): (hole: nat)
    ensures lo <= hole && (hole < hi ==> Find(rs, hole).None?) && (hole <= hi || hole == lo)
    ensures forall a :: lo <= a < hole ==> Find(rs, a).Some?
    decreases if lo < hi then hi - lo else 0
  {
    if lo >= hi || Find(rs, lo).None? then lo else FirstHole(rs, lo + 1, hi)
  }

  /** mprotect stops exactly at the first hole of the list it is given. */
  lemma ProtectStops(rs: seq<MappedRange>, freshId: nat, lo: nat, hi: nat, flags: nat)
    requires ListOk(rs, freshId)
    ensures ProtectList(rs, freshId, lo, hi, flags).stop == FirstHole(rs, lo, hi)
  {
    var stop, hole := ProtectList(rs, freshId, lo, hi, flags).stop, FirstHole(rs, lo, hi);
    ProtectAt(rs, freshId, lo, hi, flags, hole);
    assert stop < hole ==> Find(rs, stop).Some?;
  }

  /** The pages whose file offset or physical address a change of the pages from `lo` to `stop` loses. */
  predicate Displaced(rs: seq<MappedRange>, lo: nat, stop: nat, a: nat) {
    && lo < stop && lo <= a && Find(rs, a).Some?
    && var r := Find(rs, a).value;
       && !PieceSafe(r, lo) && !(lo <= r.base && r.End() <= stop) && (a < stop || lo > r.base)
  }

  /** After a turn that reaches the end of its range, the ranges further on are the old ones, except that an anonymous one may have grown. */
  lemma TurnFurther(rs: seq<MappedRange>, freshId: nat, r: MappedRange, lo: nat, hi: nat, flags: nat, a: nat)
    requires ListOk(rs, freshId) && r in rs && r.Covers(lo) && lo < hi && r.End() <= hi && a >= r.End()
    ensures var t := AddRange(rs, freshId, ProtectArgs(r, lo, hi, flags));
            && (Find(t.rs, a).Some? <==> Find(rs, a).Some?)
            && (Find(rs, a).Some? ==>
                  && Find(rs, a).value.base >= r.End()
                  && (Find(t.rs, a) == Find(rs, a) || (Find(t.rs, a).value.kind == Anonymous && Find(rs, a).value.kind == Anonymous)))
  {
    var args, s := ProtectArgs(r, lo, hi, flags), Scan(rs, 0, freshId, false);
    WindowAlone(rs, freshId, r, lo, hi, flags, r);
    TurnAt(rs, freshId, r, lo, hi, flags, a);
    FindMember(rs, a);
    if Find(rs, a).Some? {
      WindowAlone(rs, freshId, r, lo, hi, flags, Find(rs, a).value);
    }
    var i :| 0 <= i < |rs| && rs[i] == r;
    if Classify(r, args) == Exact {
      PassExact(s, args, i);
      ReplaceMembers(rs, i, r.(flags := flags));
      if Find(rs, a).Some? {
        FindUnique(AddRange(rs, freshId, args).rs, a, Find(rs, a).value);
      }
    } else {
      forall x | x in rs
        ensures Classify(x, args) != Exact
      {
        WindowAlone(rs, freshId, r, lo, hi, flags, x);
      }
      PassClears(s, args);
      if Find(rs, a).Some? {
        PassKeepsSkipped(s, args, Find(rs, a).value);
        var t := RunPass(s, args).scan;
        FinishKeeps(t.rs, t.freshId, args, Find(rs, a).value, a);
      }
    }
  }

  /** A range outside the window goes through a pass untouched. */
  lemma {:induction false} PassKeepsSkipped(s: Scan, args: Args, x: MappedRange)
    requires ScanOk(s, args) && NoExact(s.rs, args) && x in s.rs && Classify(x, args) == Skip
    ensures RunPass(s, args).Done? && x in RunPass(s, args).scan.rs
    decreases Work(s.rs[s.next..], args)
  {
    if s.next < |s.rs| {
      StepNoExact(s, args);
      StepProgress(s, args);
      StepOk(s, args);
      StepMembers(s, args);
      PassKeepsSkipped(StepScan(s, args), args, x);
    }
  }

  lemma FinishKeeps(rs: seq<MappedRange>, freshId: nat, args: Args, x: MappedRange, a: nat)
    requires ListOk(rs, freshId) && NoOverlap(rs, args) && args.WellFormed() && x in rs && x.Covers(a)
    ensures var t := Finish(rs, freshId, args);
            Find(t.rs, a) == Some(x) || (Find(t.rs, a).Some? && Find(t.rs, a).value.kind == Anonymous && x.kind == Anonymous)
  {
    FinishOk(rs, freshId, args);
    var t := Finish(rs, freshId, args);
    var m := MergeIndex(rs, args);
    if m.Some? {
      var r := rs[m.value];
      ReplaceMembers(rs, m.value, Merged(r, args));
      FindUnique(t.rs, a, if x == r then Merged(r, args) else x);
    } else {
      if args.kind != NoRange {
        InsertMembers(rs, MakeRange(args, freshId));
      }
      FindUnique(t.rs, a, x);
    }
  }

  /** mprotect keeps the backing of every page except exactly the displaced ones before the first hole. */
  lemma ProtectBacking(rs: seq<MappedRange>, freshId: nat, lo: nat, hi: nat, flags: nat, a: nat)
    requires ListOk(rs, freshId)
    ensures BackingAt(ProtectList(rs, freshId, lo, hi, flags).rs, a) == BackingAt(rs, a) <==> !Displaced(rs, lo, FirstHole(rs, lo, hi), a)
  {
    ProtectBackingTo(rs, freshId, lo, hi, flags, a);
    ProtectStops(rs, freshId, lo, hi, flags);
  }

  lemma {:induction false} ProtectBackingTo(rs: seq<MappedRange>, freshId: nat, lo: nat, hi: nat, flags: nat, a: nat)
    requires ListOk(rs, freshId)
    ensures var t := ProtectList(rs, freshId, lo, hi, flags);
            BackingAt(t.rs, a) == BackingAt(rs, a) <==> !Displaced(rs, lo, t.stop, a)
    decreases if lo < hi then hi - lo else 0
  {
    FindMember(rs, lo);
    if lo < hi && Find(rs, lo).Some? {
      var r := Find(rs, lo).value;
      var args := ProtectArgs(r, lo, hi, flags);
      var t := AddRange(rs, freshId, args);
      TurnAt(rs, freshId, r, lo, hi, flags, a);
      ProtectBackingTo(t.rs, t.freshId, args.End(), hi, flags, a);
      ProtectAt(t.rs, t.freshId, args.End(), hi, flags, a);
      TurnBacking(rs, freshId, r, lo, hi, flags, a);
      if a >= r.End() && r.End() <= hi {
        TurnFurther(rs, freshId, r, lo, hi, flags, a);
        FindMember(t.rs, a);
      }
    }
  }

  lemma TurnBacking(rs: seq<MappedRange>, freshId: nat, r: MappedRange, lo: nat, hi: nat, flags: nat, a: nat)
    requires ListOk(rs, freshId) && r in rs && r.Covers(lo) && lo < hi && Find(rs, lo) == Some(r)
    ensures var args := ProtectArgs(r, lo, hi, flags);
            BackingAt(AddRange(rs, freshId, args).rs, a) == BackingAt(rs, a) <==> !Displaced(rs, lo, args.End(), a)
  {
    var args := ProtectArgs(r, lo, hi, flags);
    TurnAt(rs, freshId, r, lo, hi, flags, a);
    WindowAlone(rs, freshId, r, lo, hi, flags, r);
    FindMember(rs, a);
    if args.Inside(a) {
      TurnBackingInside(rs, freshId, r, lo, hi, flags, a);
    } else {
      AddRangeBackingAt(rs, freshId, args, a);
      if Find(rs, a).Some? {
        WindowAlone(rs, freshId, r, lo, hi, flags, Find(rs, a).value);
      }
    }
  }
}
