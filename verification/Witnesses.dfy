/**
  The smallest runs in which a mapping loses its file offset. A file of four pages is mapped and
  its first page unmapped, which leaves a range that no longer starts where it was created; a
  split, mprotect and fork then each count offsets from the wrong base. And a run in which a new
  mapping shows what was there before.
 */
module Witnesses {
  import opened Common
  import opened Ranges
  import opened Protect
  import opened PageTable
  import opened Memory
  import opened Fork
  import opened Machine

  /** mmap of four pages of a file at page 0. */
  function Mapped(flags: nat, file: nat): Added {
    Ranges.AddRange([], 0, FileArgs(0, 4, flags, file, 0))
  }

  /** Then munmap of page 0. */
  function WithoutFront(flags: nat, file: nat): Added {
    Ranges.AddRange(Mapped(flags, file).rs, Mapped(flags, file).freshId, UnmapArgs(0, 1))
  }

  function Remainder(flags: nat, file: nat): MappedRange {
    MappedRange(0, 1, 0, 3, flags, File, 0, Some(file), 0)
  }

  lemma FrontGone(flags: nat, file: nat)
    ensures Mapped(flags, file) == Added([MappedRange(0, 0, 0, 4, flags, File, 0, Some(file), 0)], 1)
    ensures WithoutFront(flags, file) == Added([Remainder(flags, file)], 1) && ListOk([Remainder(flags, file)], 1)
    ensures forall q: nat :: 1 <= q < 4 ==> BackingAt(WithoutFront(flags, file).rs, q) == Some(q * PAGE_SIZE)
  {
    var whole, args := MappedRange(0, 0, 0, 4, flags, File, 0, Some(file), 0), UnmapArgs(0, 1);
    NothingToDo([], 0, FileArgs(0, 4, flags, file, 0));
    assert Classify(whole, args) == TrimLeft;
    assert StepScan(Scan([whole], 0, 1, false), args) == Scan([Remainder(flags, file)], 1, 1, true);
    NothingToDo([Remainder(flags, file)], 1, args);
    assert RunPass(Scan([whole], 0, 1, false), args) == Done(Scan([Remainder(flags, file)], 1, 1, true));
    assert Mapped(flags, file) == Added([whole], 1);
    assert WithoutFront(flags, file) == Added([Remainder(flags, file)], 1);
    forall q: nat | 1 <= q < 4
      ensures BackingAt(WithoutFront(flags, file).rs, q) == Some(q * PAGE_SIZE)
    {
      FindOnly(Remainder(flags, file), q);
    }
  }

  lemma NothingToDo(rs: seq<MappedRange>, freshId: nat, args: Args)
    ensures forall overlap :: RunPass(Scan(rs, |rs|, freshId, overlap), args) == Done(Scan(rs, |rs|, freshId, overlap))
  {
  }

  lemma FindOnly(r: MappedRange, a: nat)
    requires r.Covers(a)
    ensures Find([r], a) == Some(r)
  {
    assert [r][0] == r;
  }

  lemma FindSecond(l: MappedRange, r: MappedRange, a: nat)
    requires !l.Covers(a) && r.Covers(a)
    ensures Find([l, r], a) == Some(r)
  {
    FindOnly(r, a);
    assert [l, r][1..] == [r];
  }

  /** munmap of page 2 cuts the remainder in two: page 3 now reads page 2 of the file. */
  lemma SplitLosesOffset(flags: nat, file: nat)
    ensures BackingAt(WithoutFront(flags, file).rs, 3) == Some(3 * PAGE_SIZE)
    ensures BackingAt(Ranges.AddRange(WithoutFront(flags, file).rs, WithoutFront(flags, file).freshId, UnmapArgs(2, 1)).rs, 3) == Some(2 * PAGE_SIZE)
  {
    FrontGone(flags, file);
    var s, args := Scan([Remainder(flags, file)], 0, 1, false), UnmapArgs(2, 1);
    assert Classify(Remainder(flags, file), args) == Split;
    PassSplit(s, args, 0);
    var left, right := TrimmedRight(Remainder(flags, file), args), SplitRange(Remainder(flags, file), args, 1);
    assert StepScan(s, args).rs == [left, right];
    FindSecond(left, right, 3);
  }

  lemma OneTurn(rs: seq<MappedRange>, freshId: nat, r: MappedRange, lo: nat, hi: nat, flags: nat)
    requires Find(rs, lo) == Some(r) && r.Covers(lo) && lo < hi <= r.End()
    ensures ProtectList(rs, freshId, lo, hi, flags).rs == Ranges.AddRange(rs, freshId, ProtectArgs(r, lo, hi, flags)).rs
  {
    assert ProtectArgs(r, lo, hi, flags).End() == hi;
  }

  /** mprotect of any window behind page 1: every page of the window now reads the page of the file before its own. */
  lemma ProtectLosesOffset(flags: nat, file: nat, lo: nat, hi: nat, newFlags: nat, q: nat)
    requires 1 < lo <= q < hi <= 4
    ensures BackingAt(WithoutFront(flags, file).rs, q) == Some(q * PAGE_SIZE)
    ensures BackingAt(ProtectList(WithoutFront(flags, file).rs, WithoutFront(flags, file).freshId, lo, hi, newFlags).rs, q) == Some((q - 1) * PAGE_SIZE)
  {
    FrontGone(flags, file);
    OneTurn([Remainder(flags, file)], 1, Remainder(flags, file), lo, hi, newFlags);
    TurnMakes([Remainder(flags, file)], 1, Remainder(flags, file), lo, hi, newFlags, q);
  }

  /** fork: at page 1 the child's fault brings in page 0 of the file, the parent's page 1. */
  lemma ForkReadsOther(m0: Memory, m: Memory, p: Places, s: nat, c: nat, flags: nat, file: nat)
    requires IsFork(m0, m, p, s, c) && m0.spaces[s].ranges == WithoutFront(flags, file).rs
    ensures At(m.spaces[c].ranges, 1) == At(m0.spaces[s].ranges, 1)
    ensures BackingAt(m0.spaces[s].ranges, 1) == Some(PAGE_SIZE) && BackingAt(m.spaces[c].ranges, 1) == Some(0)
  {
    FrontGone(flags, file);
    FindOnly(Remainder(flags, file), 1);
    assert RangeCopied(m0.spaces[s].ranges, m.spaces[c].ranges, 1);
  }

  // ---------------------------------------------------------------- old bytes in a new mapping

  /** Two pages of memory, the first of them resident and beginning with 42. */
  ghost predicate Holds42(m: Memory, files: map<nat, seq<byte>>, s: nat) {
    && s in m.spaces && |m.spaces[s].ranges| == 1 && m.spaces[s].ranges[0].base == 0 && m.spaces[s].ranges[0].length == 2
    && Present(EntryOf(m, s, 0)) && Begins42(View(m, files, s, 0))
  }

  ghost predicate Begins42(page: Option<seq<byte>>) {
    page.Some? && |page.value| == 0x1000 && page.value[0] == 42
  }

  /** A process with two pages of memory writes 42 into the first one. */
  method Write42(m0: Memory, ghost p0: Places, files: map<nat, seq<byte>>, s: nat, r: MappedRange) returns (m: Memory, ghost p: Places)
    requires Strict(m0, p0) && s in m0.spaces && m0.spaces[s].ranges == [r] && r.base == 0 && r.length == 2 && |m0.freelist| >= 4
    ensures Strict(m, p) && Holds42(m, files, s)
  {
    FindOnly(r, 0);
    AtMostMissing(m0.phys, m0.spaces[s].root, 0, 4);
    var ok;
    ok, m, p := TakeFault(m0, p0, files, s, 0);
    m := Write(m, p, files, s, 0, 0, 42);
  }

  /** Then it maps a file, whatever is in it, at a fixed address over that page: it still reads 42. */
  method OldBytesStay(m0: Memory, ghost p0: Places, s: nat, r: MappedRange, content: seq<byte>) returns (m: Memory, ghost p: Places)
    requires Strict(m0, p0) && s in m0.spaces && m0.spaces[s].ranges == [r] && r.base == 0 && r.length == 2 && |m0.freelist| >= 4
    ensures Strict(m, p) && s in m.spaces && At(m.spaces[s].ranges, 0) == Some(Mapping(File, 5, Some(7)))
    ensures Begins42(View(m, map[7 := content], s, 0))
  {
    var files := map[7 := content];
    m, p := Write42(m0, p0, files, s, r);
    ghost var m1, p1 := m, p;
    assert m1.spaces[s].ranges[0] in m1.spaces[s].ranges;
    m, p := Request(m, p, files, s, FileArgs(0, 1, 5, 7, 0));
    FileShown(m1, p1, m, files, s, 0, 1, 5, 7, 0, 0);
  }
}
