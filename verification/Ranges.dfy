/**
  The list of mapped ranges of a pagemap and what add_range does to it.

  Addresses are virtual page numbers: every base and length the system calls hand
  to add_range is a multiple of PAGE_SIZE. File offsets and physical addresses stay in bytes.
  The list is not sorted: an insertion never goes before the first element.
 */
module Ranges {
  import opened Common

  datatype RangeType = NoRange | Direct | Anonymous | File | DirectVirtual

  datatype MappedRange = MappedRange(
    id: nat,              // stands for the address of the range object
    base: nat,
    originalBase: nat,    // used for fixing offsets after the base is changed
    length: nat,
    flags: nat,
    kind: RangeType,
    phyBase: nat,
    file: Option<nat>,
    fileOffset: nat)
  {
    function End(): nat { base + length }

    predicate Covers(a: nat) { base <= a < End() }

    predicate Overlaps(lo: nat, hi: nat) { !(lo >= End() || hi <= base) }

    /** Where page `a` of the range comes from: a file offset or a physical address. */
    function Backing(a: nat): Option<int> {
      match kind
      case File => Some((a - originalBase) * PAGE_SIZE + fileOffset)
      case Direct => Some((a - originalBase) * PAGE_SIZE + phyBase)
      case DirectVirtual => Some((a - originalBase) * PAGE_SIZE + phyBase)
      case _ => None
    }

    /** Only file ranges name a file. Only an anonymous range can grow to the left, by merging. */
    predicate WellFormed() {
      && kind != NoRange
      && length > 0
      && (file.Some? <==> kind == File)
      && (kind != Anonymous ==> originalBase <= base)
    }
  }

  /** What the caller sees at an address: type, flags and file of the covering range. */
  datatype Mapping = Mapping(kind: RangeType, flags: nat, file: Option<nat>)

  /** The arguments of add_range. */
  datatype Args = Args(
    base: nat, length: nat, flags: nat, kind: RangeType, phyBase: nat,
    file: Option<nat>, fileOffset: nat, merge: bool, resolve: bool, keep: bool)
  {
    function End(): nat { base + length }

    predicate Inside(a: nat) { base <= a < End() }

    /** Only a removal may be empty (it then cuts a range in two): mmap, mprotect and brk never map zero pages. */
    predicate WellFormed() { (file.Some? <==> kind == File) && (kind != NoRange ==> length > 0) }
  }

  ghost predicate Apart(r: MappedRange, q: MappedRange) {
    r.End() <= q.base || q.End() <= r.base
  }

  ghost predicate Disjoint(rs: seq<MappedRange>) {
    forall i, j :: 0 <= i < j < |rs| ==> Apart(rs[i], rs[j])
  }

  ghost predicate AllWellFormed(rs: seq<MappedRange>) {
    forall r :: r in rs ==> r.WellFormed()
  }

  /** The uncached scan of addr_to_range: the first range of the list that covers the address. */
  function Find(rs: seq<MappedRange>, a: nat): Option<MappedRange> {
    if rs == [] then None
    else if rs[0].Covers(a) then Some(rs[0])
    else Find(rs[1..], a)
  }

  function At(rs: seq<MappedRange>, a: nat): Option<Mapping> {
    match Find(rs, a)
    case None => None
    case Some(r) => Some(Mapping(r.kind, r.flags, r.file))
  }

  function BackingAt(rs: seq<MappedRange>, a: nat): Option<int> {
    match Find(rs, a)
    case None => None
    case Some(r) => r.Backing(a)
  }

  lemma {:induction false} FindMember(rs: seq<MappedRange>, a: nat)
    ensures Find(rs, a).Some? ==> Find(rs, a).value in rs && Find(rs, a).value.Covers(a)
    ensures Find(rs, a).None? ==> forall r :: r in rs ==> !r.Covers(a)
  {
    if rs != [] {
      FindMember(rs[1..], a);
      assert rs == [rs[0]] + rs[1..];
    }
  }

  /** In a disjoint list at most one range covers an address, so the scan order is irrelevant. */
  lemma {:induction false} FindUnique(rs: seq<MappedRange>, a: nat, r: MappedRange)
    requires Disjoint(rs) && r in rs && r.Covers(a)
    ensures Find(rs, a) == Some(r)
  {
    FindMember(rs, a);
    var q := Find(rs, a).value;
    var i :| 0 <= i < |rs| && rs[i] == r;
    var j :| 0 <= j < |rs| && rs[j] == q;
    ApartAt(rs, i, j);
  }

  lemma ApartAt(rs: seq<MappedRange>, i: nat, j: nat)
    requires Disjoint(rs) && i < |rs| && j < |rs|
    ensures i != j ==> Apart(rs[i], rs[j])
  {
  }

  lemma FindNone(rs: seq<MappedRange>, a: nat)
    requires forall r :: r in rs ==> !r.Covers(a)
    ensures Find(rs, a) == None
  {
    FindMember(rs, a);
  }

  // ---------------------------------------------------------------- the list edits

  function MakeRange(args: Args, id: nat): MappedRange {
    MappedRange(id, args.base, args.base, args.length, args.flags, args.kind, args.phyBase, args.file, args.fileOffset)
  }

  function InsertFrom(rs: seq<MappedRange>, i: nat, base: nat): (k: nat)
    requires i <= |rs|
    ensures i <= k <= |rs|
    decreases |rs| - i
  {
    if i == |rs| || rs[i].base > base then i else InsertFrom(rs, i + 1, base)
  }

  function InsertIndex(rs: seq<MappedRange>, base: nat): (k: nat)
    ensures k <= |rs|
  {
    if rs == [] then 0 else InsertFrom(rs, 1, base)
  }

  function Insert(rs: seq<MappedRange>, r: MappedRange): seq<MappedRange> {
    var k := InsertIndex(rs, r.base);
    rs[..k] + [r] + rs[k..]
  }

  datatype Step = Skip | Exact | Covered | TrimLeft | TrimRight | Split

  /** Which branch the overlap loop takes for one existing range. */
  function Classify(r: MappedRange, args: Args): Step {
    if !r.Overlaps(args.base, args.End()) then Skip
    else if args.base <= r.base then
      if args.End() >= r.End() then
        if args.keep && args.base == r.base && args.End() == r.End() && args.kind == r.kind then Exact else Covered
      else TrimLeft
    else if args.End() >= r.End() then TrimRight
    else Split
  }

  function TrimmedLeft(r: MappedRange, args: Args): MappedRange
    requires Classify(r, args) == TrimLeft
  {
    var overlap := args.End() - r.base;
    r.(base := r.base + overlap, length := r.length - overlap)
  }

  function TrimmedRight(r: MappedRange, args: Args): MappedRange
    requires Classify(r, args) == TrimRight || Classify(r, args) == Split
  {
    r.(length := args.base - r.base)
  }

  /** The arguments of the nested add_range that creates the right part of a split range. */
  function SplitArgs(r: MappedRange, args: Args): Args
    requires Classify(r, args) == Split
  {
    var offset := (args.End() - r.base) * PAGE_SIZE;
    Args(args.End(), r.End() - args.End(), r.flags, r.kind,
         if r.phyBase != 0 then r.phyBase + offset else 0,
         r.file, r.fileOffset + offset, false, false, args.keep)
  }

  function SplitRange(r: MappedRange, args: Args, id: nat): MappedRange
    requires Classify(r, args) == Split
  {
    MakeRange(SplitArgs(r, args), id)
  }

  /** State of the overlap loop: the list, the next element, fresh identity and had_overlap. */
  datatype Scan = Scan(rs: seq<MappedRange>, next: nat, freshId: nat, overlap: bool)

  /** One iteration of the overlap loop, except for the branch that updates a range in place. */
  function StepScan(s: Scan, args: Args): Scan
    requires s.next < |s.rs| && Classify(s.rs[s.next], args) != Exact
  {
    var i, r := s.next, s.rs[s.next];
    match Classify(r, args)
    case Skip => s.(next := i + 1)
    case Covered => Scan(s.rs[..i] + s.rs[i+1..], i, s.freshId, true)
    case TrimLeft => Scan(s.rs[i := TrimmedLeft(r, args)], i + 1, s.freshId, true)
    case TrimRight => Scan(s.rs[i := TrimmedRight(r, args)], i + 1, s.freshId, true)
    case Split =>
      // the successor was fetched before the insertion, so the new range may be passed over
      var cut := s.rs[i := TrimmedRight(r, args)];
      var k := InsertIndex(cut, args.End());
      Scan(Insert(cut, SplitRange(r, args, s.freshId)), if k <= i + 1 then i + 2 else i + 1, s.freshId + 1, true)
  }

  /** Work left in a pass: an overlapping range may still add one element that needs no work. */
  function Work(rs: seq<MappedRange>, args: Args): nat {
    if rs == [] then 0
    else (if rs[0].Overlaps(args.base, args.End()) then 2 else 1) + Work(rs[1..], args)
  }

  lemma {:induction false} WorkConcat(a: seq<MappedRange>, b: seq<MappedRange>, args: Args)
    ensures Work(a + b, args) == Work(a, args) + Work(b, args)
  {
    if a == [] {
      assert a + b == b;
    } else {
      assert (a + b)[1..] == a[1..] + b;
      WorkConcat(a[1..], b, args);
    }
  }

  /** Every iteration makes progress, so a pass over the list terminates from any list whatever. */
  lemma StepProgress(s: Scan, args: Args)
    requires s.next < |s.rs| && Classify(s.rs[s.next], args) != Exact
    ensures StepScan(s, args).next <= |StepScan(s, args).rs|
    ensures Work(StepScan(s, args).rs[StepScan(s, args).next..], args) < Work(s.rs[s.next..], args)
  {
    var i, r, t := s.next, s.rs[s.next], StepScan(s, args);
    assert s.rs[i..] == [r] + s.rs[i+1..];
    match Classify(r, args)
    case Skip =>
    case Covered => assert t.rs[t.next..] == s.rs[i+1..];
    case TrimLeft => assert t.rs[t.next..] == s.rs[i+1..];
    case TrimRight => assert t.rs[t.next..] == s.rs[i+1..];
    case Split => SplitProgress(s, args);
  }

  /** The new right part may have to be passed over, but it needs no work. */
  lemma SplitProgress(s: Scan, args: Args)
    requires s.next < |s.rs| && Classify(s.rs[s.next], args) == Split
    ensures StepScan(s, args).next <= |StepScan(s, args).rs|
    ensures Work(StepScan(s, args).rs[StepScan(s, args).next..], args) <= 1 + Work(s.rs[s.next + 1..], args)
  {
    var i, r, t := s.next, s.rs[s.next], StepScan(s, args);
    var cut := s.rs[i := TrimmedRight(r, args)];
    var k := InsertIndex(cut, args.End());
    var q := SplitRange(r, args, s.freshId);
    if k <= i + 1 {
      assert t.rs[t.next..] == s.rs[i+1..];
    } else {
      var a, b := s.rs[i+1..k], s.rs[k..];
      assert cut[i+1..k] == a && cut[k..] == b && t.rs == cut[..k] + [q] + cut[k..];
      assert cut[..k] == cut[..i+1] + a;
      assert t.rs[t.next..] == a + ([q] + b);
      assert s.rs[i+1..] == a + b;
      WorkConcat(a, [q] + b, args);
      WorkConcat(a, b, args);
      assert ([q] + b)[1..] == b;
    }
  }

  /** How a pass over the list ends. */
  datatype Pass = Done(scan: Scan) | InPlace(scan: Scan)

  /** One pass of the overlap loop, from element `s.next` on. */
  function RunPass(s: Scan, args: Args): Pass
    requires s.next <= |s.rs|
    decreases Work(s.rs[s.next..], args)
  {
    if s.next == |s.rs| then Done(s)
    else if Classify(s.rs[s.next], args) == Exact then
      InPlace(s.(rs := s.rs[s.next := s.rs[s.next].(flags := args.flags)]))
    else
      StepProgress(s, args);
      RunPass(StepScan(s, args), args)
  }

  // ---------------------------------------------------------------- what a step keeps

  ghost predicate UniqueIds(rs: seq<MappedRange>, freshId: nat) {
    && (forall i, j :: 0 <= i < j < |rs| ==> rs[i].id != rs[j].id)
    && (forall r :: r in rs ==> r.id < freshId)
  }

  ghost predicate ListOk(rs: seq<MappedRange>, freshId: nat) {
    Disjoint(rs) && AllWellFormed(rs) && UniqueIds(rs, freshId)
  }

  /** The elements the pass has left behind no longer overlap the requested window. */
  ghost predicate ScanOk(s: Scan, args: Args) {
    && ListOk(s.rs, s.freshId)
    && s.next <= |s.rs|
    && forall k :: 0 <= k < s.next ==> !s.rs[k].Overlaps(args.base, args.End())
  }

  /** What is left of one range after its iteration. */
  function Pieces(r: MappedRange, args: Args, freshId: nat): set<MappedRange>
    requires Classify(r, args) != Exact
  {
    match Classify(r, args)
    case Skip => {r}
    case Covered => {}
    case TrimLeft => {TrimmedLeft(r, args)}
    case TrimRight => {TrimmedRight(r, args)}
    case Split => {TrimmedRight(r, args), SplitRange(r, args, freshId)}
  }

  lemma InsertMembers(rs: seq<MappedRange>, r: MappedRange)
    ensures forall x :: x in Insert(rs, r) <==> x in rs || x == r
    ensures |Insert(rs, r)| == |rs| + 1
  {
    var k := InsertIndex(rs, r.base);
    assert rs == rs[..k] + rs[k..];
  }

  /** The list `rs'` is `rs` with range `r` exchanged for `pieces`. */
  ghost predicate Exchanged(rs: seq<MappedRange>, rs': seq<MappedRange>, r: MappedRange, pieces: set<MappedRange>) {
    && r in rs
    && (forall x :: x in rs' ==> (x in rs && x != r) || x in pieces)
    && (forall x :: x in rs && x != r ==> x in rs')
    && (forall x :: x in pieces ==> x in rs')
  }

  lemma ReplaceMembers(rs: seq<MappedRange>, i: nat, r: MappedRange)
    requires i < |rs| && forall j :: 0 <= j < |rs| && j != i ==> rs[j].id != rs[i].id
    ensures Exchanged(rs, rs[i := r], rs[i], {r})
  {
    var rs' := rs[i := r];
    forall x | x in rs && x != rs[i]
      ensures x in rs'
    {
      var j :| 0 <= j < |rs| && rs[j] == x;
      assert rs'[j] == x;
    }
    assert rs'[i] == r;
  }

  lemma RemoveMembers(rs: seq<MappedRange>, i: nat)
    requires i < |rs| && forall j :: 0 <= j < |rs| && j != i ==> rs[j].id != rs[i].id
    ensures Exchanged(rs, rs[..i] + rs[i+1..], rs[i], {})
  {
    assert rs == rs[..i] + [rs[i]] + rs[i+1..];
  }

  lemma StepMembers(s: Scan, args: Args)
    requires ScanOk(s, args) && s.next < |s.rs| && Classify(s.rs[s.next], args) != Exact
    ensures Exchanged(s.rs, StepScan(s, args).rs, s.rs[s.next], Pieces(s.rs[s.next], args, s.freshId))
  {
    var i, r := s.next, s.rs[s.next];
    assert forall j :: 0 <= j < |s.rs| && j != i ==> s.rs[j].id != s.rs[i].id;
    match Classify(r, args)
    case Skip =>
    case Covered => RemoveMembers(s.rs, i);
    case TrimLeft => ReplaceMembers(s.rs, i, TrimmedLeft(r, args));
    case TrimRight => ReplaceMembers(s.rs, i, TrimmedRight(r, args));
    case Split =>
      ReplaceMembers(s.rs, i, TrimmedRight(r, args));
      InsertMembers(s.rs[i := TrimmedRight(r, args)], SplitRange(r, args, s.freshId));
  }

  /** Exchanging a range for pieces of it moves only the addresses the range covered. */
  lemma ExchangedFind(rs: seq<MappedRange>, rs': seq<MappedRange>, r: MappedRange, pieces: set<MappedRange>, a: nat)
    requires Disjoint(rs) && Disjoint(rs') && Exchanged(rs, rs', r, pieces)
    requires forall p :: p in pieces && p.Covers(a) ==> r.Covers(a)
    ensures !r.Covers(a) ==> Find(rs', a) == Find(rs, a)
    ensures r.Covers(a) ==> Find(rs, a) == Some(r)
    ensures forall p :: p in pieces && p.Covers(a) ==> Find(rs', a) == Some(p)
    ensures r.Covers(a) && (forall p :: p in pieces ==> !p.Covers(a)) ==> Find(rs', a) == None
  {
    FindMember(rs, a);
    FindMember(rs', a);
    if r.Covers(a) {
      FindUnique(rs, a, r);
      if Find(rs', a).Some? && Find(rs', a).value !in pieces {
        FindUnique(rs, a, Find(rs', a).value);
      }
    } else if Find(rs, a).Some? {
      FindUnique(rs', a, Find(rs, a).value);
    }
    forall p | p in pieces && p.Covers(a)
      ensures Find(rs', a) == Some(p)
    {
      FindUnique(rs', a, p);
    }
  }

  lemma ReplaceOk(rs: seq<MappedRange>, i: nat, r: MappedRange, freshId: nat)
    requires ListOk(rs, freshId) && i < |rs| && r.WellFormed() && r.id == rs[i].id
    requires rs[i].base <= r.base && r.End() <= rs[i].End()
    ensures ListOk(rs[i := r], freshId)
  {
    var rs' := rs[i := r];
    forall j, k | 0 <= j < k < |rs'|
      ensures Apart(rs'[j], rs'[k]) && rs'[j].id != rs'[k].id
    {
      assert Apart(rs[j], rs[k]) && rs[j].id != rs[k].id;
    }
  }

  lemma InsertOk(rs: seq<MappedRange>, r: MappedRange, freshId: nat)
    requires ListOk(rs, freshId) && r.WellFormed() && r.id == freshId
    requires forall q :: q in rs ==> Apart(q, r)
    ensures ListOk(Insert(rs, r), freshId + 1)
  {
    var k := InsertIndex(rs, r.base);
    var rs' := Insert(rs, r);
    forall i, j | 0 <= i < j < |rs'|
      ensures Apart(rs'[i], rs'[j]) && rs'[i].id != rs'[j].id
    {
      var i0 := if i < k then i else i - 1;
      var j0 := if j < k then j else j - 1;
      if i == k {
        assert rs'[j] == rs[j0] && rs[j0] in rs;
      } else if j == k {
        assert rs'[i] == rs[i0] && rs[i0] in rs;
      } else {
        assert rs'[i] == rs[i0] && rs'[j] == rs[j0] && Apart(rs[i0], rs[j0]);
      }
    }
    InsertMembers(rs, r);
  }

  lemma RemoveOk(rs: seq<MappedRange>, i: nat, freshId: nat)
    requires ListOk(rs, freshId) && i < |rs|
    ensures ListOk(rs[..i] + rs[i+1..], freshId)
  {
    var rs' := rs[..i] + rs[i+1..];
    forall j, k | 0 <= j < k < |rs'|
      ensures Apart(rs'[j], rs'[k]) && rs'[j].id != rs'[k].id
    {
      var j0 := if j < i then j else j + 1;
      var k0 := if k < i then k else k + 1;
      assert rs'[j] == rs[j0] && rs'[k] == rs[k0] && Apart(rs[j0], rs[k0]);
    }
  }

  lemma StepOk(s: Scan, args: Args)
    requires ScanOk(s, args) && s.next < |s.rs| && Classify(s.rs[s.next], args) != Exact
    ensures ScanOk(StepScan(s, args), args)
  {
    var i, r, t := s.next, s.rs[s.next], StepScan(s, args);
    assert r in s.rs;
    match Classify(r, args)
    case Skip =>
    case Covered => RemoveOk(s.rs, i, s.freshId);
    case TrimLeft => ReplaceOk(s.rs, i, TrimmedLeft(r, args), s.freshId);
    case TrimRight => ReplaceOk(s.rs, i, TrimmedRight(r, args), s.freshId);
    case Split => StepSplitOk(s, args);
  }

  lemma StepSplitOk(s: Scan, args: Args)
    requires ScanOk(s, args) && s.next < |s.rs| && Classify(s.rs[s.next], args) == Split
    ensures ScanOk(StepScan(s, args), args)
  {
    var i, r, t := s.next, s.rs[s.next], StepScan(s, args);
    var left, right := TrimmedRight(r, args), SplitRange(r, args, s.freshId);
    var cut := s.rs[i := left];
    assert r in s.rs;
    ReplaceOk(s.rs, i, left, s.freshId);
    forall q | q in cut
      ensures Apart(q, right)
    {
      var j :| 0 <= j < |cut| && cut[j] == q;
      assert j < i ==> Apart(s.rs[j], s.rs[i]);
      assert i < j ==> Apart(s.rs[i], s.rs[j]);
    }
    InsertOk(cut, right, s.freshId);
  }

  /** The split keeps the backing of the right part exactly when the base has never been moved. */
  predicate SplitSafe(r: MappedRange) {
    match r.kind
    case File => r.base == r.originalBase
    case Direct => r.base == r.originalBase && r.phyBase != 0
    case DirectVirtual => r.base == r.originalBase && r.phyBase != 0
    case _ => true
  }

  /** The piece that keeps an address of `r` lying outside the window. */
  lemma PieceFor(r: MappedRange, args: Args, freshId: nat, a: nat) returns (piece: MappedRange)
    requires r.WellFormed() && Classify(r, args) != Exact && r.Covers(a) && !args.Inside(a)
    ensures piece in Pieces(r, args, freshId) && piece.Covers(a)
    ensures piece.kind == r.kind && piece.flags == r.flags && piece.file == r.file
    ensures piece.Backing(a) == r.Backing(a) <==>
            (Classify(r, args) == Split && a >= args.End() ==> SplitSafe(r))
  {
    match Classify(r, args)
    case Skip => piece := r;
    case Covered =>
      assert false;
    case TrimLeft => piece := TrimmedLeft(r, args);
    case TrimRight => piece := TrimmedRight(r, args);
    case Split => piece := if a < args.base then TrimmedRight(r, args) else SplitRange(r, args, freshId);
  }

  lemma PiecesInside(r: MappedRange, args: Args, freshId: nat, a: nat)
    requires Classify(r, args) != Exact
    ensures forall p :: p in Pieces(r, args, freshId) && p.Covers(a) ==> r.Covers(a)
  {
  }

  /**
    Outside the window a step never changes the mapping; it changes the backing exactly when it
    splits an unsafe range and the address is in the right part.
   */
  lemma StepKeeps(s: Scan, args: Args, a: nat)
    requires ScanOk(s, args) && s.next < |s.rs| && Classify(s.rs[s.next], args) != Exact
    requires !args.Inside(a)
    ensures At(StepScan(s, args).rs, a) == At(s.rs, a)
    ensures (Classify(s.rs[s.next], args) == Split && a >= args.End() && s.rs[s.next].Covers(a)
             ==> SplitSafe(s.rs[s.next]))
            <==> BackingAt(StepScan(s, args).rs, a) == BackingAt(s.rs, a)
  {
    var r, t := s.rs[s.next], StepScan(s, args);
    var pieces := Pieces(r, args, s.freshId);
    assert r in s.rs && Disjoint(s.rs) && r.WellFormed();
    assert Disjoint(t.rs) by { StepOk(s, args); }
    assert Exchanged(s.rs, t.rs, r, pieces) by { StepMembers(s, args); }
    PiecesInside(r, args, s.freshId, a);
    ExchangedFind(s.rs, t.rs, r, pieces, a);
    if r.Covers(a) {
      var piece := PieceFor(r, args, s.freshId, a);
    }
  }

  // ---------------------------------------------------------------- a whole pass

  ghost predicate NoOverlap(rs: seq<MappedRange>, args: Args) {
    forall r :: r in rs ==> !r.Overlaps(args.base, args.End())
  }

  ghost predicate NoExact(rs: seq<MappedRange>, args: Args) {
    forall r :: r in rs ==> Classify(r, args) != Exact
  }

  lemma StepNoExact(s: Scan, args: Args)
    requires ScanOk(s, args) && s.next < |s.rs| && NoExact(s.rs, args)
    ensures Classify(s.rs[s.next], args) != Exact
    ensures NoExact(StepScan(s, args).rs, args)
  {
    var r, t := s.rs[s.next], StepScan(s, args);
    assert r in s.rs;
    StepMembers(s, args);
    forall x | x in t.rs
      ensures Classify(x, args) != Exact
    {
      if x in Pieces(r, args, s.freshId) {
        PieceOutside(r, args, s.freshId, x);
      }
    }
  }

  lemma PieceOutside(r: MappedRange, args: Args, freshId: nat, piece: MappedRange)
    requires Classify(r, args) != Exact && piece in Pieces(r, args, freshId)
    ensures !piece.Overlaps(args.base, args.End())
  {
  }

  /** A pass that meets no exact cover clears the window, whatever the order of the list. */
  lemma {:induction false} PassClears(s: Scan, args: Args)
    requires ScanOk(s, args) && NoExact(s.rs, args)
    ensures RunPass(s, args).Done?
    ensures var t := RunPass(s, args).scan;
            ListOk(t.rs, t.freshId) && NoOverlap(t.rs, args) && s.freshId <= t.freshId
    decreases Work(s.rs[s.next..], args)
  {
    if s.next < |s.rs| {
      StepNoExact(s, args);
      StepProgress(s, args);
      StepOk(s, args);
      PassClears(StepScan(s, args), args);
    }
  }

  /** A pass keeps the mapping of every address outside the window. */
  lemma {:induction false} PassKeeps(s: Scan, args: Args, a: nat)
    requires ScanOk(s, args) && NoExact(s.rs, args) && !args.Inside(a)
    ensures RunPass(s, args).Done? && At(RunPass(s, args).scan.rs, a) == At(s.rs, a)
    decreases Work(s.rs[s.next..], args)
  {
    if s.next < |s.rs| {
      StepNoExact(s, args);
      StepProgress(s, args);
      StepOk(s, args);
      StepKeeps(s, args, a);
      PassKeeps(StepScan(s, args), args, a);
    }
  }

  /** In a disjoint list an exact cover is the only overlapping range: the pass only changes its flags. */
  lemma {:induction false} PassExact(s: Scan, args: Args, i: nat)
    requires ScanOk(s, args) && s.next <= i < |s.rs| && Classify(s.rs[i], args) == Exact
    ensures RunPass(s, args) == InPlace(Scan(s.rs[i := s.rs[i].(flags := args.flags)], i, s.freshId, s.overlap))
    decreases i - s.next
  {
    if s.next < i {
      assert Apart(s.rs[s.next], s.rs[i]);
      assert Classify(s.rs[s.next], args) == Skip;
      StepProgress(s, args);
      PassExact(StepScan(s, args), args, i);
    }
  }

  /** The pass that follows a pass without exact cover finds nothing to do. */
  lemma {:induction false} PassIdle(s: Scan, args: Args)
    requires s.next <= |s.rs| && NoOverlap(s.rs, args)
    ensures RunPass(s, args) == Done(s.(next := |s.rs|))
    decreases |s.rs| - s.next
  {
    if s.next < |s.rs| {
      assert s.rs[s.next] in s.rs;
      StepProgress(s, args);
      PassIdle(StepScan(s, args), args);
    }
  }

  // ---------------------------------------------------------------- add_range on the list

  predicate Mergeable(r: MappedRange, args: Args) {
    r.kind == args.kind && r.flags == args.flags && (args.base == r.End() || args.End() == r.base)
  }

  function MergeFrom(rs: seq<MappedRange>, i: nat, args: Args): (m: Option<nat>)
    requires i <= |rs|
    ensures m.Some? ==> i <= m.value < |rs| && Mergeable(rs[m.value], args)
    decreases |rs| - i
  {
    if i == |rs| then None
    else if Mergeable(rs[i], args) then Some(i)
    else MergeFrom(rs, i + 1, args)
  }

  function Merged(r: MappedRange, args: Args): MappedRange
    requires Mergeable(r, args)
  {
    if args.base == r.End() then r.(length := r.length + args.length)
    else r.(base := r.base - args.length, length := r.length + args.length)
  }

  function MergeIndex(rs: seq<MappedRange>, args: Args): (m: Option<nat>)
    ensures m.Some? ==> m.value < |rs| && Mergeable(rs[m.value], args) && args.kind == Anonymous
  {
    if args.merge && args.kind == Anonymous then MergeFrom(rs, 0, args) else None
  }

  datatype Added = Added(rs: seq<MappedRange>, freshId: nat)

  /** After the overlaps are resolved: merge, stop at a removal, or insert a new range. */
  function Finish(rs: seq<MappedRange>, freshId: nat, args: Args): Added {
    var m := MergeIndex(rs, args);
    if m.Some? then Added(rs[m.value := Merged(rs[m.value], args)], freshId)
    else if args.kind == NoRange then Added(rs, freshId)
    else Added(Insert(rs, MakeRange(args, freshId)), freshId + 1)
  }

  /** add_range as it acts on the list of ranges. */
  function AddRange(rs: seq<MappedRange>, freshId: nat, args: Args): Added {
    if !args.resolve then Finish(rs, freshId, args)
    else
      match RunPass(Scan(rs, 0, freshId, false), args)
      case InPlace(t) => Added(t.rs, t.freshId)
      case Done(t) => Finish(t.rs, t.freshId, args)
  }

  /** Callers that may hit the in-place path pass the file of the range that is already there. */
  ghost predicate KeepsFile(rs: seq<MappedRange>, args: Args) {
    forall r :: r in rs && Classify(r, args) == Exact ==> r.file == args.file
  }

  function Requested(args: Args): Option<Mapping> {
    if args.kind == NoRange then None else Some(Mapping(args.kind, args.flags, args.file))
  }

  lemma FinishOk(rs: seq<MappedRange>, freshId: nat, args: Args)
    requires ListOk(rs, freshId) && NoOverlap(rs, args) && args.WellFormed()
    ensures ListOk(Finish(rs, freshId, args).rs, Finish(rs, freshId, args).freshId)
    ensures freshId <= Finish(rs, freshId, args).freshId
  {
    var m := MergeIndex(rs, args);
    if m.Some? {
      MergeOk(rs, freshId, args, m.value);
    } else if args.kind != NoRange {
      InsertOk(rs, MakeRange(args, freshId), freshId);
    }
  }

  lemma MergeOk(rs: seq<MappedRange>, freshId: nat, args: Args, i: nat)
    requires ListOk(rs, freshId) && NoOverlap(rs, args)
    requires i < |rs| && Mergeable(rs[i], args) && args.kind == Anonymous
    ensures ListOk(rs[i := Merged(rs[i], args)], freshId)
  {
    var rs' := rs[i := Merged(rs[i], args)];
    assert rs[i] in rs && rs[i].WellFormed();
    forall j, k | 0 <= j < k < |rs'|
      ensures Apart(rs'[j], rs'[k]) && rs'[j].id != rs'[k].id
    {
      assert Apart(rs[j], rs[k]) && rs[j].id != rs[k].id;
      assert rs[j] in rs && rs[k] in rs;
    }
  }

  lemma FinishAt(rs: seq<MappedRange>, freshId: nat, args: Args, a: nat)
    requires ListOk(rs, freshId) && NoOverlap(rs, args) && args.WellFormed()
    ensures At(Finish(rs, freshId, args).rs, a) == if args.Inside(a) then Requested(args) else At(rs, a)
    ensures !args.Inside(a) ==> BackingAt(Finish(rs, freshId, args).rs, a) == BackingAt(rs, a)
  {
    FinishOk(rs, freshId, args);
    FindMember(rs, a);
    var t := Finish(rs, freshId, args).rs;
    var m := MergeIndex(rs, args);
    if m.Some? {
      var r := rs[m.value];
      assert r in rs && r.WellFormed();
      ReplaceMembers(rs, m.value, Merged(r, args));
      if Merged(r, args).Covers(a) {
        FindUnique(t, a, Merged(r, args));
        if r.Covers(a) {
          FindUnique(rs, a, r);
        }
      } else {
        ExchangedFind(rs, t, r, {Merged(r, args)}, a);
      }
    } else if args.kind != NoRange {
      var r := MakeRange(args, freshId);
      InsertMembers(rs, r);
      if args.Inside(a) {
        FindUnique(t, a, r);
      } else if Find(rs, a).Some? {
        FindUnique(t, a, Find(rs, a).value);
      } else {
        FindNone(t, a);
      }
    }
  }

  /** The in-place path: one range keeps everything but its flags. */
  lemma InPlaceAt(rs: seq<MappedRange>, freshId: nat, args: Args, i: nat, a: nat)
    requires ListOk(rs, freshId) && i < |rs| && Classify(rs[i], args) == Exact && rs[i].file == args.file
    ensures ListOk(rs[i := rs[i].(flags := args.flags)], freshId)
    ensures At(rs[i := rs[i].(flags := args.flags)], a) == if args.Inside(a) then Requested(args) else At(rs, a)
    ensures BackingAt(rs[i := rs[i].(flags := args.flags)], a) == BackingAt(rs, a)
  {
    var r := rs[i].(flags := args.flags);
    assert rs[i] in rs && rs[i].WellFormed();
    ReplaceOk(rs, i, r, freshId);
    ReplaceMembers(rs, i, r);
    ExchangedFind(rs, rs[i := r], rs[i], {r}, a);
    assert r in {r};
  }

  /**
    add_range overwrites the address-to-mapping function on exactly the requested window
    (removing it there for a request of type NONE), and keeps the list disjoint.
   */
  lemma AddRangeOverwrites(rs: seq<MappedRange>, freshId: nat, args: Args, a: nat)
    requires ListOk(rs, freshId) && args.resolve && args.WellFormed() && KeepsFile(rs, args)
    ensures ListOk(AddRange(rs, freshId, args).rs, AddRange(rs, freshId, args).freshId)
    ensures At(AddRange(rs, freshId, args).rs, a) == if args.Inside(a) then Requested(args) else At(rs, a)
  {
    var s := Scan(rs, 0, freshId, false);
    if i :| 0 <= i < |rs| && Classify(rs[i], args) == Exact {
      PassExact(s, args, i);
      assert rs[i] in rs;
      InPlaceAt(rs, freshId, args, i, a);
    } else {
      PassClears(s, args);
      var t := RunPass(s, args).scan;
      FinishOk(t.rs, t.freshId, args);
      FinishAt(t.rs, t.freshId, args, a);
      if !args.Inside(a) {
        PassKeeps(s, args, a);
      }
    }
  }

  lemma {:induction false} PassKeepsBacking(s: Scan, args: Args, a: nat)
    requires ScanOk(s, args) && NoExact(s.rs, args) && !args.Inside(a)
    requires forall r :: r in s.rs && Classify(r, args) == Split ==> SplitSafe(r)
    ensures RunPass(s, args).Done? && BackingAt(RunPass(s, args).scan.rs, a) == BackingAt(s.rs, a)
    decreases Work(s.rs[s.next..], args)
  {
    if s.next < |s.rs| {
      var t := StepScan(s, args);
      StepNoExact(s, args);
      StepProgress(s, args);
      StepOk(s, args);
      assert s.rs[s.next] in s.rs;
      StepKeeps(s, args, a);
      StepMembers(s, args);
      forall r | r in t.rs && Classify(r, args) == Split
        ensures SplitSafe(r)
      {
        if r in Pieces(s.rs[s.next], args, s.freshId) {
          PieceOutside(s.rs[s.next], args, s.freshId, r);
        }
      }
      PassKeepsBacking(t, args, a);
    }
  }

  /** When the window lies strictly inside one range, no other range touches it. */
  lemma SplitIsAlone(rs: seq<MappedRange>, args: Args, i: nat, x: MappedRange)
    requires Disjoint(rs) && i < |rs| && Classify(rs[i], args) == Split
    requires x in rs && x != rs[i]
    ensures !x.Overlaps(args.base, args.End())
  {
    var j :| 0 <= j < |rs| && rs[j] == x;
    assert j < i ==> Apart(rs[j], rs[i]);
    assert i < j ==> Apart(rs[i], rs[j]);
  }

  lemma SplitClears(s: Scan, args: Args)
    requires ScanOk(s, args) && s.next < |s.rs| && Classify(s.rs[s.next], args) == Split
    ensures NoOverlap(StepScan(s, args).rs, args)
  {
    var r, t := s.rs[s.next], StepScan(s, args);
    StepMembers(s, args);
    forall x | x in t.rs
      ensures !x.Overlaps(args.base, args.End())
    {
      if x in Pieces(r, args, s.freshId) {
        PieceOutside(r, args, s.freshId, x);
      } else {
        SplitIsAlone(s.rs, args, s.next, x);
      }
    }
  }

  /** Then the pass is the one split. */
  lemma {:induction false} PassSplit(s: Scan, args: Args, i: nat)
    requires ScanOk(s, args) && s.next <= i < |s.rs| && Classify(s.rs[i], args) == Split
    ensures RunPass(s, args).Done?
    ensures RunPass(s, args).scan.rs == StepScan(s.(next := i), args).rs
    decreases i - s.next
  {
    if s.next < i {
      assert Apart(s.rs[s.next], s.rs[i]);
      assert Classify(s.rs[s.next], args) == Skip;
      StepProgress(s, args);
      PassSplit(StepScan(s, args), args, i);
    } else {
      StepProgress(s, args);
      SplitClears(s, args);
      PassIdle(StepScan(s, args), args);
    }
  }

  /** add_range loses the backing of an address exactly when the address is in the right part of an unsafe split. */
  lemma AddRangeBackingAt(rs: seq<MappedRange>, freshId: nat, args: Args, a: nat)
    requires ListOk(rs, freshId) && args.resolve && args.WellFormed() && KeepsFile(rs, args) && !args.Inside(a)
    ensures BackingAt(AddRange(rs, freshId, args).rs, a) == BackingAt(rs, a) <==>
            (Find(rs, a).Some? && Classify(Find(rs, a).value, args) == Split && a >= args.End() ==> SplitSafe(Find(rs, a).value))
  {
    var s := Scan(rs, 0, freshId, false);
    FindMember(rs, a);
    if i :| 0 <= i < |rs| && Classify(rs[i], args) == Exact {
      PassExact(s, args, i);
      assert rs[i] in rs;
      InPlaceAt(rs, freshId, args, i, a);
      ExactNoSplit(rs, args, i);
    } else {
      PassClears(s, args);
      var t := RunPass(s, args).scan;
      FinishAt(t.rs, t.freshId, args, a);
      if i :| 0 <= i < |rs| && Classify(rs[i], args) == Split {
        PassSplit(s, args, i);
        SplitFirst(rs, args, i);
        StepKeeps(s.(next := i), args, a);
        SplitFound(rs, args, i, a);
      } else {
        PassKeepsBacking(s, args, a);
      }
    }
  }

  lemma ExactNoSplit(rs: seq<MappedRange>, args: Args, i: nat)
    requires Disjoint(rs) && i < |rs| && Classify(rs[i], args) == Exact && AllWellFormed(rs)
    ensures forall r :: r in rs ==> Classify(r, args) != Split
  {
    forall r | r in rs
      ensures Classify(r, args) != Split
    {
      var j :| 0 <= j < |rs| && rs[j] == r;
      assert j < i ==> Apart(rs[j], rs[i]);
      assert i < j ==> Apart(rs[i], rs[j]);
      assert rs[i] in rs;
    }
  }

  lemma SplitFirst(rs: seq<MappedRange>, args: Args, i: nat)
    requires Disjoint(rs) && i < |rs| && Classify(rs[i], args) == Split
    ensures forall k :: 0 <= k < i ==> !rs[k].Overlaps(args.base, args.End())
  {
    forall k | 0 <= k < i
      ensures !rs[k].Overlaps(args.base, args.End())
    {
      assert Apart(rs[k], rs[i]);
    }
  }

  lemma SplitFound(rs: seq<MappedRange>, args: Args, i: nat, a: nat)
    requires Disjoint(rs) && i < |rs| && Classify(rs[i], args) == Split
    ensures rs[i].Covers(a) ==> Find(rs, a) == Some(rs[i])
    ensures Find(rs, a).Some? && !rs[i].Covers(a) ==> Classify(Find(rs, a).value, args) != Split
  {
    FindMember(rs, a);
    assert rs[i] in rs;
    if rs[i].Covers(a) {
      FindUnique(rs, a, rs[i]);
    } else if Find(rs, a).Some? {
      SplitIsAlone(rs, args, i, Find(rs, a).value);
    }
  }

  /**
    The file offset or physical address behind every surviving address is kept exactly when the
    range being split, if there is one, still has its original base (and, for the direct kinds, a
    nonzero physical base). Trims never change it.
   */
  lemma AddRangeKeepsBacking(rs: seq<MappedRange>, freshId: nat, args: Args)
    requires ListOk(rs, freshId) && args.resolve && args.WellFormed() && KeepsFile(rs, args)
    ensures (forall a: nat :: !args.Inside(a) ==>
                BackingAt(AddRange(rs, freshId, args).rs, a) == BackingAt(rs, a))
            <==> (forall r :: r in rs && Classify(r, args) == Split ==> SplitSafe(r))
  {
    forall a: nat | !args.Inside(a)
      ensures (forall r :: r in rs && Classify(r, args) == Split ==> SplitSafe(r)) ==>
                BackingAt(AddRange(rs, freshId, args).rs, a) == BackingAt(rs, a)
    {
      AddRangeBackingAt(rs, freshId, args, a);
      FindMember(rs, a);
    }
    forall r | r in rs && Classify(r, args) == Split
      ensures BackingAt(AddRange(rs, freshId, args).rs, args.End()) == BackingAt(rs, args.End()) <==> SplitSafe(r)
    {
      AddRangeBackingAt(rs, freshId, args, args.End());
      FindUnique(rs, args.End(), r);
    }
  }

  /** Memory mapped right behind, or right in front of, memory with the same flags makes no range of its own. */
  lemma AdjacentMerges(rs: seq<MappedRange>, freshId: nat, base: nat, length: nat, flags: nat, keep: bool, r: MappedRange)
    requires ListOk(rs, freshId) && length > 0 && r in rs && r.kind == Anonymous && r.flags == flags
    requires r.base + r.length == base || base + length == r.base
    requires forall x :: x in rs ==> x.base + x.length <= base || base + length <= x.base
    ensures |AddRange(rs, freshId, AnonymousArgs(base, length, flags, keep)).rs| == |rs|
  {
    var args := AnonymousArgs(base, length, flags, keep);
    PassIdle(Scan(rs, 0, freshId, false), args);
    var i :| 0 <= i < |rs| && rs[i] == r;
    FindsMerge(rs, 0, i, args);
  }

  lemma {:induction false} FindsMerge(rs: seq<MappedRange>, k: nat, i: nat, args: Args)
    requires k <= i < |rs| && Mergeable(rs[i], args)
    ensures MergeFrom(rs, k, args).Some?
    decreases i - k
  {
    if k < i && !Mergeable(rs[k], args) {
      FindsMerge(rs, k + 1, i, args);
    }
  }

  // ---------------------------------------------------------------- requests, and the list of a child

  /** map_anonymous, map_file and munmap as arguments of add_range. */
  function AnonymousArgs(base: nat, length: nat, flags: nat, keep: bool): Args {
    Args(base, length, flags, Anonymous, 0, None, 0, true, true, keep)
  }

  function FileArgs(base: nat, length: nat, flags: nat, file: nat, offset: nat): Args {
    Args(base, length, flags, File, 0, Some(file), offset, false, true, false)
  }

  function UnmapArgs(base: nat, length: nat): Args {
    Args(base, length, 0, NoRange, 0, None, 0, false, true, false)
  }

  /** The child's version of a range: its own object, and the offsets counted from the current base. */
  function Forked(r: MappedRange, id: nat): MappedRange {
    r.(id := id, originalBase := r.base)
  }

  /** The list fork makes of the first `n` ranges: each is added in its turn. */
  function ForkList(rs: seq<MappedRange>, n: nat, freshId: nat): seq<MappedRange>
    requires n <= |rs|
  {
    if n == 0 then [] else Insert(ForkList(rs, n - 1, freshId), Forked(rs[n - 1], freshId + n - 1))
  }

  lemma {:induction false} ForkListMember(rs: seq<MappedRange>, n: nat, freshId: nat, x: MappedRange)
    requires n <= |rs| && x in ForkList(rs, n, freshId)
    ensures exists j :: 0 <= j < n && x == Forked(rs[j], x.id)
  {
    InsertMembers(ForkList(rs, n - 1, freshId), Forked(rs[n - 1], freshId + n - 1));
    if x in ForkList(rs, n - 1, freshId) {
      ForkListMember(rs, n - 1, freshId, x);
    }
  }

  lemma {:induction false} ForkListOk(rs: seq<MappedRange>, n: nat, freshId: nat)
    requires n <= |rs| && Disjoint(rs) && AllWellFormed(rs)
    ensures ListOk(ForkList(rs, n, freshId), freshId + n)
  {
    if n > 0 {
      var cs, r := ForkList(rs, n - 1, freshId), Forked(rs[n - 1], freshId + n - 1);
      ForkListOk(rs, n - 1, freshId);
      forall x | x in cs
        ensures Apart(x, r)
      {
        ForkListMember(rs, n - 1, freshId, x);
        var j :| 0 <= j < n - 1 && x == Forked(rs[j], x.id);
        assert Apart(rs[j], rs[n - 1]);
      }
      assert rs[n - 1] in rs;
      InsertOk(cs, r, freshId + n - 1);
    }
  }
}
