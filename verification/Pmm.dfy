/** The physical memory manager: page structures kept at the start of each region, and the way back from an address. */
module Pmm {
  import opened Common

  /** Both struct Page and struct Region take 32 bytes. */
  const STRUCT_SIZE: nat := 32

  /** A region of `pages` frames from frame number `start` on; its structures live in its own first frames. */
  datatype Region = Region(start: nat, pages: nat) {
    function BasePhy(): nat { start * PAGE_SIZE }
    function EndPhy(): nat { BasePhy() + pages * PAGE_SIZE }
    function Reserved(): nat { (STRUCT_SIZE + pages * STRUCT_SIZE + PAGE_SIZE - 1) / PAGE_SIZE }

    /** The frames that have a structure. The subtraction wraps for a region without any frame. */
    function Usable(): int { pages - Reserved() }

    predicate HasFrame(pfn: nat) { start + Reserved() <= pfn < start + pages }
  }

  /** The page structure number `index` of the region number `region`. */
  datatype PageRef = PageRef(region: nat, index: nat)

  /** absorb_memmap_entry's rounding of a memory map entry; the count wraps in the source when it is negative. */
  function FirstFrame(base: nat, length: nat): nat {
    base / PAGE_SIZE + (if base % PAGE_SIZE != 0 then 1 else 0)
  }

  function FrameCount(base: nat, length: nat): int {
    base / PAGE_SIZE + length / PAGE_SIZE - (if length % PAGE_SIZE != 0 then 1 else 0) - FirstFrame(base, length)
  }

  /**
    Every frame taken lies inside the entry. The first is the first whole one, less than three frames'
    worth of bytes is wasted, and nothing when the entry is page aligned.
   */
  lemma FramesInside(base: nat, length: nat, i: nat)
    requires i < FrameCount(base, length)
    ensures var phy := (FirstFrame(base, length) + i) * PAGE_SIZE;
            base <= phy && phy + PAGE_SIZE <= base + length
    ensures i == 0 ==> (FirstFrame(base, length) - 1) * PAGE_SIZE < base
    ensures length < (FrameCount(base, length) + 3) * PAGE_SIZE
    ensures base % PAGE_SIZE == 0 && length % PAGE_SIZE == 0 ==> FrameCount(base, length) * PAGE_SIZE == length
  {
    assert base == base / PAGE_SIZE * PAGE_SIZE + base % PAGE_SIZE;
    assert length == length / PAGE_SIZE * PAGE_SIZE + length % PAGE_SIZE;
  }

  /** The structures fit in the reserved frames, so no structure lies in a frame that is handed out. */
  lemma StructsFit(r: Region)
    requires r.pages > 0
    ensures 0 < r.Reserved() <= r.pages && r.Usable() >= 0
    ensures STRUCT_SIZE + r.Usable() * STRUCT_SIZE <= r.Reserved() * PAGE_SIZE
  {
  }

  /** The frames of a region that go to the freelist, in the order of their structures. */
  function FramesOf(r: Region): (s: seq<nat>)
    ensures forall pfn :: pfn in s <==> r.HasFrame(pfn)
  {
    var s: seq<nat> := seq(if r.Usable() > 0 then r.Usable() else 0, (i: nat) => r.start + r.Reserved() + i);
    assert forall pfn: nat :: r.HasFrame(pfn) ==> s[pfn - (r.start + r.Reserved())] == pfn;
    s
  }

  lemma FramesOfNoDup(r: Region)
    ensures NoDup(FramesOf(r))
  {
  }

  /** An entry of the memory map the boot loader passes. */
  datatype Entry = Entry(base: nat, length: nat) {
    function AsRegion(): Region
      requires FrameCount(base, length) > 0
    {
      Region(FirstFrame(base, length), FrameCount(base, length))
    }
  }

  /**
    absorb_memmap_entry. The source does not expect an entry that holds no whole frame: its count,
    or that of its structures, wraps around.
   */
  method Absorb(e: Entry, rs: seq<Region>, freelist: seq<nat>) returns (wraps: bool, rs': seq<Region>, freelist': seq<nat>)
    ensures wraps <==> FrameCount(e.base, e.length) <= 0
    ensures !wraps ==> rs' == rs + [e.AsRegion()] && freelist' == freelist + FramesOf(e.AsRegion())
    ensures wraps ==> rs' == rs && freelist' == freelist
  {
    wraps, rs', freelist' := FrameCount(e.base, e.length) <= 0, rs, freelist;
    if !wraps {
      var r := Region(FirstFrame(e.base, e.length), FrameCount(e.base, e.length));
      rs' := rs + [r];
      StructsFit(r);
      var i := 0;
      while i < r.Usable()
        invariant 0 <= i <= r.Usable() == |FramesOf(r)| && freelist' == freelist + FramesOf(r)[..i]
      {
        freelist' := freelist' + [r.start + r.Reserved() + i];
        i := i + 1;
      }
    }
  }

  function RegionsOf(es: seq<Entry>): (rs: seq<Region>)
    requires forall i :: 0 <= i < |es| ==> FrameCount(es[i].base, es[i].length) > 0
    ensures |rs| == |es| && forall i :: 0 <= i < |rs| ==> rs[i] == es[i].AsRegion()
  {
    seq(|es|, i requires 0 <= i < |es| => es[i].AsRegion())
  }

  function AllFrames(rs: seq<Region>): seq<nat> {
    if rs == [] then [] else AllFrames(rs[..|rs| - 1]) + FramesOf(rs[|rs| - 1])
  }

  /** pmm::init over the usable entries. */
  method Init(es: seq<Entry>) returns (wraps: bool, rs: seq<Region>, freelist: seq<nat>)
    ensures wraps <==> exists i :: 0 <= i < |es| && FrameCount(es[i].base, es[i].length) <= 0
    ensures !wraps ==> rs == RegionsOf(es) && freelist == AllFrames(rs)
  {
    rs, freelist := [], [];
    var i := 0;
    while i < |es|
      invariant 0 <= i <= |es| && (forall k :: 0 <= k < i ==> FrameCount(es[k].base, es[k].length) > 0)
      invariant rs == RegionsOf(es[..i]) && freelist == AllFrames(rs)
    {
      ghost var rs0 := rs;
      wraps, rs, freelist := Absorb(es[i], rs, freelist);
      if wraps {
        return;
      }
      assert rs[..|rs| - 1] == rs0;
      i := i + 1;
    }
    return false, rs, freelist;
  }

  /** No two entries of the map overlap. */
  predicate Disjoint(es: seq<Entry>) {
    forall i, j {:trigger es[i], es[j]} :: 0 <= i < |es| && 0 <= j < |es| && i != j ==>
      es[i].base + es[i].length <= es[j].base || es[j].base + es[j].length <= es[i].base
  }

  ghost predicate Separate(rs: seq<Region>) {
    && (forall r :: r in rs ==> r.pages > 0)
    && (forall i, j {:trigger rs[i], rs[j]} :: 0 <= i < |rs| && 0 <= j < |rs| && i != j ==>
          rs[i].start + rs[i].pages <= rs[j].start || rs[j].start + rs[j].pages <= rs[i].start)
  }

  /** A region whose end the address is, or which it lies in: the bound the source tests is inclusive. */
  predicate Touches(r: Region, phy: nat) { r.BasePhy() <= phy <= r.EndPhy() }

  /** find_page. */
  method FindPage(rs: seq<Region>, phy: nat) returns (page: Option<PageRef>)
    requires phy % PAGE_SIZE == 0
    ensures page == Found(rs, phy, 0)
  {
    var i := 0;
    while i < |rs|
      invariant 0 <= i <= |rs| && Found(rs, phy, 0) == Found(rs, phy, i)
    {
      var region := rs[i];
      if !(phy < region.BasePhy() || phy > region.EndPhy()) {
        var offset := (phy - region.BasePhy()) / PAGE_SIZE;
        if offset < region.Reserved() {
          return None;
        }
        return Some(PageRef(i, offset - region.Reserved()));
      }
      i := i + 1;
    }
    return None;
  }

  function Found(rs: seq<Region>, phy: nat, i: nat): Option<PageRef>
    requires i <= |rs|
    decreases |rs| - i
  {
    if i == |rs| then None
    else if Touches(rs[i], phy) then
      var offset := (phy - rs[i].BasePhy()) / PAGE_SIZE;
      if offset < rs[i].Reserved() then None else Some(PageRef(i, offset - rs[i].Reserved()))
    else Found(rs, phy, i + 1)
  }

  lemma {:induction false} FoundFirst(rs: seq<Region>, phy: nat, i: nat, k: nat)
    requires i <= k < |rs| && Touches(rs[k], phy) && forall j :: i <= j < k ==> !Touches(rs[j], phy)
    ensures Found(rs, phy, i) == Found(rs, phy, k)
    decreases k - i
  {
    if i < k {
      FoundFirst(rs, phy, i + 1, k);
    }
  }

  lemma {:induction false} FoundIsTouched(rs: seq<Region>, phy: nat, i: nat)
    requires i <= |rs| && Found(rs, phy, i).Some?
    ensures var ref := Found(rs, phy, i).value;
            && i <= ref.region < |rs| && Touches(rs[ref.region], phy)
            && ref.index == (phy - rs[ref.region].BasePhy()) / PAGE_SIZE - rs[ref.region].Reserved()
            && forall j :: i <= j < ref.region ==> !Touches(rs[j], phy)
    decreases |rs| - i
  {
    if i < |rs| && !Touches(rs[i], phy) {
      FoundIsTouched(rs, phy, i + 1);
    }
  }

  /**
    Every frame that was handed to the freelist is found again, although the test of the upper
    bound is off by one: the frame just behind a region is, at most, reserved by its neighbour.
   */
  lemma FindPageFinds(rs: seq<Region>, k: nat, pfn: nat)
    requires Separate(rs) && k < |rs| && rs[k].HasFrame(pfn)
    ensures Found(rs, pfn * PAGE_SIZE, 0) == Some(PageRef(k, pfn - rs[k].start - rs[k].Reserved()))
  {
    assert rs[k] in rs;
    StructsFit(rs[k]);
    var phy := pfn * PAGE_SIZE;
    forall j | 0 <= j < k
      ensures !Touches(rs[j], phy)
    {
      assert rs[j].start + rs[j].pages <= rs[k].start || rs[k].start + rs[k].pages <= rs[j].start;
    }
    FoundFirst(rs, phy, 0, k);
    assert (phy - rs[k].BasePhy()) / PAGE_SIZE == pfn - rs[k].start;
  }

  /** find_page returns a structure that is not there. */
  predicate OutOfBounds(rs: seq<Region>, pfn: nat) {
    match Found(rs, pfn * PAGE_SIZE, 0)
    case Some(ref) => ref.region >= |rs| || ref.index >= rs[ref.region].Usable()
    case None => false
  }

  /** Frame `pfn` is the one just behind region `k`, and the search gets that far. */
  predicate JustBehind(rs: seq<Region>, pfn: nat, k: nat)
    requires k < |rs|
  {
    pfn * PAGE_SIZE == rs[k].EndPhy() && forall j :: 0 <= j < k ==> !Touches(rs[j], pfn * PAGE_SIZE)
  }

  /** What find_page finds is of the first region the address touches. */
  lemma FoundPlace(rs: seq<Region>, pfn: nat)
    requires Separate(rs) && Found(rs, pfn * PAGE_SIZE, 0).Some?
    ensures var ref := Found(rs, pfn * PAGE_SIZE, 0).value;
            && ref.region < |rs| && Touches(rs[ref.region], pfn * PAGE_SIZE) && rs[ref.region].pages > 0
            && ref.index == pfn - rs[ref.region].start - rs[ref.region].Reserved()
            && forall j :: 0 <= j < ref.region ==> !Touches(rs[j], pfn * PAGE_SIZE)
  {
    var phy := pfn * PAGE_SIZE;
    FoundIsTouched(rs, phy, 0);
    var ref := Found(rs, phy, 0).value;
    var r := rs[ref.region];
    assert r in rs && (phy - r.BasePhy()) / PAGE_SIZE == pfn - r.start;
  }

  /** The structure returned is missing exactly for the frame just behind a region that no earlier region reaches. */
  lemma FindPageInBounds(rs: seq<Region>, pfn: nat)
    requires Separate(rs)
    ensures OutOfBounds(rs, pfn) <==> exists k: nat :: k < |rs| && JustBehind(rs, pfn, k)
    ensures Found(rs, pfn * PAGE_SIZE, 0).Some? && !OutOfBounds(rs, pfn) <==> exists k :: 0 <= k < |rs| && rs[k].HasFrame(pfn)
  {
    if Found(rs, pfn * PAGE_SIZE, 0).Some? {
      FoundPlace(rs, pfn);
      var k := Found(rs, pfn * PAGE_SIZE, 0).value.region;
      StructsFit(rs[k]);
      assert OutOfBounds(rs, pfn) <==> JustBehind(rs, pfn, k);
    }
    forall k: nat | k < |rs| && JustBehind(rs, pfn, k)
      ensures OutOfBounds(rs, pfn)
    {
      BehindIsOut(rs, pfn, k);
    }
    forall k: nat | k < |rs| && rs[k].HasFrame(pfn)
      ensures Found(rs, pfn * PAGE_SIZE, 0).Some? && !OutOfBounds(rs, pfn)
    {
      FindPageFinds(rs, k, pfn);
    }
  }

  lemma BehindIsOut(rs: seq<Region>, pfn: nat, k: nat)
    requires Separate(rs) && k < |rs| && JustBehind(rs, pfn, k)
    ensures OutOfBounds(rs, pfn)
  {
    assert rs[k] in rs;
    StructsFit(rs[k]);
    FoundFirst(rs, pfn * PAGE_SIZE, 0, k);
    assert (pfn * PAGE_SIZE - rs[k].BasePhy()) / PAGE_SIZE == rs[k].pages;
  }

  /** The address just behind a lone region yields a structure behind the end of its array. */
  lemma FindPageBeyond()
    ensures Found([Region(0, 2)], 2 * PAGE_SIZE, 0) == Some(PageRef(0, 1)) && Region(0, 2).Usable() == 1
  {
    assert Touches(Region(0, 2), 2 * PAGE_SIZE);
  }

  // ---------------------------------------------------------------- the frames a machine starts with

  lemma RegionsSeparate(es: seq<Entry>)
    requires Disjoint(es) && forall i :: 0 <= i < |es| ==> FrameCount(es[i].base, es[i].length) > 0
    ensures Separate(RegionsOf(es))
  {
    var rs := RegionsOf(es);
    forall i, j | 0 <= i < |rs| && 0 <= j < |rs| && i != j
      ensures rs[i].start + rs[i].pages <= rs[j].start || rs[j].start + rs[j].pages <= rs[i].start
    {
      FramesInside(es[i].base, es[i].length, 0);
      FramesInside(es[i].base, es[i].length, rs[i].pages - 1);
      FramesInside(es[j].base, es[j].length, 0);
      FramesInside(es[j].base, es[j].length, rs[j].pages - 1);
    }
  }

  lemma {:induction false} AllFramesMembers(rs: seq<Region>, pfn: nat)
    ensures pfn in AllFrames(rs) <==> exists k :: 0 <= k < |rs| && rs[k].HasFrame(pfn)
  {
    if rs != [] {
      var init := rs[..|rs| - 1];
      AllFramesMembers(init, pfn);
      assert forall k :: 0 <= k < |init| ==> init[k] == rs[k];
    }
  }

  lemma {:induction false} AllFramesNoDup(rs: seq<Region>)
    requires Separate(rs)
    ensures NoDup(AllFrames(rs))
  {
    if rs != [] {
      var init, last := rs[..|rs| - 1], rs[|rs| - 1];
      assert forall r :: r in init ==> r in rs;
      AllFramesNoDup(init);
      FramesOfNoDup(last);
      forall pfn | pfn in AllFrames(init)
        ensures pfn !in FramesOf(last)
      {
        AllFramesMembers(init, pfn);
        var k :| 0 <= k < |init| && init[k].HasFrame(pfn);
        StructsFit(last);
        assert rs[k] == init[k] && last in rs;
      }
      NoDupConcat(AllFrames(init), FramesOf(last));
    }
  }

  /**
    Over a memory map without overlaps, every frame goes to the freelist once, and find_page leads
    from the address of each back to its own structure.
   */
  lemma InitialFrames(es: seq<Entry>, pfn: nat)
    requires Disjoint(es) && forall i :: 0 <= i < |es| ==> FrameCount(es[i].base, es[i].length) > 0
    ensures var rs := RegionsOf(es);
            && NoDup(AllFrames(rs))
            && (pfn in AllFrames(rs) <==> Found(rs, pfn * PAGE_SIZE, 0).Some? && !OutOfBounds(rs, pfn))
            && (pfn in AllFrames(rs) ==>
                  var ref := Found(rs, pfn * PAGE_SIZE, 0).value;
                  ref.region < |rs| && ref.index < |FramesOf(rs[ref.region])| && FramesOf(rs[ref.region])[ref.index] == pfn)
  {
    var rs := RegionsOf(es);
    RegionsSeparate(es);
    AllFramesNoDup(rs);
    AllFramesMembers(rs, pfn);
    FindPageInBounds(rs, pfn);
    if pfn in AllFrames(rs) {
      var k :| 0 <= k < |rs| && rs[k].HasFrame(pfn);
      FindPageFinds(rs, k, pfn);
    }
  }
}
