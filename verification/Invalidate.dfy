/** invalidate_page: a resident page is handed to another range, or its frame is freed. */
module Invalidate {
  import opened Common
  import opened Ranges
  import opened PageTable
  import opened Memory

  function Unlinked(lists: map<nat, seq<nat>>, f: nat): map<nat, seq<nat>> {
    map r | r in lists :: Without(lists[r], f)
  }

  /** page->link.remove() followed by page_list.add_before on the new range. */
  function Relinked(lists: map<nat, seq<nat>>, f: nat, id: nat): map<nat, seq<nat>>
    requires id in lists
  {
    Unlinked(lists, f)[id := Without(lists[id], f) + [f]]
  }

  ghost predicate Resident(m: Memory, s: nat, page: nat) {
    s in m.spaces && page < LOWER_PAGES && Leaf(m.phys, m.spaces[s].root, page).Some? && Present(EntryOf(m, s, page))
  }

  function SetEntry(m: Memory, s: nat, page: nat, e: PTE): Phys
    requires s in m.spaces && Leaf(m.phys, m.spaces[s].root, page).Some?
    requires IsTable(m.phys, Leaf(m.phys, m.spaces[s].root, page).value)
  {
    SetWord(m.phys, Leaf(m.phys, m.spaces[s].root, page).value, Index(page, 1), e)
  }

  ghost function Moved(m: Memory, s: nat, page: nat, r: MappedRange): Memory
    requires Resident(m, s, page) && IsTable(m.phys, Leaf(m.phys, m.spaces[s].root, page).value)
    requires r.id in m.spaces[s].lists && EntryOf(m, s, page).pfn in m.info
  {
    var f := EntryOf(m, s, page).pfn;
    m.(info := m.info[f := m.info[f].(mappedAddr := page)],
       phys := SetEntry(m, s, page, PTE(f, r.flags)),
       spaces := m.spaces[s := m.spaces[s].(lists := Relinked(m.spaces[s].lists, f, r.id))])
  }

  ghost function Freed(m: Memory, s: nat, page: nat): Memory
    requires Resident(m, s, page) && IsTable(m.phys, Leaf(m.phys, m.spaces[s].root, page).value)
  {
    var f := EntryOf(m, s, page).pfn;
    m.(freelist := [f] + m.freelist,
       info := m.info[f := PageInfo(true, 0)],
       phys := SetEntry(m, s, page, EMPTY),
       spaces := m.spaces[s := m.spaces[s].(lists := Unlinked(m.spaces[s].lists, f))])
  }

  /** The last-level table of a page, and what the invariant says about the frame the page is in. */
  lemma ResidentFacts(m: Memory, places: Places, s: nat, page: nat, ls: nat, loose: map<nat, nat>)
    requires Inv(m, places, ls, loose) && s in m.spaces && page < LOWER_PAGES && Present(EntryOf(m, s, page))
    ensures Resident(m, s, page)
    ensures var t := Leaf(m.phys, m.spaces[s].root, page).value;
            t in places && places[t].Table? && places[t].space == s && places[t].level == 1 && IsTable(m.phys, t)
    ensures var f := EntryOf(m, s, page).pfn;
            && f in places && places[f].Data? && places[f].space == s && f in m.info && f in m.phys
            && m.info[f].mappedAddr == page && !m.info[f].free && places[f].range in m.spaces[s].lists
            && m.phys[f].Bytes? && |m.phys[f].bytes| == PAGE_SIZE
  {
    var f := EntryOf(m, s, page).pfn;
    assert EntryOk(m, places, s, page, ls, loose);
    assert SpaceInv(m, places, s);
    assert PlaceOk(m, places[f]);
    assert DataOk(m, places, f);
    assert FlagIff(m.info, places, f);
    LowerIndex(page, 4);
    LeafPlace(m.phys, places, m.spaces[s].root, s, page, 4);
    assert TableOk(m.phys, places, Leaf(m.phys, m.spaces[s].root, page).value);
  }

  /** Only the translation of (s, page) changes when its word is written. */
  lemma SetEntryOf(m: Memory, places: Places, s: nat, page: nat, e: PTE, z: nat, q: nat, ls: nat, loose: map<nat, nat>)
    requires Inv(m, places, ls, loose) && s in m.spaces && z in m.spaces && page < LOWER_PAGES && q < LOWER_PAGES
    requires Leaf(m.phys, m.spaces[s].root, page).Some?
    ensures IsTable(m.phys, Leaf(m.phys, m.spaces[s].root, page).value)
    ensures Entry(SetEntry(m, s, page, e), m.spaces[z].root, q) == if (z, q) == (s, page) then e else EntryOf(m, z, q)
  {
    assert SpaceInv(m, places, s) && SpaceInv(m, places, z);
    SetEntryExact(m.phys, places, m.spaces[s].root, s, page, e, m.spaces[z].root, z, q);
  }

  /** A frame is resident at one page of one pagemap only. */
  lemma OtherFrame(m: Memory, places: Places, s: nat, page: nat, z: nat, q: nat, ls: nat, loose: map<nat, nat>)
    requires Inv(m, places, ls, loose) && s in m.spaces && z in m.spaces && page < LOWER_PAGES && q < LOWER_PAGES
    requires (z, q) != (s, page) && Present(EntryOf(m, s, page)) && Present(EntryOf(m, z, q))
    ensures EntryOf(m, z, q).pfn != EntryOf(m, s, page).pfn
  {
    assert EntryOk(m, places, s, page, ls, loose) && EntryOk(m, places, z, q, ls, loose);
  }

  lemma RelinkedLists(sp: Space, places: Places, s: nat, f: nat, id: nat)
    requires f in places && places[f].Data? && places[f].space == s && id in sp.lists
    requires ListsOk(sp.lists, places, s)
    ensures Relinked(sp.lists, f, id).Keys == sp.lists.Keys
    ensures ListsOk(Relinked(sp.lists, f, id), places[f := Data(s, id)], s)
  {
    var lists := Relinked(sp.lists, f, id);
    forall r | r in lists
      ensures PageListOk(lists[r], places[f := Data(s, id)], s, r)
    {
      assert PageListOk(sp.lists[r], places, s, r);
      WithoutNoDup(sp.lists[r], f);
    }
  }

  lemma UnlinkedLists(sp: Space, places: Places, s: nat, f: nat, p: Place)
    requires f in places && places[f].Data? && places[f].space == s && !p.Data?
    requires ListsOk(sp.lists, places, s)
    ensures Unlinked(sp.lists, f).Keys == sp.lists.Keys
    ensures ListsOk(Unlinked(sp.lists, f), places[f := p], s)
  {
    var lists := Unlinked(sp.lists, f);
    forall r | r in lists
      ensures PageListOk(lists[r], places[f := p], s, r)
    {
      assert PageListOk(sp.lists[r], places, s, r);
      WithoutNoDup(sp.lists[r], f);
    }
  }

  /** The lists of pagemap `z` do not notice a frame that is not theirs before or after. */
  lemma ListsElsewhere(sp: Space, places: Places, z: nat, f: nat, p: Place)
    requires f in places && (places[f].Data? ==> places[f].space != z) && (p.Data? ==> p.space != z)
    requires ListsOk(sp.lists, places, z)
    ensures ListsOk(sp.lists, places[f := p], z)
  {
    forall r | r in sp.lists
      ensures PageListOk(sp.lists[r], places[f := p], z, r)
    {
      assert PageListOk(sp.lists[r], places, z, r);
    }
  }

  lemma TablesElsewhere(sp: Space, places: Places, z: nat, f: nat, p: Place)
    requires f in places && (places[f].Table? ==> places[f].space != z) && (p.Table? ==> p.space != z)
    requires TableListOk(sp, places, z)
    ensures TableListOk(sp, places[f := p], z)
  {
  }

  lemma FreelistElsewhere(m: Memory, m': Memory, places: Places, f: nat, p: Place)
    requires FreelistOk(m, places) && m'.freelist == m.freelist && f in places && !places[f].Free? && !p.Free?
    ensures FreelistOk(m', places[f := p])
  {
    var places' := places[f := p];
    forall g
      ensures FreeIff(m'.freelist, places', g)
    {
      assert FreeIff(m.freelist, places, g);
    }
  }

  lemma FlagsElsewhere(m: Memory, m': Memory, places: Places, f: nat, p: Place)
    requires InfoOk(m, places) && f in places && f in m'.info && (m'.info[f].free <==> p.Free?)
    requires m'.info == m.info[f := m'.info[f]]
    ensures InfoOk(m', places[f := p])
  {
    var places' := places[f := p];
    forall g
      ensures FlagIff(m'.info, places', g)
    {
      assert FlagIff(m.info, places, g);
    }
  }

  // The two results are proved clause by clause.

  lemma MovedSpace(m: Memory, places: Places, s: nat, page: nat, r: MappedRange, loose: map<nat, nat>, z: nat)
    requires Inv(m, places, s, loose) && Resident(m, s, page) && z in m.spaces
    requires ById(m.spaces[s].ranges, r.id) == Some(r)
    requires IsTable(m.phys, Leaf(m.phys, m.spaces[s].root, page).value)
    requires r.id in m.spaces[s].lists && EntryOf(m, s, page).pfn in m.info
    ensures SpaceInv(Moved(m, s, page, r), places[EntryOf(m, s, page).pfn := Data(s, r.id)], z)
  {
    ResidentFacts(m, places, s, page, s, loose);
    var f := EntryOf(m, s, page).pfn;
    assert SpaceInv(m, places, z);
    TablesElsewhere(m.spaces[z], places, z, f, Data(s, r.id));
    if z == s {
      RelinkedLists(m.spaces[s], places, s, f, r.id);
    } else {
      ListsElsewhere(m.spaces[z], places, z, f, Data(s, r.id));
    }
  }

  lemma MovedEntry(m: Memory, places: Places, s: nat, page: nat, r: MappedRange, loose: map<nat, nat>, z: nat, q: nat)
    requires Inv(m, places, s, loose) && Resident(m, s, page) && z in m.spaces && q < LOWER_PAGES
    requires ById(m.spaces[s].ranges, r.id) == Some(r) && r.Covers(page)
    requires IsTable(m.phys, Leaf(m.phys, m.spaces[s].root, page).value)
    requires r.id in m.spaces[s].lists && EntryOf(m, s, page).pfn in m.info
    ensures EntryOk(Moved(m, s, page, r), places[EntryOf(m, s, page).pfn := Data(s, r.id)], z, q, s, loose - {page})
  {
    var f := EntryOf(m, s, page).pfn;
    ResidentFacts(m, places, s, page, s, loose);
    SetEntryOf(m, places, s, page, PTE(f, r.flags), z, q, s, loose);
    assert EntryOk(m, places, z, q, s, loose);
    if (z, q) != (s, page) && Present(EntryOf(m, z, q)) {
      OtherFrame(m, places, s, page, z, q, s, loose);
    }
  }

  lemma MovedData(m: Memory, places: Places, s: nat, page: nat, r: MappedRange, loose: map<nat, nat>, g: nat)
    requires Inv(m, places, s, loose) && Resident(m, s, page)
    requires ById(m.spaces[s].ranges, r.id) == Some(r) && r.flags % 2 == 1
    requires IsTable(m.phys, Leaf(m.phys, m.spaces[s].root, page).value)
    requires r.id in m.spaces[s].lists && EntryOf(m, s, page).pfn in m.info
    requires g in places && places[g].Data?
    ensures DataOk(Moved(m, s, page, r), places[EntryOf(m, s, page).pfn := Data(s, r.id)], g)
  {
    var f := EntryOf(m, s, page).pfn;
    ResidentFacts(m, places, s, page, s, loose);
    assert DataOk(m, places, g);
    SetEntryOf(m, places, s, page, PTE(f, r.flags), places[g].space, m.info[g].mappedAddr, s, loose);
  }

  lemma MovedFlat(m: Memory, places: Places, s: nat, page: nat, r: MappedRange, loose: map<nat, nat>)
    requires Inv(m, places, s, loose) && Resident(m, s, page)
    requires IsTable(m.phys, Leaf(m.phys, m.spaces[s].root, page).value)
    requires r.flags % 2 == 1
    requires r.id in m.spaces[s].lists && EntryOf(m, s, page).pfn in m.info
    ensures FlatInv(Moved(m, s, page, r), places[EntryOf(m, s, page).pfn := Data(s, r.id)])
  {
    ResidentFacts(m, places, s, page, s, loose);
    var f := EntryOf(m, s, page).pfn;
    var m', places' := Moved(m, s, page, r), places[f := Data(s, r.id)];
    assert Tree(m'.phys, places') by {
      PlaceMoveTree(m.phys, places, f, Data(s, r.id));
      SetLeafTree(m.phys, places', Leaf(m.phys, m.spaces[s].root, page).value, Index(page, 1), PTE(f, r.flags));
    }
    FreelistElsewhere(m, m', places, f, Data(s, r.id));
    FlagsElsewhere(m, m', places, f, Data(s, r.id));
    forall g | g in places'
      ensures PlaceOk(m', places'[g])
    {
      assert PlaceOk(m, places[g]);
    }
  }

  /** The frame of a resident page moves to the list of a range that covers the page. */
  lemma MovedInv(m: Memory, places: Places, s: nat, page: nat, r: MappedRange, loose: map<nat, nat>)
    requires Inv(m, places, s, loose) && Resident(m, s, page)
    requires ById(m.spaces[s].ranges, r.id) == Some(r) && r.Covers(page) && r.flags % 2 == 1
    requires r.id in m.spaces[s].lists
    ensures IsTable(m.phys, Leaf(m.phys, m.spaces[s].root, page).value) && EntryOf(m, s, page).pfn in m.info
    ensures Inv(Moved(m, s, page, r), places[EntryOf(m, s, page).pfn := Data(s, r.id)], s, loose - {page})
  {
    assert IsTable(m.phys, Leaf(m.phys, m.spaces[s].root, page).value) && EntryOf(m, s, page).pfn in m.info
           && EntryOf(m, s, page).pfn in places && places[EntryOf(m, s, page).pfn].Data? by {
      ResidentFacts(m, places, s, page, s, loose);
    }
    var m', places' := Moved(m, s, page, r), places[EntryOf(m, s, page).pfn := Data(s, r.id)];
    MovedFlat(m, places, s, page, r, loose);
    forall z | z in m'.spaces
      ensures SpaceInv(m', places', z)
    {
      MovedSpace(m, places, s, page, r, loose, z);
    }
    forall z, q: nat | z in m'.spaces && q < LOWER_PAGES
      ensures EntryOk(m', places', z, q, s, loose - {page})
    {
      MovedEntry(m, places, s, page, r, loose, z, q);
    }
    forall g | g in places' && places'[g].Data?
      ensures DataOk(m', places', g)
    {
      MovedData(m, places, s, page, r, loose, g);
    }
  }

  lemma FreedSpace(m: Memory, places: Places, s: nat, page: nat, loose: map<nat, nat>, z: nat)
    requires Inv(m, places, s, loose) && Resident(m, s, page) && z in m.spaces
    requires IsTable(m.phys, Leaf(m.phys, m.spaces[s].root, page).value)
    ensures SpaceInv(Freed(m, s, page), places[EntryOf(m, s, page).pfn := Free], z)
  {
    ResidentFacts(m, places, s, page, s, loose);
    var f := EntryOf(m, s, page).pfn;
    assert SpaceInv(m, places, z);
    TablesElsewhere(m.spaces[z], places, z, f, Free);
    if z == s {
      UnlinkedLists(m.spaces[s], places, s, f, Free);
    } else {
      ListsElsewhere(m.spaces[z], places, z, f, Free);
    }
  }

  lemma FreedEntry(m: Memory, places: Places, s: nat, page: nat, loose: map<nat, nat>, z: nat, q: nat)
    requires Inv(m, places, s, loose) && Resident(m, s, page) && z in m.spaces && q < LOWER_PAGES
    requires IsTable(m.phys, Leaf(m.phys, m.spaces[s].root, page).value)
    ensures EntryOk(Freed(m, s, page), places[EntryOf(m, s, page).pfn := Free], z, q, s, loose - {page})
  {
    SetEntryOf(m, places, s, page, EMPTY, z, q, s, loose);
    assert EntryOk(m, places, z, q, s, loose);
    if (z, q) != (s, page) && Present(EntryOf(m, z, q)) {
      OtherFrame(m, places, s, page, z, q, s, loose);
    }
  }

  lemma FreedData(m: Memory, places: Places, s: nat, page: nat, loose: map<nat, nat>, g: nat)
    requires Inv(m, places, s, loose) && Resident(m, s, page)
    requires IsTable(m.phys, Leaf(m.phys, m.spaces[s].root, page).value)
    requires g in places && places[g].Data? && g != EntryOf(m, s, page).pfn
    ensures DataOk(Freed(m, s, page), places[EntryOf(m, s, page).pfn := Free], g)
  {
    ResidentFacts(m, places, s, page, s, loose);
    assert DataOk(m, places, g);
    SetEntryOf(m, places, s, page, EMPTY, places[g].space, m.info[g].mappedAddr, s, loose);
  }

  lemma FreedFreelist(m: Memory, places: Places, s: nat, page: nat, loose: map<nat, nat>)
    requires Inv(m, places, s, loose) && Resident(m, s, page)
    requires IsTable(m.phys, Leaf(m.phys, m.spaces[s].root, page).value)
    ensures FreelistOk(Freed(m, s, page), places[EntryOf(m, s, page).pfn := Free])
  {
    ResidentFacts(m, places, s, page, s, loose);
    var l := m.freelist;
    var f := EntryOf(m, s, page).pfn;
    var l', places' := [f] + l, places[f := Free];
    forall g
      ensures FreeIff(l', places', g)
    {
      assert FreeIff(l, places, g);
    }
    assert FreeIff(l, places, f);
    forall i, j | 0 <= i < j < |[f] + l|
      ensures ([f] + l)[i] != ([f] + l)[j]
    {
      assert ([f] + l)[j] == l[j-1];
      assert i > 0 ==> ([f] + l)[i] == l[i-1] && l[i-1] != l[j-1];
    }
  }

  lemma FreedFlat(m: Memory, places: Places, s: nat, page: nat, loose: map<nat, nat>)
    requires Inv(m, places, s, loose) && Resident(m, s, page)
    requires IsTable(m.phys, Leaf(m.phys, m.spaces[s].root, page).value)
    ensures FlatInv(Freed(m, s, page), places[EntryOf(m, s, page).pfn := Free])
  {
    ResidentFacts(m, places, s, page, s, loose);
    var f := EntryOf(m, s, page).pfn;
    var m', places' := Freed(m, s, page), places[f := Free];
    assert Tree(m'.phys, places') by {
      PlaceMoveTree(m.phys, places, f, Free);
      SetLeafTree(m.phys, places', Leaf(m.phys, m.spaces[s].root, page).value, Index(page, 1), EMPTY);
    }
    FreedFreelist(m, places, s, page, loose);
    FlagsElsewhere(m, m', places, f, Free);
    forall g | g in places'
      ensures PlaceOk(m', places'[g])
    {
      assert PlaceOk(m, places[g]);
    }
  }

  /** The frame of a resident page goes back to the freelist and its word is cleared. */
  lemma FreedInv(m: Memory, places: Places, s: nat, page: nat, loose: map<nat, nat>)
    requires Inv(m, places, s, loose) && Resident(m, s, page)
    ensures IsTable(m.phys, Leaf(m.phys, m.spaces[s].root, page).value)
    ensures Inv(Freed(m, s, page), places[EntryOf(m, s, page).pfn := Free], s, loose - {page})
  {
    assert IsTable(m.phys, Leaf(m.phys, m.spaces[s].root, page).value) by {
      ResidentFacts(m, places, s, page, s, loose);
    }
    var f := EntryOf(m, s, page).pfn;
    var m', places' := Freed(m, s, page), places[f := Free];
    FreedFlat(m, places, s, page, loose);
    forall z | z in m'.spaces
      ensures SpaceInv(m', places', z)
    {
      FreedSpace(m, places, s, page, loose, z);
    }
    forall z, q: nat | z in m'.spaces && q < LOWER_PAGES
      ensures EntryOk(m', places', z, q, s, loose - {page})
    {
      FreedEntry(m, places, s, page, loose, z, q);
    }
    forall g | g in places' && places'[g].Data?
      ensures DataOk(m', places', g)
    {
      FreedData(m, places, s, page, loose, g);
    }
  }

  /** A page without a frame needs no excuse. */
  lemma TightenInv(m: Memory, places: Places, s: nat, page: nat, loose: map<nat, nat>)
    requires Inv(m, places, s, loose) && s in m.spaces && (page < LOWER_PAGES ==> !Present(EntryOf(m, s, page)))
    ensures Inv(m, places, s, loose - {page})
  {
    forall z, q: nat | z in m.spaces && q < LOWER_PAGES
      ensures EntryOk(m, places, z, q, s, loose - {page})
    {
      assert EntryOk(m, places, z, q, s, loose);
    }
  }

  // ---------------------------------------------------------------- a run of pages

  function AfterWord(e: PTE, target: Option<MappedRange>): PTE {
    if !Present(e) then e
    else
      match target
      case Some(r) => PTE(e.pfn, r.flags)
      case None => EMPTY
  }

  ghost predicate ContentsKept(m: Memory, p: Places, m': Memory, p': Places, f: nat) {
    f in p' && p'[f].Data? ==> f in p && p[f].Data? && f in m.phys && f in m'.phys && m'.phys[f] == m.phys[f]
  }

  /**
    The pages lo to hi of pagemap `s` were invalidated: resident ones keep their frame under the
    flags of the target range, or lose it. No other translation, no range and no contents changed.
   */
  ghost predicate Invalidated(m: Memory, p: Places, m': Memory, p': Places, s: nat, lo: nat, hi: nat,
                              target: Option<MappedRange>)
  {
    InvalidatedClauses(m, p, m', p', s, lo, hi, target) == true
  }

  ghost predicate InvalidatedClauses(m: Memory, p: Places, m': Memory, p': Places, s: nat, lo: nat, hi: nat,
                                     target: Option<MappedRange>)
  {
    && s in m.spaces && m'.spaces.Keys == m.spaces.Keys && m'.freshId == m.freshId
    && OthersKept(m, m', s)
    && m'.spaces[s] == m.spaces[s].(lists := m'.spaces[s].lists)
    && m'.spaces[s].lists.Keys == m.spaces[s].lists.Keys
    && EntriesAfter(m, m', s, lo, hi, target)
    && AllContentsKept(m, p, m', p')
  }

  ghost predicate OthersKept(m: Memory, m': Memory, s: nat)
    requires m'.spaces.Keys == m.spaces.Keys
  {
    forall z {:trigger m'.spaces[z]} :: z in m.spaces && z != s ==> m'.spaces[z] == m.spaces[z]
  }

  ghost predicate EntriesAfter(m: Memory, m': Memory, s: nat, lo: nat, hi: nat, target: Option<MappedRange>)
    requires m'.spaces.Keys == m.spaces.Keys
  {
    forall z, q: nat {:trigger EntryOf(m', z, q)} :: z in m.spaces && q < LOWER_PAGES ==>
      EntryOf(m', z, q) == if z == s && lo <= q < hi then AfterWord(EntryOf(m, z, q), target) else EntryOf(m, z, q)
  }

  /** The frames are the same ones, and each that still holds data held it before, unchanged. */
  ghost predicate AllContentsKept(m: Memory, p: Places, m': Memory, p': Places) {
    && m'.info.Keys == m.info.Keys
    && (forall f {:trigger ContentsKept(m, p, m', p', f)} :: ContentsKept(m, p, m', p', f))
  }

  lemma NotInvalidated(m: Memory, p: Places, s: nat, lo: nat, hi: nat, target: Option<MappedRange>, ls: nat, loose: map<nat, nat>)
    requires Inv(m, p, ls, loose) && s in m.spaces
    requires forall q: nat :: lo <= q < hi && q < LOWER_PAGES ==> !Present(EntryOf(m, s, q))
    ensures Invalidated(m, p, m, p, s, lo, hi, target)
  {
    forall f
      ensures ContentsKept(m, p, m, p, f)
    {
      if f in p && p[f].Data? {
        assert DataOk(m, p, f);
      }
    }
  }

  lemma MovedRelation(m: Memory, p: Places, s: nat, page: nat, r: MappedRange, loose: map<nat, nat>)
    requires Inv(m, p, s, loose) && Resident(m, s, page) && r.id in m.spaces[s].lists
    requires IsTable(m.phys, Leaf(m.phys, m.spaces[s].root, page).value) && EntryOf(m, s, page).pfn in m.info
    ensures Invalidated(m, p, Moved(m, s, page, r), p[EntryOf(m, s, page).pfn := Data(s, r.id)], s, page, page + 1, Some(r))
  {
    var f := EntryOf(m, s, page).pfn;
    var m', p' := Moved(m, s, page, r), p[f := Data(s, r.id)];
    ResidentFacts(m, p, s, page, s, loose);
    forall z, q: nat | z in m.spaces && q < LOWER_PAGES
      ensures EntryOf(m', z, q) ==
              if z == s && page <= q < page + 1 then AfterWord(EntryOf(m, z, q), Some(r)) else EntryOf(m, z, q)
    {
      SetEntryOf(m, p, s, page, PTE(f, r.flags), z, q, s, loose);
    }
    forall g
      ensures ContentsKept(m, p, m', p', g)
    {
      if g in p && p[g].Data? {
        assert DataOk(m, p, g);
      }
    }
  }

  lemma FreedRelation(m: Memory, p: Places, s: nat, page: nat, loose: map<nat, nat>)
    requires Inv(m, p, s, loose) && Resident(m, s, page)
    requires IsTable(m.phys, Leaf(m.phys, m.spaces[s].root, page).value)
    ensures Invalidated(m, p, Freed(m, s, page), p[EntryOf(m, s, page).pfn := Free], s, page, page + 1, None)
  {
    var f := EntryOf(m, s, page).pfn;
    var m', p' := Freed(m, s, page), p[f := Free];
    ResidentFacts(m, p, s, page, s, loose);
    forall z, q: nat | z in m.spaces && q < LOWER_PAGES
      ensures EntryOf(m', z, q) ==
              if z == s && page <= q < page + 1 then AfterWord(EntryOf(m, z, q), None) else EntryOf(m, z, q)
    {
      SetEntryOf(m, p, s, page, EMPTY, z, q, s, loose);
    }
    forall g
      ensures ContentsKept(m, p, m', p', g)
    {
      if g in p && p[g].Data? {
        assert DataOk(m, p, g);
      }
    }
  }

  /** The loose pages outside lo to hi. */
  ghost function Outside(loose: map<nat, nat>, lo: nat, hi: nat): map<nat, nat> {
    map q | q in loose && !(lo <= q < hi) :: loose[q]
  }

  lemma OutsideNext(loose: map<nat, nat>, lo: nat, hi: nat)
    requires lo <= hi
    ensures Outside(loose, lo, lo) == loose
    ensures Outside(loose, lo, hi) - {hi} == Outside(loose, lo, hi + 1)
  {
  }

  lemma InvalidatedNext(m: Memory, p: Places, m': Memory, p': Places, m'': Memory, p'': Places,
                        s: nat, lo: nat, mid: nat, hi: nat, target: Option<MappedRange>)
    requires lo <= mid <= hi
    requires Invalidated(m, p, m', p', s, lo, mid, target) && Invalidated(m', p', m'', p'', s, mid, hi, target)
    ensures Invalidated(m, p, m'', p'', s, lo, hi, target)
  {
    forall z, q: nat | z in m.spaces && q < LOWER_PAGES
      ensures EntryOf(m'', z, q) ==
              if z == s && lo <= q < hi then AfterWord(EntryOf(m, z, q), target) else EntryOf(m, z, q)
    {
      assert EntryOf(m', z, q) ==
             if z == s && lo <= q < mid then AfterWord(EntryOf(m, z, q), target) else EntryOf(m, z, q);
    }
    forall f
      ensures ContentsKept(m, p, m'', p'', f)
    {
      assert ContentsKept(m, p, m', p', f) && ContentsKept(m', p', m'', p'', f);
    }
    forall z | z in m.spaces && z != s
      ensures m''.spaces[z] == m.spaces[z]
    {
      assert m'.spaces[z] == m.spaces[z];
    }
  }
}
