/** Taking frames from the freelist: for the data of a page, for a page table, for a new pagemap. */
module Allocate {
  import opened Common
  import opened Ranges
  import opened PageTable
  import opened Memory
  import opened Invalidate

  lemma HeadIsFree(m: Memory, places: Places, ls: nat, loose: map<nat, nat>)
    requires Inv(m, places, ls, loose) && m.freelist != []
    ensures var f := m.freelist[0]; f in places && places[f].Free? && f in m.info && f in m.phys && m.info[f].free
  {
    assert FreeIff(m.freelist, places, m.freelist[0]) && FlagIff(m.info, places, m.freelist[0]);
  }

  lemma TailFreelist(m: Memory, m': Memory, places: Places, p: Place)
    requires FreelistOk(m, places) && m.freelist != [] && m'.freelist == m.freelist[1..] && !p.Free?
    ensures FreelistOk(m', places[m.freelist[0] := p])
  {
    var l := m.freelist;
    assert l == [l[0]] + l[1..];
    forall i, j | 0 <= i < j < |l[1..]|
      ensures l[1..][i] != l[1..][j]
    {
      assert l[i+1] != l[j+1];
    }
    assert l[0] !in l[1..];
    var places' := places[l[0] := p];
    forall g
      ensures FreeIff(m'.freelist, places', g)
    {
      assert FreeIff(l, places, g);
    }
  }

  lemma WriteFrameEntry(m: Memory, places: Places, f: nat, c: Content, ls: nat, loose: map<nat, nat>, z: nat, q: nat)
    requires Inv(m, places, ls, loose) && f in places && !places[f].Table? && z in m.spaces && q < LOWER_PAGES
    ensures EntryOf(m.(phys := m.phys[f := c]), z, q) == EntryOf(m, z, q)
    ensures EntryOk(m.(phys := m.phys[f := c]), places, z, q, ls, loose)
  {
    assert SpaceInv(m, places, z);
    DataWrite(m.phys, places, f, c, m.spaces[z].root, z, q);
    assert EntryOk(m, places, z, q, ls, loose);
  }

  /** Filling a frame that is not a table disturbs nothing, as long as data frames stay full pages. */
  lemma WriteFrameInv(m: Memory, places: Places, f: nat, c: Content, ls: nat, loose: map<nat, nat>)
    requires Inv(m, places, ls, loose) && f in places && !places[f].Table?
    requires places[f].Data? ==> c.Bytes? && |c.bytes| == PAGE_SIZE
    ensures Inv(m.(phys := m.phys[f := c]), places, ls, loose)
  {
    var m' := m.(phys := m.phys[f := c]);
    DataWriteTree(m.phys, places, f, c);
    forall z, q: nat | z in m.spaces && q < LOWER_PAGES
      ensures EntryOk(m', places, z, q, ls, loose)
    {
      WriteFrameEntry(m, places, f, c, ls, loose, z, q);
    }
    forall z | z in m'.spaces
      ensures SpaceInv(m', places, z)
    {
      assert SpaceInv(m, places, z);
    }
    forall g | g in places && places[g].Data?
      ensures DataOk(m', places, g)
    {
      assert DataOk(m, places, g);
      WriteFrameEntry(m, places, f, c, ls, loose, places[g].space, m.info[g].mappedAddr);
    }
    forall g | g in places
      ensures PlaceOk(m', places[g])
    {
      assert PlaceOk(m, places[g]);
    }
  }

  // ---------------------------------------------------------------- a data page

  /** The frame at the head of the freelist becomes page `page` of range `r`. */
  ghost function Filled(m: Memory, s: nat, page: nat, r: MappedRange): Memory
    requires m.freelist != [] && s in m.spaces && Leaf(m.phys, m.spaces[s].root, page).Some?
    requires IsTable(m.phys, Leaf(m.phys, m.spaces[s].root, page).value)
    requires r.id in m.spaces[s].lists
  {
    var f := m.freelist[0];
    var sp := m.spaces[s];
    m.(freelist := m.freelist[1..],
       info := m.info[f := PageInfo(false, page)],
       phys := SetEntry(m, s, page, PTE(f, r.flags)),
       spaces := m.spaces[s := sp.(lists := sp.lists[r.id := sp.lists[r.id] + [f]])])
  }

  ghost predicate Fillable(m: Memory, places: Places, s: nat, page: nat, r: MappedRange, loose: map<nat, nat>) {
    && Inv(m, places, s, loose) && m.freelist != [] && s in m.spaces && page < LOWER_PAGES && page !in loose
    && ById(m.spaces[s].ranges, r.id) == Some(r) && r.Covers(page) && r.flags % 2 == 1 && r.id in m.spaces[s].lists
    && Leaf(m.phys, m.spaces[s].root, page).Some? && !Present(EntryOf(m, s, page))
    && IsTable(m.phys, Leaf(m.phys, m.spaces[s].root, page).value)
    && m.freelist[0] in m.phys && m.phys[m.freelist[0]].Bytes? && |m.phys[m.freelist[0]].bytes| == PAGE_SIZE
  }

  lemma LeafFacts(m: Memory, places: Places, s: nat, page: nat, ls: nat, loose: map<nat, nat>)
    requires Inv(m, places, ls, loose) && s in m.spaces && page < LOWER_PAGES
    requires Leaf(m.phys, m.spaces[s].root, page).Some?
    ensures var t := Leaf(m.phys, m.spaces[s].root, page).value;
            t in places && places[t].Table? && places[t].space == s && places[t].level == 1 && IsTable(m.phys, t)
  {
    assert SpaceInv(m, places, s);
    LowerIndex(page, 4);
    LeafPlace(m.phys, places, m.spaces[s].root, s, page, 4);
    assert TableOk(m.phys, places, Leaf(m.phys, m.spaces[s].root, page).value);
  }

  lemma FilledLists(sp: Space, places: Places, s: nat, f: nat, id: nat)
    requires f in places && places[f].Free? && id in sp.lists && ListsOk(sp.lists, places, s)
    ensures ListsOk(sp.lists[id := sp.lists[id] + [f]], places[f := Data(s, id)], s)
  {
    var lists := sp.lists[id := sp.lists[id] + [f]];
    forall r | r in lists
      ensures PageListOk(lists[r], places[f := Data(s, id)], s, r)
    {
      assert PageListOk(sp.lists[r], places, s, r);
      assert f !in sp.lists[r];
    }
  }

  lemma FilledSpace(m: Memory, places: Places, s: nat, page: nat, r: MappedRange, loose: map<nat, nat>, z: nat)
    requires Fillable(m, places, s, page, r, loose) && z in m.spaces
    ensures SpaceInv(Filled(m, s, page, r), places[m.freelist[0] := Data(s, r.id)], z)
  {
    var f := m.freelist[0];
    HeadIsFree(m, places, s, loose);
    assert SpaceInv(m, places, z);
    TablesElsewhere(m.spaces[z], places, z, f, Data(s, r.id));
    if z == s {
      FilledLists(m.spaces[s], places, s, f, r.id);
    } else {
      ListsElsewhere(m.spaces[z], places, z, f, Data(s, r.id));
    }
  }

  lemma FilledEntry(m: Memory, places: Places, s: nat, page: nat, r: MappedRange, loose: map<nat, nat>, z: nat, q: nat)
    requires Fillable(m, places, s, page, r, loose) && z in m.spaces && q < LOWER_PAGES
    ensures EntryOk(Filled(m, s, page, r), places[m.freelist[0] := Data(s, r.id)], z, q, s, loose)
    ensures EntryOf(Filled(m, s, page, r), z, q) ==
            if (z, q) == (s, page) then PTE(m.freelist[0], r.flags) else EntryOf(m, z, q)
  {
    HeadIsFree(m, places, s, loose);
    SetEntryOf(m, places, s, page, PTE(m.freelist[0], r.flags), z, q, s, loose);
    assert EntryOk(m, places, z, q, s, loose);
  }

  lemma FilledData(m: Memory, places: Places, s: nat, page: nat, r: MappedRange, loose: map<nat, nat>, g: nat)
    requires Fillable(m, places, s, page, r, loose)
    requires g in places && (places[g].Data? || g == m.freelist[0])
    ensures DataOk(Filled(m, s, page, r), places[m.freelist[0] := Data(s, r.id)], g)
  {
    var f := m.freelist[0];
    HeadIsFree(m, places, s, loose);
    LeafFacts(m, places, s, page, s, loose);
    if g == f {
      SetEntryOf(m, places, s, page, PTE(f, r.flags), s, page, s, loose);
    } else {
      assert DataOk(m, places, g);
      SetEntryOf(m, places, s, page, PTE(f, r.flags), places[g].space, m.info[g].mappedAddr, s, loose);
    }
  }

  lemma FilledFlat(m: Memory, places: Places, s: nat, page: nat, r: MappedRange, loose: map<nat, nat>)
    requires Fillable(m, places, s, page, r, loose)
    ensures FlatInv(Filled(m, s, page, r), places[m.freelist[0] := Data(s, r.id)])
  {
    var f := m.freelist[0];
    var m', places' := Filled(m, s, page, r), places[f := Data(s, r.id)];
    HeadIsFree(m, places, s, loose);
    LeafFacts(m, places, s, page, s, loose);
    assert Tree(m'.phys, places') by {
      PlaceMoveTree(m.phys, places, f, Data(s, r.id));
      SetLeafTree(m.phys, places', Leaf(m.phys, m.spaces[s].root, page).value, Index(page, 1), PTE(f, r.flags));
    }
    TailFreelist(m, m', places, Data(s, r.id));
    FlagsElsewhere(m, m', places, f, Data(s, r.id));
    forall g | g in places'
      ensures PlaceOk(m', places'[g])
    {
      assert PlaceOk(m, places[g]);
    }
  }

  lemma FilledInv(m: Memory, places: Places, s: nat, page: nat, r: MappedRange, loose: map<nat, nat>)
    requires Fillable(m, places, s, page, r, loose)
    ensures Inv(Filled(m, s, page, r), places[m.freelist[0] := Data(s, r.id)], s, loose)
  {
    var f := m.freelist[0];
    var m', places' := Filled(m, s, page, r), places[f := Data(s, r.id)];
    HeadIsFree(m, places, s, loose);
    FilledFlat(m, places, s, page, r, loose);
    forall z | z in m'.spaces
      ensures SpaceInv(m', places', z)
    {
      FilledSpace(m, places, s, page, r, loose, z);
    }
    forall z, q: nat | z in m'.spaces && q < LOWER_PAGES
      ensures EntryOk(m', places', z, q, s, loose)
    {
      FilledEntry(m, places, s, page, r, loose, z, q);
    }
    forall g | g in places' && places'[g].Data?
      ensures DataOk(m', places', g)
    {
      FilledData(m, places, s, page, r, loose, g);
    }
  }

  // ---------------------------------------------------------------- a page table

  /** create_next_page_table: the frame at the head of the freelist is zeroed and linked at word `i` of table `t`. */
  function Linked(m: Memory, s: nat, t: nat, i: nat, flags: nat): Memory
    requires m.freelist != [] && s in m.spaces && IsTable(m.phys, t) && i < ENTRIES && m.freelist[0] in m.info
  {
    var g := m.freelist[0];
    m.(freelist := m.freelist[1..],
       info := m.info[g := m.info[g].(free := false)],
       phys := LinkTable(m.phys, t, i, g, flags),
       spaces := m.spaces[s := m.spaces[s].(tablePages := m.spaces[s].tablePages + [g])])
  }

  ghost predicate Linkable(m: Memory, places: Places, s: nat, t: nat, i: nat, loose: map<nat, nat>) {
    && Inv(m, places, s, loose) && m.freelist != [] && s in m.spaces && m.freelist[0] in m.info
    && t in places && places[t].Table? && places[t].space == s && places[t].level > 1
    && i < Limit(places[t].level) && i < ENTRIES && IsTable(m.phys, t) && !Present(m.phys[t].words[i])
  }

  lemma LinkedEntry(m: Memory, places: Places, s: nat, t: nat, i: nat, flags: nat, loose: map<nat, nat>, z: nat, q: nat)
    requires Linkable(m, places, s, t, i, loose) && z in m.spaces && q < LOWER_PAGES
    ensures EntryOf(Linked(m, s, t, i, flags), z, q) == EntryOf(m, z, q)
  {
    HeadIsFree(m, places, s, loose);
    assert SpaceInv(m, places, z);
    LowerIndex(q, 4);
    LinkEntry(m.phys, places, t, i, m.freelist[0], flags, m.spaces[z].root, z, q, 4);
  }

  lemma LinkedSpace(m: Memory, places: Places, s: nat, t: nat, i: nat, flags: nat, loose: map<nat, nat>, z: nat)
    requires Linkable(m, places, s, t, i, loose) && z in m.spaces
    ensures SpaceInv(Linked(m, s, t, i, flags), LinkPlaces(places, t, i, m.freelist[0]), z)
  {
    var g := m.freelist[0];
    var p := LinkPlaces(places, t, i, g)[g];
    HeadIsFree(m, places, s, loose);
    assert SpaceInv(m, places, z);
    ListsElsewhere(m.spaces[z], places, z, g, p);
    if z == s {
      assert g !in m.spaces[s].tablePages;
    } else {
      TablesElsewhere(m.spaces[z], places, z, g, p);
    }
  }

  lemma LinkedFlat(m: Memory, places: Places, s: nat, t: nat, i: nat, flags: nat, loose: map<nat, nat>)
    requires Linkable(m, places, s, t, i, loose) && flags % 8 == 7
    ensures FlatInv(Linked(m, s, t, i, flags), LinkPlaces(places, t, i, m.freelist[0]))
  {
    var g := m.freelist[0];
    var m', places' := Linked(m, s, t, i, flags), LinkPlaces(places, t, i, g);
    HeadIsFree(m, places, s, loose);
    LinkTree(m.phys, places, t, i, g, flags);
    TailFreelist(m, m', places, places'[g]);
    FlagsElsewhere(m, m', places, g, places'[g]);
    forall f | f in places'
      ensures PlaceOk(m', places'[f])
    {
      assert PlaceOk(m, places[f]);
    }
  }

  /** Creating a missing table keeps the invariant and every translation. */
  lemma LinkedInv(m: Memory, places: Places, s: nat, t: nat, i: nat, flags: nat, loose: map<nat, nat>)
    requires Linkable(m, places, s, t, i, loose) && flags % 8 == 7
    ensures Inv(Linked(m, s, t, i, flags), LinkPlaces(places, t, i, m.freelist[0]), s, loose)
  {
    var g := m.freelist[0];
    var m', places' := Linked(m, s, t, i, flags), LinkPlaces(places, t, i, g);
    HeadIsFree(m, places, s, loose);
    LinkedFlat(m, places, s, t, i, flags, loose);
    forall z | z in m'.spaces
      ensures SpaceInv(m', places', z)
    {
      LinkedSpace(m, places, s, t, i, flags, loose, z);
    }
    forall z, q: nat | z in m'.spaces && q < LOWER_PAGES
      ensures EntryOk(m', places', z, q, s, loose)
    {
      LinkedEntry(m, places, s, t, i, flags, loose, z, q);
      assert EntryOk(m, places, z, q, s, loose);
    }
    forall f | f in places' && places'[f].Data?
      ensures DataOk(m', places', f)
    {
      assert DataOk(m, places, f);
      LinkedEntry(m, places, s, t, i, flags, loose, places[f].space, m.info[f].mappedAddr);
    }
  }

  lemma LinkedKeeps(m: Memory, places: Places, s: nat, t: nat, i: nat, flags: nat, loose: map<nat, nat>)
    requires Linkable(m, places, s, t, i, loose)
    ensures OnlyTables(m, places, Linked(m, s, t, i, flags), LinkPlaces(places, t, i, m.freelist[0]))
  {
    var m', places' := Linked(m, s, t, i, flags), LinkPlaces(places, t, i, m.freelist[0]);
    HeadIsFree(m, places, s, loose);
    forall z, q: nat | z in m.spaces && q < LOWER_PAGES
      ensures EntryOf(m', z, q) == EntryOf(m, z, q)
    {
      LinkedEntry(m, places, s, t, i, flags, loose, z, q);
    }
    forall f | f in places && places[f].Data?
      ensures FrameKept(m, places, m', places', f)
    {
      assert DataOk(m, places, f);
    }
  }

  // ---------------------------------------------------------------- what a fault does to the views

  /** A page is brought in: no process can tell from the contents it reads. */
  lemma FilledView(m: Memory, places: Places, s: nat, page: nat, r: MappedRange, content: seq<byte>,
                   files: map<nat, seq<byte>>, z: nat, q: nat)
    requires Strict(m, places) && m.freelist != [] && |content| == PAGE_SIZE && z in m.spaces && q < LOWER_PAGES
    requires m.freelist[0] in m.phys && m.freelist[0] in places && places[m.freelist[0]].Free?
    requires Fillable(m.(phys := m.phys[m.freelist[0] := Bytes(content)]), places, s, page, r, map[])
    requires Find(m.spaces[s].ranges, page) == Some(r) && content == FaultPage(files, r, page)
    requires !Present(EntryOf(m, s, page))
    ensures View(Filled(m.(phys := m.phys[m.freelist[0] := Bytes(content)]), s, page, r), files, z, q) == View(m, files, z, q)
  {
    var f := m.freelist[0];
    var m1 := m.(phys := m.phys[f := Bytes(content)]);
    var m2 := Filled(m1, s, page, r);
    WriteFrameEntry(m, places, f, Bytes(content), 0, map[], z, q);
    WriteFrameEntry(m, places, f, Bytes(content), 0, map[], s, page);
    FilledEntry(m1, places, s, page, r, map[], z, q);
    LeafFacts(m1, places, s, page, s, map[]);
    if (z, q) != (s, page) && Present(EntryOf(m, z, q)) {
      assert EntryOk(m, places, z, q, 0, map[]);
    }
  }
}
