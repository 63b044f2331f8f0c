/**
  The four-level page tables, as they lie in physical memory.

  A frame of physical memory holds either 512 table words or 4096 bytes of data. The lower half of
  a root table (entries 0 to 255) belongs to the process; the upper half is shared with the kernel.
 */
module PageTable {
  import opened Common

  const ENTRIES: nat := 512
  const LOWER_ENTRIES: nat := 256
  /** Number of pages in the lower half of the 48-bit address space. */
  const LOWER_PAGES: nat := 0x8_0000_0000

  const ADDRESS_MASK: bv64 := 0x000F_FFFF_FFFF_F000

  /** A table word, split into the frame number in bits 12 to 51 and all other bits. */
  datatype PTE = PTE(pfn: nat, flags: nat)

  const EMPTY: PTE := PTE(0, 0)

  predicate Present(e: PTE) { e.flags % 2 == 1 }

  /** Composing a word from an address and flags and masking it again loses nothing. */
  lemma WordRoundTrip(phy: bv64, flags: bv64)
    requires phy & !ADDRESS_MASK == 0 && flags & ADDRESS_MASK == 0
    ensures (phy | flags) & ADDRESS_MASK == phy
    ensures (phy | flags) & !ADDRESS_MASK == flags
  {
    assert (phy | flags) & ADDRESS_MASK == (phy & ADDRESS_MASK) | (flags & ADDRESS_MASK);
  }

  datatype Content = Words(words: seq<PTE>) | Bytes(bytes: seq<byte>)

  type Phys = map<nat, Content>

  /** A zeroed frame, read as a table. */
  function ZeroTable(): (c: Content)
    ensures c.Words? && |c.words| == ENTRIES && forall i :: 0 <= i < ENTRIES ==> c.words[i] == EMPTY
  {
    Words(seq(ENTRIES, _ => EMPTY))
  }

  /** Where a frame is linked: the freelist, a pagemap's table list, or a range's page list. */
  datatype Place =
    | Free
    | Table(space: nat, level: nat, prefix: nat)
    | Data(space: nat, range: nat)

  type Places = map<nat, Place>

  /** (virt >> 12, 21, 30 or 39) & 0x1FF, for the page number `virt >> 12`. */
  function Index(page: nat, level: nat): (i: nat)
    requires 1 <= level <= 4
    ensures i < ENTRIES
  {
    if level == 1 then page % 0x200
    else if level == 2 then page / 0x200 % 0x200
    else if level == 3 then page / 0x4_0000 % 0x200
    else page / 0x800_0000 % 0x200
  }

  /** The part of the page number consumed before reaching the table at `level`. */
  function Prefix(page: nat, level: nat): nat
    requires 1 <= level <= 4
  {
    if level == 1 then page / 0x200
    else if level == 2 then page / 0x4_0000
    else if level == 3 then page / 0x800_0000
    else page / 0x10_0000_0000
  }

  lemma PrefixStep(page: nat, level: nat)
    requires 2 <= level <= 4
    ensures Prefix(page, level - 1) == Prefix(page, level) * ENTRIES + Index(page, level)
  {
    if level == 2 {
      DivideTwice(page, 0x200);
    } else if level == 3 {
      DivideTwice(page, 0x4_0000);
    } else {
      DivideTwice(page, 0x800_0000);
    }
  }

  lemma DivideTwice(n: nat, d: nat)
    requires d == 0x200 || d == 0x4_0000 || d == 0x800_0000
    ensures n / d == n / (d * 0x200) * 0x200 + n / d % 0x200
  {
  }

  /** The indices are the digits of the page number to the base of 512, the first one of the root table. */
  lemma IndexDigits(page: nat)
    requires page < 0x10_0000_0000
    ensures page == Index(page, 4) * 0x800_0000 + Index(page, 3) * 0x4_0000 + Index(page, 2) * 0x200 + Index(page, 1)
  {
    PrefixStep(page, 4);
    PrefixStep(page, 3);
    PrefixStep(page, 2);
    assert page == page / 0x200 * 0x200 + page % 0x200;
  }

  function Limit(level: nat): nat {
    if level == 4 then LOWER_ENTRIES else ENTRIES
  }

  lemma LowerIndex(page: nat, level: nat)
    requires page < LOWER_PAGES && 1 <= level <= 4
    ensures Index(page, level) < Limit(level)
    ensures level == 4 ==> Prefix(page, level) == 0
  {
  }

  predicate IsTable(phys: Phys, t: nat) {
    t in phys && phys[t].Words? && |phys[t].words| == ENTRIES
  }

  /** The word a walk starting at table `t` reaches, or an empty word if a table is missing. */
  function EntryFrom(phys: Phys, t: nat, page: nat, level: nat): PTE
    requires 1 <= level <= 4
    decreases level, page
  {
    if !IsTable(phys, t) then EMPTY
    else
      var e := phys[t].words[Index(page, level)];
      if level == 1 then e
      else if Present(e) then EntryFrom(phys, e.pfn, page, level - 1)
      else EMPTY
  }

  /** The last-level table of the walk, if all tables on the way are present. */
  function LeafFrom(phys: Phys, t: nat, page: nat, level: nat): Option<nat>
    requires 1 <= level <= 4
    decreases level, page
  {
    if !IsTable(phys, t) then None
    else if level == 1 then Some(t)
    else
      var e := phys[t].words[Index(page, level)];
      if Present(e) then LeafFrom(phys, e.pfn, page, level - 1) else None
  }

  function Entry(phys: Phys, root: nat, page: nat): PTE {
    EntryFrom(phys, root, page, 4)
  }

  function Leaf(phys: Phys, root: nat, page: nat): Option<nat> {
    LeafFrom(phys, root, page, 4)
  }

  /** Word `i` of table `f`, if present, leads to a table one level down at the position it stands for, and forbids nothing. */
  ghost predicate ChildOk(phys: Phys, places: Places, f: nat, i: nat)
    requires f in places && places[f].Table? && places[f].level > 1 && IsTable(phys, f) && i < ENTRIES
  {
    Present(phys[f].words[i]) ==>
      && phys[f].words[i].pfn in places && phys[f].words[i].flags % 8 == 7
      && places[phys[f].words[i].pfn] == Table(places[f].space, places[f].level - 1, places[f].prefix * ENTRIES + i)
  }

  /** A word is present or zero. */
  ghost predicate WordOk(phys: Phys, f: nat, i: nat)
    requires IsTable(phys, f) && i < ENTRIES
  {
    Present(phys[f].words[i]) || phys[f].words[i] == EMPTY
  }

  ghost predicate TableOk(phys: Phys, places: Places, f: nat)
    requires f in places && places[f].Table?
  {
    && IsTable(phys, f)
    && 1 <= places[f].level <= 4
    && (forall i {:trigger WordOk(phys, f, i)} :: 0 <= i < Limit(places[f].level) ==> WordOk(phys, f, i))
    && (places[f].level > 1 ==> forall i {:trigger ChildOk(phys, places, f, i)} ::
          0 <= i < Limit(places[f].level) ==> ChildOk(phys, places, f, i))
  }

  /** Word `i` of table `t` leads to frame `f`. */
  ghost predicate HangsAt(phys: Phys, places: Places, t: nat, i: nat, f: nat) {
    && t in places && places[t].Table? && places[t].level > 1 && IsTable(phys, t) && i < Limit(places[t].level)
    && Present(phys[t].words[i]) && phys[t].words[i].pfn == f
  }

  ghost predicate OnlyRoot(places: Places, f: nat)
    requires f in places && places[f].Table?
  {
    forall g {:trigger g in places} :: g in places && places[g].Table? && places[g].space == places[f].space && places[g].level == 4 ==> g == f
  }

  /** Every table but the one root of its pagemap hangs from another. */
  ghost predicate Hung(phys: Phys, places: Places, f: nat)
    requires f in places && places[f].Table?
  {
    if places[f].level == 4 then OnlyRoot(places, f) else exists t: nat, i: nat :: HangsAt(phys, places, t, i, f)
  }

  ghost predicate Tree(phys: Phys, places: Places) {
    && (forall f {:trigger TableOk(phys, places, f)} :: f in places && places[f].Table? ==> TableOk(phys, places, f))
    && (forall f {:trigger Hung(phys, places, f)} :: f in places && places[f].Table? ==> Hung(phys, places, f))
  }

  /** A table still hangs where it did when the words that lead to tables are as they were. */
  lemma StillHung(phys: Phys, places: Places, phys': Phys, places': Places, f: nat)
    requires f in places && places[f].Table? && Hung(phys, places, f) && f in places' && places'[f] == places[f]
    requires forall t: nat, i: nat :: HangsAt(phys, places, t, i, f) ==> HangsAt(phys', places', t, i, f)
    requires forall g :: g in places' && places'[g].Table? && places'[g].level == 4 && places'[g].space == places[f].space ==> g in places && places[g] == places'[g]
    ensures Hung(phys', places', f)
  {
    if places[f].level != 4 {
      var t: nat, i: nat :| HangsAt(phys, places, t, i, f);
      assert HangsAt(phys', places', t, i, f);
    }
  }

  ghost predicate IsRoot(places: Places, root: nat, space: nat) {
    root in places && places[root] == Table(space, 4, 0)
  }

  /** Position `t` is where a walk for `page` must be at `level`. */
  ghost predicate OnPath(places: Places, t: nat, space: nat, page: nat, level: nat)
    requires 1 <= level <= 4
  {
    t in places && places[t] == Table(space, level, Prefix(page, level))
  }

  lemma WalkStep(phys: Phys, places: Places, t: nat, space: nat, page: nat, level: nat)
    requires Tree(phys, places) && page < LOWER_PAGES && 2 <= level <= 4
    requires OnPath(places, t, space, page, level)
    requires IsTable(phys, t) && Present(phys[t].words[Index(page, level)])
    ensures OnPath(places, phys[t].words[Index(page, level)].pfn, space, page, level - 1)
  {
    LowerIndex(page, level);
    PrefixStep(page, level);
    assert TableOk(phys, places, t) && ChildOk(phys, places, t, Index(page, level));
  }

  lemma {:induction false} LeafPlace(phys: Phys, places: Places, t: nat, space: nat, page: nat, level: nat)
    requires Tree(phys, places) && page < LOWER_PAGES && 1 <= level <= 4
    requires OnPath(places, t, space, page, level)
    ensures var l := LeafFrom(phys, t, page, level);
            if l.Some?
            then OnPath(places, l.value, space, page, 1) && IsTable(phys, l.value)
                 && EntryFrom(phys, t, page, level) == phys[l.value].words[Index(page, 1)]
            else EntryFrom(phys, t, page, level) == EMPTY
    decreases level
  {
    assert TableOk(phys, places, t);
    if level > 1 && Present(phys[t].words[Index(page, level)]) {
      WalkStep(phys, places, t, space, page, level);
      LeafPlace(phys, places, phys[t].words[Index(page, level)].pfn, space, page, level - 1);
    }
  }

  /** Distinct pages are translated by distinct words, in one process or across processes. */
  lemma DistinctEntries(phys: Phys, places: Places, root: nat, space: nat, page: nat, root': nat, space': nat, page': nat)
    requires Tree(phys, places) && IsRoot(places, root, space) && IsRoot(places, root', space')
    requires page < LOWER_PAGES && page' < LOWER_PAGES && (space, page) != (space', page')
    requires Leaf(phys, root, page).Some? && Leaf(phys, root', page').Some?
    ensures (Leaf(phys, root, page).value, Index(page, 1)) != (Leaf(phys, root', page').value, Index(page', 1))
  {
    LowerIndex(page, 4);
    LowerIndex(page', 4);
    LeafPlace(phys, places, root, space, page, 4);
    LeafPlace(phys, places, root', space', page', 4);
    assert page == Prefix(page, 1) * ENTRIES + Index(page, 1);
    assert page' == Prefix(page', 1) * ENTRIES + Index(page', 1);
  }

  /** Writes outside the tables of a process do not change its translations. */
  lemma {:induction false} WalkFrame(phys: Phys, phys': Phys, places: Places, t: nat, space: nat, page: nat, level: nat)
    requires Tree(phys, places) && page < LOWER_PAGES && 1 <= level <= 4
    requires OnPath(places, t, space, page, level)
    requires forall f :: f in places && places[f].Table? && places[f].space == space ==>
               f in phys && f in phys' && phys'[f] == phys[f]
    ensures EntryFrom(phys', t, page, level) == EntryFrom(phys, t, page, level)
    ensures LeafFrom(phys', t, page, level) == LeafFrom(phys, t, page, level)
    decreases level
  {
    assert TableOk(phys, places, t);
    if level > 1 && Present(phys[t].words[Index(page, level)]) {
      WalkStep(phys, places, t, space, page, level);
      WalkFrame(phys, phys', places, phys[t].words[Index(page, level)].pfn, space, page, level - 1);
    }
  }

  // ---------------------------------------------------------------- writing a word

  function SetWord(phys: Phys, t: nat, i: nat, e: PTE): Phys
    requires IsTable(phys, t) && i < ENTRIES
  {
    phys[t := Words(phys[t].words[i := e])]
  }

  lemma SetLeafTree(phys: Phys, places: Places, t: nat, i: nat, e: PTE)
    requires Tree(phys, places) && t in places && places[t].Table? && places[t].level == 1 && i < ENTRIES
    requires Present(e) || e == EMPTY
    ensures IsTable(phys, t) && Tree(SetWord(phys, t, i, e), places)
  {
    assert TableOk(phys, places, t);
    var phys' := SetWord(phys, t, i, e);
    forall f | f in places && places[f].Table?
      ensures TableOk(phys', places, f)
    {
      assert TableOk(phys, places, f);
      forall j | 0 <= j < Limit(places[f].level)
        ensures WordOk(phys', f, j)
      {
        assert WordOk(phys, f, j);
      }
      forall j | 0 <= j < Limit(places[f].level) && places[f].level > 1
        ensures ChildOk(phys', places, f, j)
      {
        assert ChildOk(phys, places, f, j);
      }
    }
    forall f | f in places && places[f].Table?
      ensures Hung(phys', places, f)
    {
      assert Hung(phys, places, f);
      StillHung(phys, places, phys', places, f);
    }
  }

  /** Writing the word of one page changes the translation of that page only. */
  lemma {:induction false} SetLeafEntry(phys: Phys, places: Places, t: nat, i: nat, e: PTE,
                                        x: nat, space: nat, page: nat, level: nat)
    requires Tree(phys, places) && t in places && places[t].Table? && places[t].level == 1 && i < ENTRIES
    requires page < LOWER_PAGES && 1 <= level <= 4 && OnPath(places, x, space, page, level)
    ensures IsTable(phys, t)
    ensures LeafFrom(SetWord(phys, t, i, e), x, page, level) == LeafFrom(phys, x, page, level)
    ensures EntryFrom(SetWord(phys, t, i, e), x, page, level) ==
            if LeafFrom(phys, x, page, level) == Some(t) && Index(page, 1) == i then e
            else EntryFrom(phys, x, page, level)
    decreases level
  {
    assert TableOk(phys, places, t) && TableOk(phys, places, x);
    if level > 1 {
      assert x != t;
      if Present(phys[x].words[Index(page, level)]) {
        WalkStep(phys, places, x, space, page, level);
        SetLeafEntry(phys, places, t, i, e, phys[x].words[Index(page, level)].pfn, space, page, level - 1);
      }
    }
  }

  // ---------------------------------------------------------------- creating a missing table

  /** Memory after a zeroed frame `g` has been linked at word `i` of table `t`. */
  function LinkTable(phys: Phys, t: nat, i: nat, g: nat, flags: nat): Phys
    requires IsTable(phys, t) && i < ENTRIES
  {
    phys[g := ZeroTable()][t := Words(phys[t].words[i := PTE(g, flags)])]
  }

  ghost function LinkPlaces(places: Places, t: nat, i: nat, g: nat): Places
    requires t in places && places[t].Table? && places[t].level > 1
  {
    places[g := Table(places[t].space, places[t].level - 1, places[t].prefix * ENTRIES + i)]
  }

  /** The new table can be linked at word `i` of table `t`. */
  ghost predicate CanLink(phys: Phys, places: Places, t: nat, i: nat, g: nat, flags: nat) {
    && Tree(phys, places) && t in places && places[t].Table? && places[t].level > 1 && i < Limit(places[t].level)
    && g in places && places[g].Free? && IsTable(phys, t) && !Present(phys[t].words[i]) && flags % 8 == 7
  }

  lemma LinkTableOk(phys: Phys, places: Places, t: nat, i: nat, g: nat, flags: nat, f: nat)
    requires CanLink(phys, places, t, i, g, flags) && f in places && places[f].Table?
    ensures TableOk(LinkTable(phys, t, i, g, flags), LinkPlaces(places, t, i, g), f)
  {
    var phys', places' := LinkTable(phys, t, i, g, flags), LinkPlaces(places, t, i, g);
    assert TableOk(phys, places, f);
    forall j | 0 <= j < Limit(places[f].level)
      ensures WordOk(phys', f, j)
    {
      assert WordOk(phys, f, j);
    }
    forall j | 0 <= j < Limit(places[f].level) && places[f].level > 1
      ensures ChildOk(phys', places', f, j)
    {
      assert ChildOk(phys, places, f, j);
    }
  }

  lemma LinkTree(phys: Phys, places: Places, t: nat, i: nat, g: nat, flags: nat)
    requires CanLink(phys, places, t, i, g, flags)
    ensures Tree(LinkTable(phys, t, i, g, flags), LinkPlaces(places, t, i, g))
  {
    assert TableOk(phys, places, t);
    var phys', places' := LinkTable(phys, t, i, g, flags), LinkPlaces(places, t, i, g);
    forall f | f in places' && places'[f].Table?
      ensures TableOk(phys', places', f)
    {
      if f != g {
        LinkTableOk(phys, places, t, i, g, flags, f);
      }
    }
    assert HangsAt(phys', places', t, i, g);
    forall f | f in places' && places'[f].Table?
      ensures Hung(phys', places', f)
    {
      if f != g {
        assert Hung(phys, places, f);
        StillHung(phys, places, phys', places', f);
      }
    }
  }

  /** Creating a missing table changes no translation at all. */
  lemma {:induction false} LinkEntry(phys: Phys, places: Places, t: nat, i: nat, g: nat, flags: nat,
                                     x: nat, space: nat, page: nat, level: nat)
    requires Tree(phys, places) && t in places && places[t].Table? && places[t].level > 1 && i < Limit(places[t].level)
    requires g in places && places[g].Free? && IsTable(phys, t) && !Present(phys[t].words[i])
    requires page < LOWER_PAGES && 1 <= level <= 4 && OnPath(places, x, space, page, level)
    ensures IsTable(phys, t)
    ensures EntryFrom(LinkTable(phys, t, i, g, flags), x, page, level) == EntryFrom(phys, x, page, level)
    decreases level
  {
    assert TableOk(phys, places, t) && TableOk(phys, places, x);
    var phys' := LinkTable(phys, t, i, g, flags);
    assert x != g && IsTable(phys', x) && IsTable(phys', g);
    if level > 1 {
      var j := Index(page, level);
      if x == t && j == i {
        assert EntryFrom(phys', g, page, level - 1) == EMPTY;
      } else {
        assert phys'[x].words[j] == phys[x].words[j];
        if Present(phys[x].words[j]) {
          WalkStep(phys, places, x, space, page, level);
          LinkEntry(phys, places, t, i, g, flags, phys[x].words[j].pfn, space, page, level - 1);
        }
      }
    }
  }

  // ---------------------------------------------------------------- whole-translation statements

  /** map_page on an existing path: exactly the translation of (space, page) becomes `e`. */
  lemma SetEntryExact(phys: Phys, places: Places, root: nat, space: nat, page: nat, e: PTE,
                      root': nat, space': nat, page': nat)
    requires Tree(phys, places) && IsRoot(places, root, space) && IsRoot(places, root', space')
    requires space == space' ==> root == root'
    requires page < LOWER_PAGES && page' < LOWER_PAGES && Leaf(phys, root, page).Some?
    ensures IsTable(phys, Leaf(phys, root, page).value)
    ensures Entry(SetWord(phys, Leaf(phys, root, page).value, Index(page, 1), e), root', page') ==
            if (space', page') == (space, page) then e else Entry(phys, root', page')
    ensures Leaf(SetWord(phys, Leaf(phys, root, page).value, Index(page, 1), e), root', page') == Leaf(phys, root', page')
  {
    var t := Leaf(phys, root, page).value;
    LowerIndex(page, 4);
    LowerIndex(page', 4);
    LeafPlace(phys, places, root, space, page, 4);
    SetLeafEntry(phys, places, t, Index(page, 1), e, root', space', page', 4);
    if (space', page') != (space, page) && Leaf(phys, root', page').Some? {
      DistinctEntries(phys, places, root, space, page, root', space', page');
    }
  }

  /** Writing a frame that is not a table leaves the trees and every translation alone. */
  lemma DataWrite(phys: Phys, places: Places, f: nat, c: Content, root: nat, space: nat, page: nat)
    requires Tree(phys, places) && IsRoot(places, root, space) && page < LOWER_PAGES
    requires f in places && !places[f].Table?
    ensures Entry(phys[f := c], root, page) == Entry(phys, root, page)
    ensures Leaf(phys[f := c], root, page) == Leaf(phys, root, page)
  {
    LowerIndex(page, 4);
    forall t | t in places && places[t].Table?
      ensures t in phys
    {
      assert TableOk(phys, places, t);
    }
    WalkFrame(phys, phys[f := c], places, root, space, page, 4);
  }

  lemma DataWriteTree(phys: Phys, places: Places, f: nat, c: Content)
    requires Tree(phys, places) && f in places && !places[f].Table?
    ensures Tree(phys[f := c], places)
  {
    var phys' := phys[f := c];
    forall t | t in places && places[t].Table?
      ensures TableOk(phys', places, t)
    {
      assert TableOk(phys, places, t);
      forall j | 0 <= j < Limit(places[t].level)
        ensures WordOk(phys', t, j)
      {
        assert WordOk(phys, t, j);
      }
      forall j | 0 <= j < Limit(places[t].level) && places[t].level > 1
        ensures ChildOk(phys', places, t, j)
      {
        assert ChildOk(phys, places, t, j);
      }
    }
    forall t | t in places && places[t].Table?
      ensures Hung(phys', places, t)
    {
      assert Hung(phys, places, t);
      StillHung(phys, places, phys', places, t);
    }
  }

  /** Moving a frame between non-table places does not disturb the trees. */
  lemma PlaceMoveTree(phys: Phys, places: Places, f: nat, p: Place)
    requires Tree(phys, places) && f in places && !places[f].Table? && !p.Table?
    ensures Tree(phys, places[f := p])
  {
    var places' := places[f := p];
    forall t | t in places' && places'[t].Table?
      ensures TableOk(phys, places', t)
    {
      assert TableOk(phys, places, t);
      forall j | 0 <= j < Limit(places[t].level) && places[t].level > 1
        ensures ChildOk(phys, places', t, j)
      {
        assert ChildOk(phys, places, t, j);
      }
    }
    forall t | t in places' && places'[t].Table?
      ensures Hung(phys, places', t)
    {
      assert Hung(phys, places, t);
      StillHung(phys, places, phys, places', t);
    }
  }

  // ---------------------------------------------------------------- how far a walk gets

  /** The table at level `target` on the walk from table `t` at `level`, if the walk gets there. */
  function TableFrom(phys: Phys, t: nat, page: nat, level: nat, target: nat): Option<nat>
    requires 1 <= target <= level <= 4
    decreases level, page
  {
    if !IsTable(phys, t) then None
    else if level == target then Some(t)
    else
      var e := phys[t].words[Index(page, level)];
      if Present(e) then TableFrom(phys, e.pfn, page, level - 1, target) else None
  }

  lemma {:induction false} TableFromStep(phys: Phys, t: nat, page: nat, level: nat, target: nat)
    requires 1 <= target < level <= 4
    requires TableFrom(phys, t, page, level, target + 1).Some?
    ensures var x := TableFrom(phys, t, page, level, target + 1).value;
            && IsTable(phys, x)
            && TableFrom(phys, t, page, level, target) ==
               (if Present(phys[x].words[Index(page, target + 1)])
                then TableFrom(phys, phys[x].words[Index(page, target + 1)].pfn, page, target, target) else None)
    decreases level
  {
    if level > target + 1 {
      TableFromStep(phys, phys[t].words[Index(page, level)].pfn, page, level - 1, target);
    }
  }

  lemma {:induction false} TableFromLeaf(phys: Phys, t: nat, page: nat, level: nat)
    requires 1 <= level <= 4
    ensures TableFrom(phys, t, page, level, 1) == LeafFrom(phys, t, page, level)
    decreases level
  {
    if IsTable(phys, t) && level > 1 && Present(phys[t].words[Index(page, level)]) {
      TableFromLeaf(phys, phys[t].words[Index(page, level)].pfn, page, level - 1);
    }
  }

  lemma {:induction false} TableFromNone(phys: Phys, t: nat, page: nat, level: nat, target: nat)
    requires 1 <= target <= level <= 4 && TableFrom(phys, t, page, level, target) == None
    ensures LeafFrom(phys, t, page, level) == None
    decreases level
  {
    if IsTable(phys, t) && level > target && Present(phys[t].words[Index(page, level)]) {
      TableFromNone(phys, phys[t].words[Index(page, level)].pfn, page, level - 1, target);
    }
  }

  /** Linking a new table under `t` leaves the walk down to `t` as it was. */
  lemma {:induction false} LinkTableFrom(phys: Phys, places: Places, t: nat, i: nat, g: nat, flags: nat,
                                         x: nat, space: nat, page: nat, level: nat)
    requires Tree(phys, places) && t in places && places[t].Table? && 1 < places[t].level <= level <= 4 && i < ENTRIES
    requires g in places && places[g].Free? && IsTable(phys, t)
    requires page < LOWER_PAGES && OnPath(places, x, space, page, level)
    requires TableFrom(phys, x, page, level, places[t].level) == Some(t)
    ensures TableFrom(LinkTable(phys, t, i, g, flags), x, page, level, places[t].level) == Some(t)
    decreases level
  {
    assert TableOk(phys, places, x);
    if level > places[t].level {
      WalkStep(phys, places, x, space, page, level);
      LinkTableFrom(phys, places, t, i, g, flags, phys[x].words[Index(page, level)].pfn, space, page, level - 1);
    }
  }

  /** A table that the walk of a page reaches has its place on the path of the page. */
  lemma {:induction false} TablePlace(phys: Phys, places: Places, t: nat, space: nat, page: nat, level: nat, target: nat)
    requires Tree(phys, places) && page < LOWER_PAGES && 1 <= target <= level <= 4
    requires OnPath(places, t, space, page, level) && TableFrom(phys, t, page, level, target).Some?
    ensures OnPath(places, TableFrom(phys, t, page, level, target).value, space, page, target)
    decreases level
  {
    if level > target {
      WalkStep(phys, places, t, space, page, level);
      TablePlace(phys, places, phys[t].words[Index(page, level)].pfn, space, page, level - 1, target);
    }
  }

  /**
    Every word on the way to a last-level table is present, writable and for user mode (bits 0 to
    2), so what a process may do with a page is up to the word of the page alone.
   */
  lemma PathPermits(phys: Phys, places: Places, root: nat, space: nat, page: nat, level: nat)
    requires Tree(phys, places) && IsRoot(places, root, space) && page < LOWER_PAGES && 2 <= level <= 4
    requires TableFrom(phys, root, page, 4, level).Some?
    ensures var t := TableFrom(phys, root, page, 4, level).value;
            IsTable(phys, t) && (Present(phys[t].words[Index(page, level)]) ==> phys[t].words[Index(page, level)].flags % 8 == 7)
  {
    LowerIndex(page, 4);
    LowerIndex(page, level);
    TablePlace(phys, places, root, space, page, 4, level);
    var t := TableFrom(phys, root, page, 4, level).value;
    assert TableOk(phys, places, t) && ChildOk(phys, places, t, Index(page, level));
  }

  // ---------------------------------------------------------------- how many tables there are

  /** The tables that a walk from table `t` at `level` would have to create. */
  function MissingFrom(phys: Phys, t: nat, page: nat, level: nat): nat
    requires 1 <= level <= 4
    decreases level, page
  {
    if level == 1 then 0
    else if IsTable(phys, t) && Present(phys[t].words[Index(page, level)]) then
      MissingFrom(phys, phys[t].words[Index(page, level)].pfn, page, level - 1)
    else level - 1
  }

  lemma {:induction false} AtMostMissing(phys: Phys, t: nat, page: nat, level: nat)
    requires 1 <= level <= 4
    ensures MissingFrom(phys, t, page, level) < level
    decreases level
  {
    if level > 1 && IsTable(phys, t) && Present(phys[t].words[Index(page, level)]) {
      AtMostMissing(phys, phys[t].words[Index(page, level)].pfn, page, level - 1);
    }
  }

  /** A walk that finds its last-level table misses none. */
  lemma {:induction false} NoneMissing(phys: Phys, places: Places, t: nat, space: nat, page: nat, level: nat)
    requires Tree(phys, places) && page < LOWER_PAGES && 1 <= level <= 4 && OnPath(places, t, space, page, level)
    ensures LeafFrom(phys, t, page, level).Some? <==> MissingFrom(phys, t, page, level) == 0
    decreases level
  {
    assert TableOk(phys, places, t);
    if level > 1 && Present(phys[t].words[Index(page, level)]) {
      WalkStep(phys, places, t, space, page, level);
      NoneMissing(phys, places, phys[t].words[Index(page, level)].pfn, space, page, level - 1);
    }
  }

  /** The tables below table `t` that are reached through its words from `i` on. */
  function Subtables(phys: Phys, t: nat, level: nat, i: nat): seq<nat>
    requires 1 <= level <= 4
    decreases level, if i < Limit(level) then Limit(level) - i else 0
  {
    if level == 1 || !IsTable(phys, t) || i >= Limit(level) then []
    else Under(phys, phys[t].words[i], level - 1) + Subtables(phys, t, level, i + 1)
  }

  /** The table, at `level`, that word `e` leads to, and those below it. */
  function Under(phys: Phys, e: PTE, level: nat): seq<nat>
    requires 1 <= level <= 3
    decreases level, ENTRIES + 1
  {
    if Present(e) then [e.pfn] + Subtables(phys, e.pfn, level, 0) else []
  }

  lemma SubtableOf(phys: Phys, places: Places, t: nat, i: nat)
    requires Tree(phys, places) && t in places && places[t].Table?
    ensures IsTable(phys, t)
    ensures places[t].level > 1 && i < Limit(places[t].level) && Present(phys[t].words[i]) ==>
              var child := phys[t].words[i].pfn;
              child in places && places[child].Table? && places[child].space == places[t].space && places[child].level == places[t].level - 1
  {
    assert TableOk(phys, places, t);
    if places[t].level > 1 && i < Limit(places[t].level) {
      assert ChildOk(phys, places, t, i);
    }
  }

  /** They are the same as long as the tables of the pagemap are. */
  lemma {:induction false} SubtablesFrame(phys: Phys, phys': Phys, places: Places, t: nat, space: nat, level: nat, i: nat)
    requires Tree(phys, places) && t in places && places[t].Table? && places[t].space == space && places[t].level == level
    requires forall f :: f in places && places[f].Table? && places[f].space == space ==> f in phys && f in phys' && phys'[f] == phys[f]
    requires 1 <= level <= 4
    ensures Subtables(phys', t, level, i) == Subtables(phys, t, level, i)
    decreases level, if i < Limit(level) then Limit(level) - i else 0
  {
    SubtableOf(phys, places, t, i);
    if level > 1 && i < Limit(level) {
      if Present(phys[t].words[i]) {
        SubtablesFrame(phys, phys', places, phys[t].words[i].pfn, space, level - 1, 0);
      }
      SubtablesFrame(phys, phys', places, t, space, level, i + 1);
    }
  }
}
