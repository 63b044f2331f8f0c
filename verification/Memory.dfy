/**
  The memory of the machine as the virtual memory manager sees it: frames, their lists, the
  pagemaps, and the invariant that ties them together.
 */
module Memory {
  import opened Common
  import opened Ranges
  import opened PageTable

  /** The page structure of a frame. */
  datatype PageInfo = PageInfo(free: bool, mappedAddr: nat)

  /** A pagemap. The page list of each range is kept beside it, under the identity of the range. */
  datatype Space = Space(
    root: nat,
    tablePages: seq<nat>,
    ranges: seq<MappedRange>,
    lists: map<nat, seq<nat>>,
    cached: Option<nat>)

  datatype Memory = Memory(
    freelist: seq<nat>,
    info: map<nat, PageInfo>,
    phys: Phys,
    spaces: map<nat, Space>,
    freshId: nat)

  /** The range with a given identity. */
  function ById(rs: seq<MappedRange>, id: nat): Option<MappedRange> {
    if rs == [] then None
    else if rs[0].id == id then Some(rs[0])
    else ById(rs[1..], id)
  }

  lemma {:induction false} ByIdMember(rs: seq<MappedRange>, id: nat)
    ensures ById(rs, id).Some? ==> ById(rs, id).value in rs && ById(rs, id).value.id == id
    ensures ById(rs, id).None? ==> forall r :: r in rs ==> r.id != id
  {
    if rs != [] {
      ByIdMember(rs[1..], id);
      assert rs == [rs[0]] + rs[1..];
    }
  }

  lemma ByIdUnique(rs: seq<MappedRange>, freshId: nat, r: MappedRange)
    requires UniqueIds(rs, freshId) && r in rs
    ensures ById(rs, r.id) == Some(r)
  {
    ByIdMember(rs, r.id);
    var q := ById(rs, r.id).value;
    var i :| 0 <= i < |rs| && rs[i] == r;
    var j :| 0 <= j < |rs| && rs[j] == q;
    assert i < j ==> rs[i].id != rs[j].id;
    assert j < i ==> rs[j].id != rs[i].id;
  }

  // ---------------------------------------------------------------- the invariant

  /** The ranges the frame invariant speaks about: anonymous and file ranges in the lower half. */
  ghost predicate RangeOk(r: MappedRange) {
    && (r.kind == Anonymous || r.kind == File)
    && r.flags % 2 == 1
    && r.End() <= LOWER_PAGES
  }

  ghost predicate SpaceOk(sp: Space, freshId: nat) {
    && ListOk(sp.ranges, freshId)
    && (forall r :: r in sp.ranges ==> RangeOk(r))
    && (forall k :: k in sp.lists <==> ById(sp.ranges, k).Some?)
    && (sp.cached.Some? ==> ById(sp.ranges, sp.cached.value).Some?)
  }

  ghost predicate KeysOk(m: Memory, places: Places) {
    places.Keys == m.info.Keys && places.Keys == m.phys.Keys
  }

  /** A frame is on the freelist exactly when its place says so. */
  ghost predicate FreelistOk(m: Memory, places: Places) {
    && NoDup(m.freelist)
    && (forall f {:trigger FreeIff(m.freelist, places, f)} :: FreeIff(m.freelist, places, f))
  }

  ghost predicate FreeIff(freelist: seq<nat>, places: Places, f: nat) {
    f in freelist <==> f in places && places[f].Free?
  }

  /** The free flag of a page structure tells whether the frame is on the freelist. */
  ghost predicate FlagIff(info: map<nat, PageInfo>, places: Places, f: nat) {
    f in places && f in info ==> (info[f].free <==> places[f].Free?)
  }

  ghost predicate InfoOk(m: Memory, places: Places) {
    forall f {:trigger FlagIff(m.info, places, f)} :: FlagIff(m.info, places, f)
  }

  ghost predicate TableListOk(sp: Space, places: Places, s: nat) {
    && NoDup(sp.tablePages)
    && (forall f :: f in sp.tablePages <==> f in places && places[f].Table? && places[f].space == s)
  }

  ghost predicate PageListOk(l: seq<nat>, places: Places, s: nat, r: nat) {
    && NoDup(l)
    && (forall f :: f in l <==> f in places && places[f] == Data(s, r))
  }

  ghost predicate ListsOk(lists: map<nat, seq<nat>>, places: Places, s: nat) {
    forall r {:trigger PageListOk(lists[r], places, s, r)} :: r in lists ==> PageListOk(lists[r], places, s, r)
  }

  ghost predicate PlaceOk(m: Memory, p: Place) {
    && (p.Table? ==> p.space in m.spaces)
    && (p.Data? ==> p.space in m.spaces && p.range in m.spaces[p.space].lists)
  }

  ghost predicate SpaceInv(m: Memory, places: Places, s: nat)
    requires s in m.spaces
  {
    var sp := m.spaces[s];
    && SpaceOk(sp, m.freshId)
    && IsRoot(places, sp.root, s)
    && TableListOk(sp, places, s)
    && ListsOk(sp.lists, places, s)
  }

  function EntryOf(m: Memory, s: nat, page: nat): PTE
    requires s in m.spaces
  {
    Entry(m.phys, m.spaces[s].root, page)
  }

  /**
    A present word names a frame of the same pagemap that records this page. The frame is listed in
    the range that covers the page and the word carries the flags of that range; a loose page is
    instead listed in the range `loose` says, whatever that range covers.
   */
  ghost predicate EntryOk(m: Memory, places: Places, s: nat, page: nat, ls: nat, loose: map<nat, nat>)
    requires s in m.spaces
  {
    var e := EntryOf(m, s, page);
    Present(e) ==>
      && e.pfn in places && places[e.pfn].Data? && places[e.pfn].space == s
      && e.pfn in m.info && m.info[e.pfn].mappedAddr == page
      && (if s == ls && page in loose then places[e.pfn].range == loose[page]
          else
            var r := ById(m.spaces[s].ranges, places[e.pfn].range);
            r.Some? && r.value.Covers(page) && e.flags == r.value.flags)
  }

  /** A listed data frame holds a page of bytes and is named by the word of the page it records. */
  ghost predicate DataOk(m: Memory, places: Places, f: nat)
    requires f in places && places[f].Data?
  {
    && places[f].space in m.spaces
    && f in m.info && m.info[f].mappedAddr < LOWER_PAGES
    && f in m.phys && m.phys[f].Bytes? && |m.phys[f].bytes| == PAGE_SIZE
    && Present(EntryOf(m, places[f].space, m.info[f].mappedAddr))
    && EntryOf(m, places[f].space, m.info[f].mappedAddr).pfn == f
  }

  /** The clauses about frames alone. */
  ghost predicate FlatInv(m: Memory, places: Places) {
    && KeysOk(m, places)
    && FreelistOk(m, places)
    && InfoOk(m, places)
    && PlacesInv(m, places)
    && Tree(m.phys, places)
  }

  ghost predicate SpacesInv(m: Memory, places: Places) {
    forall s {:trigger SpaceInv(m, places, s)} :: s in m.spaces ==> SpaceInv(m, places, s)
  }

  ghost predicate EntriesInv(m: Memory, places: Places, ls: nat, loose: map<nat, nat>) {
    forall s, page: nat {:trigger EntryOk(m, places, s, page, ls, loose)} ::
      s in m.spaces && page < LOWER_PAGES ==> EntryOk(m, places, s, page, ls, loose)
  }

  ghost predicate DataInv(m: Memory, places: Places) {
    forall f {:trigger DataOk(m, places, f)} :: f in places && places[f].Data? ==> DataOk(m, places, f)
  }

  ghost predicate PlacesInv(m: Memory, places: Places) {
    forall f {:trigger PlaceOk(m, places[f])} :: f in places ==> PlaceOk(m, places[f])
  }

  /**
    The frame invariant. While add_range is at work on pagemap `ls`, the pages in `loose` may be
    listed in a range that no longer covers them, or carry the flags it had before.
   */
  ghost predicate Inv(m: Memory, places: Places, ls: nat, loose: map<nat, nat>) {
    // as an equation, so that a proof obligation about the invariant is one fact and not a dozen
    Clauses(m, places, ls, loose) == true
  }

  ghost predicate Clauses(m: Memory, places: Places, ls: nat, loose: map<nat, nat>) {
    && FlatInv(m, places)
    && SpacesInv(m, places)
    && EntriesInv(m, places, ls, loose)
    && DataInv(m, places)
  }

  ghost predicate Strict(m: Memory, places: Places) {
    Inv(m, places, 0, map[])
  }

  // ---------------------------------------------------------------- reshaping the ranges of a pagemap

  function WithSpace(m: Memory, s: nat, sp: Space, freshId: nat): Memory {
    m.(spaces := m.spaces[s := sp], freshId := freshId)
  }

  /** A page that a range covered is covered by it still, with the same flags, or is declared loose. */
  ghost predicate KeepsCover(rs: seq<MappedRange>, rs': seq<MappedRange>, loose: map<nat, nat>, loose': map<nat, nat>) {
    forall r, page :: r in rs && r.Covers(page) && page !in loose ==>
      if page in loose' then loose'[page] == r.id
      else ById(rs', r.id).Some? && ById(rs', r.id).value.Covers(page) && ById(rs', r.id).value.flags == r.flags
  }

  ghost predicate Reshaped(m: Memory, places: Places, s: nat, sp': Space, freshId': nat,
                           loose: map<nat, nat>, loose': map<nat, nat>)
  {
    && Inv(m, places, s, loose) && s in m.spaces
    && (forall q :: q in loose ==> q in loose' && loose'[q] == loose[q])
    && m.freshId <= freshId' && SpaceOk(sp', freshId')
    && sp'.root == m.spaces[s].root && sp'.tablePages == m.spaces[s].tablePages
    && (forall k :: k in m.spaces[s].lists ==> k in sp'.lists && sp'.lists[k] == m.spaces[s].lists[k])
    && (forall k :: k in sp'.lists && k !in m.spaces[s].lists ==> sp'.lists[k] == [])
    && KeepsCover(m.spaces[s].ranges, sp'.ranges, loose, loose')
  }

  lemma ReshapeLists(m: Memory, places: Places, s: nat, sp': Space, freshId': nat,
                     loose: map<nat, nat>, loose': map<nat, nat>)
    requires Reshaped(m, places, s, sp', freshId', loose, loose')
    ensures ListsOk(sp'.lists, places, s)
  {
    assert SpaceInv(m, places, s);
    forall r | r in sp'.lists
      ensures PageListOk(sp'.lists[r], places, s, r)
    {
      if r in m.spaces[s].lists {
        assert PageListOk(m.spaces[s].lists[r], places, s, r);
      } else {
        forall f | f in places
          ensures places[f] != Data(s, r)
        {
          assert PlaceOk(m, places[f]);
        }
      }
    }
  }

  lemma ReshapeEntry(m: Memory, places: Places, s: nat, sp': Space, freshId': nat,
                     loose: map<nat, nat>, loose': map<nat, nat>, z: nat, page: nat)
    requires Reshaped(m, places, s, sp', freshId', loose, loose') && z in m.spaces && page < LOWER_PAGES
    ensures EntryOk(WithSpace(m, s, sp', freshId'), places, z, page, s, loose')
  {
    var m' := WithSpace(m, s, sp', freshId');
    assert EntryOk(m, places, z, page, s, loose);
    assert EntryOf(m', z, page) == EntryOf(m, z, page);
    var e := EntryOf(m, z, page);
    if z == s && page !in loose && Present(e) {
      ByIdMember(m.spaces[s].ranges, places[e.pfn].range);
    }
  }

  lemma IdsGrow(rs: seq<MappedRange>, freshId: nat, freshId': nat)
    requires ListOk(rs, freshId) && freshId <= freshId'
    ensures ListOk(rs, freshId')
  {
  }

  /** Changing the ranges, without touching frames, is harmless outside the pages declared loose. */
  lemma ReshapeInv(m: Memory, places: Places, s: nat, sp': Space, freshId': nat,
                   loose: map<nat, nat>, loose': map<nat, nat>)
    requires Reshaped(m, places, s, sp', freshId', loose, loose')
    ensures Inv(WithSpace(m, s, sp', freshId'), places, s, loose')
  {
    var m' := WithSpace(m, s, sp', freshId');
    forall z | z in m'.spaces
      ensures SpaceInv(m', places, z)
    {
      assert SpaceInv(m, places, z);
      if z == s {
        ReshapeLists(m, places, s, sp', freshId', loose, loose');
      } else {
        IdsGrow(m.spaces[z].ranges, m.freshId, freshId');
      }
    }
    forall z, page: nat | z in m'.spaces && page < LOWER_PAGES
      ensures EntryOk(m', places, z, page, s, loose')
    {
      ReshapeEntry(m, places, s, sp', freshId', loose, loose', z, page);
    }
    forall f | f in places && places[f].Data?
      ensures DataOk(m', places, f)
    {
      assert DataOk(m, places, f);
    }
    forall f | f in places
      ensures PlaceOk(m', places[f])
    {
      assert PlaceOk(m, places[f]);
    }
  }

  // ---------------------------------------------------------------- what a process sees

  ghost predicate FrameKept(m: Memory, places: Places, m': Memory, places': Places, f: nat)
    requires f in places
  {
    && f in places' && places'[f] == places[f]
    && f in m.phys && f in m'.phys && m'.phys[f] == m.phys[f]
    && f in m.info && f in m'.info && m'.info[f] == m.info[f]
  }

  /** Every data frame of the first state is a data frame of the second, untouched. */
  ghost predicate DataKept(m: Memory, places: Places, m': Memory, places': Places) {
    forall f {:trigger FrameKept(m, places, m', places', f)} :: f in places && places[f].Data? ==>
      FrameKept(m, places, m', places', f)
  }

  /** Nothing but page tables was added between two states: all translations, ranges and data are the same. */
  ghost predicate OnlyTables(m: Memory, places: Places, m': Memory, places': Places) {
    && m'.spaces.Keys == m.spaces.Keys && m'.info.Keys == m.info.Keys
    && m'.freshId == m.freshId
    && (forall z :: z in m.spaces ==> m'.spaces[z] == m.spaces[z].(tablePages := m'.spaces[z].tablePages))
    && SameEntries(m, m')
    && DataKept(m, places, m', places')
  }

  ghost predicate SameEntries(m: Memory, m': Memory)
    requires m'.spaces.Keys == m.spaces.Keys
  {
    forall z, q: nat {:trigger EntryOf(m', z, q)} :: z in m.spaces && q < LOWER_PAGES ==> EntryOf(m', z, q) == EntryOf(m, z, q)
  }

  lemma OnlyTablesTrans(m: Memory, p: Places, m': Memory, p': Places, m'': Memory, p'': Places)
    requires OnlyTables(m, p, m', p') && OnlyTables(m', p', m'', p'')
    ensures OnlyTables(m, p, m'', p'')
  {
    forall z, q: nat | z in m.spaces && q < LOWER_PAGES
      ensures EntryOf(m'', z, q) == EntryOf(m, z, q)
    {
      assert EntryOf(m', z, q) == EntryOf(m, z, q);
    }
    forall f | f in p && p[f].Data?
      ensures FrameKept(m, p, m'', p'', f)
    {
      assert FrameKept(m, p, m', p', f) && FrameKept(m', p', m'', p'', f);
    }
  }

  function ZeroPage(): (b: seq<byte>)
    ensures |b| == PAGE_SIZE
  {
    seq(PAGE_SIZE, _ => 0)
  }

  /** A zeroed page overlaid with what reading the file at `offset` delivers. */
  function FilePage(content: seq<byte>, offset: int): (b: seq<byte>)
    ensures |b| == PAGE_SIZE
  {
    seq(PAGE_SIZE, i => if 0 <= offset + i < |content| then content[offset + i] else 0)
  }

  /** The contents a fault on `page` of range `r` produces. */
  function FaultPage(files: map<nat, seq<byte>>, r: MappedRange, page: nat): (b: seq<byte>)
    ensures |b| == PAGE_SIZE
  {
    match r.Backing(page)
    case Some(offset) =>
      if r.file.Some? && r.file.value in files then FilePage(files[r.file.value], offset) else ZeroPage()
    case None => ZeroPage()
  }

  /** What a process reads at a page: the resident frame, or what a fault would bring in, or nothing. */
  ghost function View(m: Memory, files: map<nat, seq<byte>>, s: nat, page: nat): Option<seq<byte>>
    requires s in m.spaces
  {
    var e := EntryOf(m, s, page);
    if Present(e) then
      if e.pfn in m.phys && m.phys[e.pfn].Bytes? then Some(m.phys[e.pfn].bytes) else None
    else
      match Find(m.spaces[s].ranges, page)
      case Some(r) => Some(FaultPage(files, r, page))
      case None => None
  }

  /** The same pagemaps with the same ranges, and every process reads the same contents everywhere. */
  ghost predicate SameViews(m: Memory, m': Memory, files: map<nat, seq<byte>>) {
    && m'.spaces.Keys == m.spaces.Keys && m'.info.Keys == m.info.Keys
    && m'.freshId == m.freshId
    && (forall z {:trigger m'.spaces[z]} :: z in m.spaces ==> m'.spaces[z].ranges == m.spaces[z].ranges)
    && (forall z, q: nat {:trigger View(m', files, z, q)} :: z in m.spaces && q < LOWER_PAGES ==>
          View(m', files, z, q) == View(m, files, z, q))
  }

  /** Of all translations, at most that of (s, page) has changed. */
  ghost predicate EntriesKept(m: Memory, m': Memory, s: nat, page: nat) {
    && m'.spaces.Keys == m.spaces.Keys
    && (forall z, q: nat {:trigger EntryOf(m', z, q)} :: z in m.spaces && q < LOWER_PAGES && (z, q) != (s, page) ==>
          EntryOf(m', z, q) == EntryOf(m, z, q))
  }

  lemma OnlyTablesViews(m: Memory, p: Places, m': Memory, p': Places, files: map<nat, seq<byte>>, s: nat, page: nat)
    requires OnlyTables(m, p, m', p') && Strict(m, p)
    ensures SameViews(m, m', files) && EntriesKept(m, m', s, page)
    ensures s in m.spaces && page < LOWER_PAGES ==> EntryOf(m', s, page) == EntryOf(m, s, page)
  {
    forall z, q: nat | z in m.spaces && q < LOWER_PAGES
      ensures View(m', files, z, q) == View(m, files, z, q)
    {
      OnlyTablesView(m, p, m', p', files, z, q);
    }
  }

  lemma SameViewsTrans(m: Memory, m': Memory, m'': Memory, files: map<nat, seq<byte>>, s: nat, page: nat)
    requires SameViews(m, m', files) && SameViews(m', m'', files) && EntriesKept(m, m', s, page) && EntriesKept(m', m'', s, page)
    ensures SameViews(m, m'', files) && EntriesKept(m, m'', s, page)
  {
    forall z, q: nat | z in m.spaces && q < LOWER_PAGES
      ensures View(m'', files, z, q) == View(m, files, z, q)
      ensures (z, q) != (s, page) ==> EntryOf(m'', z, q) == EntryOf(m, z, q)
    {
      assert View(m', files, z, q) == View(m, files, z, q);
      assert (z, q) != (s, page) ==> EntryOf(m', z, q) == EntryOf(m, z, q);
    }
    forall z | z in m.spaces
      ensures m''.spaces[z].ranges == m.spaces[z].ranges
    {
      assert m'.spaces[z].ranges == m.spaces[z].ranges;
    }
  }

  lemma OnlyTablesView(m: Memory, p: Places, m': Memory, p': Places, files: map<nat, seq<byte>>, z: nat, q: nat)
    requires OnlyTables(m, p, m', p') && Strict(m, p) && z in m.spaces && q < LOWER_PAGES
    ensures View(m', files, z, q) == View(m, files, z, q)
  {
    assert EntryOf(m', z, q) == EntryOf(m, z, q);
    assert EntryOk(m, p, z, q, 0, map[]);
    var f := EntryOf(m, z, q).pfn;
    assert Present(EntryOf(m, z, q)) ==> FrameKept(m, p, m', p', f);
  }

  /** Remembering a range for the next lookup changes nothing else. */
  lemma CacheInv(m: Memory, places: Places, s: nat, cached: Option<nat>)
    requires Strict(m, places) && s in m.spaces
    requires cached.Some? ==> ById(m.spaces[s].ranges, cached.value).Some?
    ensures Strict(m.(spaces := m.spaces[s := m.spaces[s].(cached := cached)]), places)
  {
    var sp' := m.spaces[s].(cached := cached);
    var m' := m.(spaces := m.spaces[s := sp']);
    forall z | z in m'.spaces
      ensures SpaceInv(m', places, z)
    {
      assert SpaceInv(m, places, z);
    }
    forall z, q: nat | z in m'.spaces && q < LOWER_PAGES
      ensures EntryOk(m', places, z, q, 0, map[])
    {
      assert EntryOk(m, places, z, q, 0, map[]);
    }
    forall f | f in places && places[f].Data?
      ensures DataOk(m', places, f)
    {
      assert DataOk(m, places, f);
    }
    forall f | f in places
      ensures PlaceOk(m', places[f])
    {
      assert PlaceOk(m, places[f]);
    }
  }

  /** Without loose pages it does not matter which pagemap is being worked on. */
  lemma StrictAnywhere(m: Memory, places: Places, s: nat)
    ensures Inv(m, places, s, map[]) <==> Strict(m, places)
  {
    if Strict(m, places) {
      forall z, q: nat | z in m.spaces && q < LOWER_PAGES
        ensures EntryOk(m, places, z, q, s, map[])
      {
        assert EntryOk(m, places, z, q, 0, map[]);
      }
    }
    if Inv(m, places, s, map[]) {
      forall z, q: nat | z in m.spaces && q < LOWER_PAGES
        ensures EntryOk(m, places, z, q, 0, map[])
      {
        assert EntryOk(m, places, z, q, s, map[]);
      }
    }
  }
}
