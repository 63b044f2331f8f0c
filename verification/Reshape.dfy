/** The edits add_range makes to the ranges of a pagemap, seen from the frame invariant. */
module Reshape {
  import opened Common
  import opened Ranges
  import opened PageTable
  import opened Memory

  ghost function Pages(lo: nat, hi: nat): (r: set<nat>)
    ensures forall q :: q in r <==> lo <= q < hi
    decreases hi - lo
  {
    if lo >= hi then {} else {lo} + Pages(lo + 1, hi)
  }

  /** The pages lo to hi, still listed in range `id`. */
  ghost function Listed(lo: nat, hi: nat, id: nat): map<nat, nat> {
    map q | q in Pages(lo, hi) :: id
  }

  ghost function Cut(loose: map<nat, nat>, lo: nat, hi: nat, id: nat): map<nat, nat> {
    loose + Listed(lo, hi, id)
  }

  lemma ExchangedIds(rs: seq<MappedRange>, rs': seq<MappedRange>, freshId: nat, r: MappedRange, r': MappedRange, k: nat)
    requires UniqueIds(rs, freshId) && UniqueIds(rs', freshId) && Exchanged(rs, rs', r, {r'}) && r'.id == r.id
    ensures ById(rs', k) == if k == r.id then Some(r') else ById(rs, k)
  {
    ByIdMember(rs, k);
    ByIdMember(rs', k);
    ByIdUnique(rs', freshId, r');
    if k != r.id {
      if ById(rs, k).Some? {
        ByIdUnique(rs', freshId, ById(rs, k).value);
      }
    }
  }

  /** Range `i` becomes `r'`, giving up the pages lo to hi, or leaving their flags stale. */
  ghost predicate Replaceable(m: Memory, p: Places, s: nat, i: nat, r': MappedRange, loose: map<nat, nat>, lo: nat, hi: nat) {
    && Inv(m, p, s, loose) && s in m.spaces && i < |m.spaces[s].ranges|
    && ListOk(m.spaces[s].ranges, m.freshId) && ListOk(m.spaces[s].ranges[i := r'], m.freshId) && RangeOk(r')
    && r'.id == m.spaces[s].ranges[i].id
    && (forall q: nat :: m.spaces[s].ranges[i].Covers(q) && !(lo <= q < hi) ==> r'.Covers(q) && r'.flags == m.spaces[s].ranges[i].flags)
    && (lo < hi ==> m.spaces[s].ranges[i].base <= lo && hi <= m.spaces[s].ranges[i].End())
    && (forall q: nat :: q in loose ==> !m.spaces[s].ranges[i].Covers(q))
  }

  ghost function Replaced(sp: Space, i: nat, r': MappedRange): Space
    requires i < |sp.ranges|
  {
    sp.(ranges := sp.ranges[i := r'], cached := None)
  }

  lemma ReplacedOk(m: Memory, p: Places, s: nat, i: nat, r': MappedRange, loose: map<nat, nat>, lo: nat, hi: nat)
    requires Replaceable(m, p, s, i, r', loose, lo, hi)
    ensures SpaceOk(Replaced(m.spaces[s], i, r'), m.freshId)
  {
    var sp, rs, r := m.spaces[s], m.spaces[s].ranges, m.spaces[s].ranges[i];
    assert SpaceInv(m, p, s);
    ReplaceMembers(rs, i, r');
    ByIdUnique(rs, m.freshId, r);
    forall k
      ensures k in sp.lists <==> ById(rs[i := r'], k).Some?
    {
      ExchangedIds(rs, rs[i := r'], m.freshId, r, r', k);
    }
  }

  lemma ReplacedCover(m: Memory, p: Places, s: nat, i: nat, r': MappedRange, loose: map<nat, nat>, lo: nat, hi: nat,
                      x: MappedRange, q: nat)
    requires Replaceable(m, p, s, i, r', loose, lo, hi) && x in m.spaces[s].ranges && x.Covers(q) && q !in loose
    ensures var loose', rs' := Cut(loose, lo, hi, r'.id), m.spaces[s].ranges[i := r'];
            if q in loose' then loose'[q] == x.id
            else ById(rs', x.id).Some? && ById(rs', x.id).value.Covers(q) && ById(rs', x.id).value.flags == x.flags
  {
    var rs, r := m.spaces[s].ranges, m.spaces[s].ranges[i];
    assert r in rs;
    ReplaceMembers(rs, i, r');
    ExchangedIds(rs, rs[i := r'], m.freshId, r, r', x.id);
    ByIdUnique(rs, m.freshId, x);
    ByIdUnique(rs, m.freshId, r);
    if r.Covers(q) {
      FindUnique(rs, q, r);
      FindUnique(rs, q, x);
    }
  }

  lemma ReplaceInv(m: Memory, p: Places, s: nat, i: nat, r': MappedRange, loose: map<nat, nat>, lo: nat, hi: nat)
    requires Replaceable(m, p, s, i, r', loose, lo, hi)
    ensures Inv(WithSpace(m, s, Replaced(m.spaces[s], i, r'), m.freshId), p, s, Cut(loose, lo, hi, r'.id))
  {
    var sp', loose' := Replaced(m.spaces[s], i, r'), Cut(loose, lo, hi, r'.id);
    ReplacedOk(m, p, s, i, r', loose, lo, hi);
    assert KeepsCover(m.spaces[s].ranges, sp'.ranges, loose, loose') by {
      forall x, q: nat | x in m.spaces[s].ranges && x.Covers(q) && q !in loose
        ensures if q in loose' then loose'[q] == x.id
                else ById(sp'.ranges, x.id).Some? && ById(sp'.ranges, x.id).value.Covers(q)
                     && ById(sp'.ranges, x.id).value.flags == x.flags
      {
        ReplacedCover(m, p, s, i, r', loose, lo, hi, x, q);
      }
    }
    assert forall q :: q in loose ==> q in loose' && loose'[q] == loose[q];
    ReshapeInv(m, p, s, sp', m.freshId, loose, loose');
  }

  lemma InsertedIds(rs: seq<MappedRange>, freshId: nat, r: MappedRange, k: nat)
    requires UniqueIds(rs, freshId) && UniqueIds(Insert(rs, r), freshId + 1) && r.id == freshId
    ensures ById(Insert(rs, r), k) == if k == freshId then Some(r) else ById(rs, k)
  {
    InsertMembers(rs, r);
    ByIdMember(rs, k);
    ByIdMember(Insert(rs, r), k);
    ByIdUnique(Insert(rs, r), freshId + 1, r);
    if k != freshId && ById(rs, k).Some? {
      ByIdUnique(Insert(rs, r), freshId + 1, ById(rs, k).value);
    }
  }

  /** A new range, with an empty page list, joins the list. */
  lemma InsertInv(m: Memory, p: Places, s: nat, r: MappedRange, loose: map<nat, nat>)
    requires Inv(m, p, s, loose) && s in m.spaces && r.id == m.freshId && RangeOk(r) && r.WellFormed()
    requires forall q :: q in m.spaces[s].ranges ==> Apart(q, r)
    ensures var sp' := m.spaces[s].(ranges := Insert(m.spaces[s].ranges, r), lists := m.spaces[s].lists[r.id := []]);
            Inv(WithSpace(m, s, sp', m.freshId + 1), p, s, loose)
    ensures r.id !in m.spaces[s].lists
  {
    var sp := m.spaces[s];
    var rs := sp.ranges;
    var rs' := Insert(rs, r);
    var sp' := sp.(ranges := rs', lists := sp.lists[r.id := []]);
    assert SpaceInv(m, p, s);
    InsertOk(rs, r, m.freshId);
    InsertMembers(rs, r);
    forall k
      ensures ById(rs', k) == if k == r.id then Some(r) else ById(rs, k)
    {
      InsertedIds(rs, m.freshId, r, k);
    }
    ByIdMember(rs, r.id);
    assert SpaceOk(sp', m.freshId + 1);
    assert KeepsCover(rs, rs', loose, loose) by {
      forall x, q: nat | x in rs && x.Covers(q) && q !in loose
        ensures ById(rs', x.id).Some? && ById(rs', x.id).value.Covers(q) && ById(rs', x.id).value.flags == x.flags
      {
        ByIdUnique(rs, m.freshId, x);
      }
    }
    ReshapeInv(m, p, s, sp', m.freshId + 1, loose, loose);
  }

  // ---------------------------------------------------------------- deleting a range

  /** A range none of whose pages is resident has an empty page list, so its destructor frees nothing. */
  lemma EmptyList(m: Memory, p: Places, s: nat, r: MappedRange, loose: map<nat, nat>)
    requires Inv(m, p, s, loose) && s in m.spaces && r in m.spaces[s].ranges
    requires forall q: nat :: r.Covers(q) && q < LOWER_PAGES ==> !Present(EntryOf(m, s, q))
    requires forall q :: q in loose ==> loose[q] != r.id
    ensures r.id in m.spaces[s].lists && m.spaces[s].lists[r.id] == []
  {
    var sp := m.spaces[s];
    assert SpaceInv(m, p, s);
    ByIdUnique(sp.ranges, m.freshId, r);
    assert PageListOk(sp.lists[r.id], p, s, r.id);
    var l := sp.lists[r.id];
    assert l != [] ==> l[0] in l;
    forall f | f in p
      ensures p[f] != Data(s, r.id)
    {
      if p[f].Data? && p[f].space == s {
        assert DataOk(m, p, f);
        assert EntryOk(m, p, s, m.info[f].mappedAddr, s, loose);
      }
    }
  }

  ghost function Dropped(sp: Space, i: nat): Space
    requires i < |sp.ranges|
  {
    sp.(ranges := sp.ranges[..i] + sp.ranges[i+1..], lists := sp.lists - {sp.ranges[i].id}, cached := None)
  }

  lemma DroppedIds(rs: seq<MappedRange>, freshId: nat, i: nat, k: nat)
    requires ListOk(rs, freshId) && i < |rs|
    ensures ById(rs[..i] + rs[i+1..], k) == if k == rs[i].id then None else ById(rs, k)
  {
    var rs' := rs[..i] + rs[i+1..];
    RemoveOk(rs, i, freshId);
    RemoveMembers(rs, i);
    ByIdMember(rs, k);
    ByIdMember(rs', k);
    assert rs[i] in rs;
    ByIdUnique(rs, freshId, rs[i]);
    if ById(rs', k).Some? {
      ByIdUnique(rs, freshId, ById(rs', k).value);
    }
    if k != rs[i].id && ById(rs, k).Some? {
      ByIdUnique(rs', freshId, ById(rs, k).value);
    }
  }

  ghost predicate Droppable(m: Memory, p: Places, s: nat, i: nat, loose: map<nat, nat>) {
    && Inv(m, p, s, loose) && s in m.spaces && i < |m.spaces[s].ranges|
    && m.spaces[s].ranges[i].id in m.spaces[s].lists && m.spaces[s].lists[m.spaces[s].ranges[i].id] == []
  }

  lemma DroppedSpace(m: Memory, p: Places, s: nat, i: nat, loose: map<nat, nat>)
    requires Droppable(m, p, s, i, loose)
    ensures SpaceInv(WithSpace(m, s, Dropped(m.spaces[s], i), m.freshId), p, s)
  {
    var sp, sp' := m.spaces[s], Dropped(m.spaces[s], i);
    assert SpaceInv(m, p, s);
    RemoveOk(sp.ranges, i, m.freshId);
    RemoveMembers(sp.ranges, i);
    forall k
      ensures k in sp'.lists <==> ById(sp'.ranges, k).Some?
    {
      DroppedIds(sp.ranges, m.freshId, i, k);
    }
    forall k | k in sp'.lists
      ensures PageListOk(sp'.lists[k], p, s, k)
    {
      assert PageListOk(sp.lists[k], p, s, k);
    }
  }

  lemma DropEntry(m: Memory, p: Places, s: nat, i: nat, loose: map<nat, nat>, z: nat, q: nat)
    requires Droppable(m, p, s, i, loose) && z in m.spaces && q < LOWER_PAGES
    ensures EntryOk(WithSpace(m, s, Dropped(m.spaces[s], i), m.freshId), p, z, q, s, loose)
  {
    var sp, id := m.spaces[s], m.spaces[s].ranges[i].id;
    var m' := WithSpace(m, s, Dropped(sp, i), m.freshId);
    assert SpaceInv(m, p, s);
    assert PageListOk(sp.lists[id], p, s, id);
    assert EntryOk(m, p, z, q, s, loose);
    assert EntryOf(m', z, q) == EntryOf(m, z, q);
    if z == s && Present(EntryOf(m, z, q)) {
      DroppedIds(sp.ranges, m.freshId, i, p[EntryOf(m, z, q).pfn].range);
    }
  }

  lemma DropInv(m: Memory, p: Places, s: nat, i: nat, loose: map<nat, nat>)
    requires Droppable(m, p, s, i, loose)
    ensures Inv(WithSpace(m, s, Dropped(m.spaces[s], i), m.freshId), p, s, loose)
  {
    var m' := WithSpace(m, s, Dropped(m.spaces[s], i), m.freshId);
    DroppedSpace(m, p, s, i, loose);
    forall z | z in m'.spaces && z != s
      ensures SpaceInv(m', p, z)
    {
      assert SpaceInv(m, p, z);
    }
    forall z, q: nat | z in m'.spaces && q < LOWER_PAGES
      ensures EntryOk(m', p, z, q, s, loose)
    {
      DropEntry(m, p, s, i, loose, z, q);
    }
    forall f | f in p && p[f].Data?
      ensures DataOk(m', p, f)
    {
      assert DataOk(m, p, f);
    }
    forall f | f in p
      ensures PlaceOk(m', p[f])
    {
      DropPlace(m, p, s, i, loose, f);
    }
  }

  lemma DropPlace(m: Memory, p: Places, s: nat, i: nat, loose: map<nat, nat>, f: nat)
    requires Droppable(m, p, s, i, loose) && f in p
    ensures PlaceOk(WithSpace(m, s, Dropped(m.spaces[s], i), m.freshId), p[f])
  {
    var sp, id := m.spaces[s], m.spaces[s].ranges[i].id;
    assert SpaceInv(m, p, s) && PlaceOk(m, p[f]);
    assert PageListOk(sp.lists[id], p, s, id);
    assert f in sp.lists[id] <==> p[f] == Data(s, id);
  }
}
