/** The Pagemap destructor: every frame of the process, data and tables, goes back to the freelist. */
module Destroy {
  import opened Common
  import opened Ranges
  import opened PageTable
  import opened Memory
  import opened Vmm

  /** The frames in `freed`, none of which was free, have been put on the freelist; nothing else has changed. */
  ghost predicate Draining(m0: Memory, p0: Places, m: Memory, freed: set<nat>) {
    && m == m0.(freelist := m.freelist, info := m.info)
    && NoDup(m.freelist) && m.info.Keys == m0.info.Keys
    && (forall f {:trigger f in freed} :: f in freed ==> f in p0 && !p0[f].Free?)
    && (forall f {:trigger Drained(m0, m, freed, f)} :: Drained(m0, m, freed, f))
  }

  ghost predicate Drained(m0: Memory, m: Memory, freed: set<nat>, f: nat) {
    && (f in m.freelist <==> f in m0.freelist || f in freed)
    && (f in m0.info && f in m.info ==> m.info[f] == if f in freed then PageInfo(true, 0) else m0.info[f])
  }

  /** Frees the pages of one list, as both destructors do. */
  method FreeList(ghost m0: Memory, ghost p0: Places, m1: Memory, l: seq<nat>, ghost freed: set<nat>) returns (m: Memory)
    requires Strict(m0, p0) && Draining(m0, p0, m1, freed) && NoDup(l)
    requires forall f :: f in l ==> f in p0 && !p0[f].Free? && f !in freed
    ensures Draining(m0, p0, m, freed + set f | f in l)
  {
    m := m1;
    var i := 0;
    ghost var done := freed;
    while i < |l|
      invariant 0 <= i <= |l| && done == freed + set f | f in l[..i]
      invariant Draining(m0, p0, m, done)
    {
      var f := l[i];
      assert f in l && Drained(m0, m, done, f) && FreeIff(m0.freelist, p0, f) && FlagIff(m0.info, p0, f);
      assert forall j :: 0 <= j < i ==> l[j] != l[i];
      ghost var m2 := m;
      m := FreePage(m, f);
      done := done + {f};
      forall g
        ensures Drained(m0, m, done, g)
      {
        assert Drained(m0, m2, done - {f}, g);
      }
      i := i + 1;
    }
    assert l[..|l|] == l;
  }

  /** The frames of the first `n` ranges. */
  ghost predicate RangesFreed(p0: Places, s: nat, rs: seq<MappedRange>, n: nat, freed: set<nat>) {
    forall f {:trigger f in freed} :: f in freed <==> f in p0 && p0[f].Data? && p0[f].space == s && HasId(rs, n, p0[f].range)
  }

  ghost predicate HasId(rs: seq<MappedRange>, n: nat, id: nat) {
    exists j :: 0 <= j < n && j < |rs| && rs[j].id == id
  }

  lemma HasIdNext(rs: seq<MappedRange>, n: nat, id: nat)
    requires n < |rs|
    ensures HasId(rs, n + 1, id) <==> HasId(rs, n, id) || rs[n].id == id
  {
    if HasId(rs, n + 1, id) {
      var j :| 0 <= j < n + 1 && j < |rs| && rs[j].id == id;
      assert j < n ==> HasId(rs, n, id);
    }
    if rs[n].id == id {
      assert 0 <= n < n + 1 && n < |rs| && rs[n].id == id;
    }
  }

  lemma RangesFreedNext(m0: Memory, p0: Places, s: nat, n: nat, freed: set<nat>)
    requires Strict(m0, p0) && s in m0.spaces && n < |m0.spaces[s].ranges| && RangesFreed(p0, s, m0.spaces[s].ranges, n, freed)
    ensures m0.spaces[s].ranges[n].id in m0.spaces[s].lists
    ensures var l := m0.spaces[s].lists[m0.spaces[s].ranges[n].id];
            && NoDup(l) && (forall f :: f in l ==> f in p0 && !p0[f].Free? && f !in freed)
            && RangesFreed(p0, s, m0.spaces[s].ranges, n + 1, freed + set f | f in l)
  {
    var rs := m0.spaces[s].ranges;
    var r := rs[n];
    assert SpaceInv(m0, p0, s) && r in rs;
    ByIdUnique(rs, m0.freshId, r);
    var l := m0.spaces[s].lists[r.id];
    assert PageListOk(l, p0, s, r.id);
    assert !HasId(rs, n, r.id);
    forall f
      ensures f in freed + (set f | f in l) <==> f in p0 && p0[f].Data? && p0[f].space == s && HasId(rs, n + 1, p0[f].range)
    {
      assert f in freed <==> f in p0 && p0[f].Data? && p0[f].space == s && HasId(rs, n, p0[f].range);
      if f in p0 && p0[f].Data? {
        HasIdNext(rs, n, p0[f].range);
      }
    }
  }

  /** What is left of the places when pagemap `s` is gone. */
  ghost function Vacated(p: Places, s: nat): Places {
    map f | f in p :: if (p[f].Table? || p[f].Data?) && p[f].space == s then Free else p[f]
  }

  ghost predicate Owned(p: Places, s: nat, f: nat) {
    f in p && (p[f].Table? || p[f].Data?) && p[f].space == s
  }

  lemma AllFreed(m0: Memory, p0: Places, s: nat, freed: set<nat>)
    requires Strict(m0, p0) && s in m0.spaces && RangesFreed(p0, s, m0.spaces[s].ranges, |m0.spaces[s].ranges|, freed)
    ensures var l := m0.spaces[s].tablePages;
            && NoDup(l) && (forall f :: f in l ==> f in p0 && !p0[f].Free? && f !in freed)
            && (forall f :: f in freed + (set f | f in l) <==> Owned(p0, s, f))
  {
    var rs, l := m0.spaces[s].ranges, m0.spaces[s].tablePages;
    assert SpaceInv(m0, p0, s);
    forall f
      ensures f in freed + (set f | f in l) <==> Owned(p0, s, f)
    {
      if f in p0 && p0[f].Data? && p0[f].space == s {
        assert PlaceOk(m0, p0[f]);
        ByIdMember(rs, p0[f].range);
        var r := ById(rs, p0[f].range).value;
        var j :| 0 <= j < |rs| && rs[j] == r;
        assert HasId(rs, |rs|, p0[f].range);
      }
    }
  }

  lemma VacatedFlat(m0: Memory, p0: Places, m: Memory, s: nat, freed: set<nat>)
    requires Strict(m0, p0) && s in m0.spaces && Draining(m0, p0, m, freed)
    requires forall f :: f in freed <==> Owned(p0, s, f)
    ensures FlatInv(m.(spaces := m.spaces - {s}), Vacated(p0, s))
  {
    var m', p' := m.(spaces := m.spaces - {s}), Vacated(p0, s);
    forall f
      ensures FreeIff(m'.freelist, p', f) && FlagIff(m'.info, p', f)
    {
      assert Drained(m0, m, freed, f) && FreeIff(m0.freelist, p0, f) && FlagIff(m0.info, p0, f);
    }
    forall f | f in p'
      ensures PlaceOk(m', p'[f])
    {
      assert PlaceOk(m0, p0[f]);
    }
    forall f | f in p' && p'[f].Table?
      ensures TableOk(m'.phys, p', f)
    {
      VacatedTable(m0.phys, p0, s, f);
    }
    forall f | f in p' && p'[f].Table?
      ensures Hung(m'.phys, p', f)
    {
      VacatedHung(m0.phys, p0, s, f);
    }
  }

  lemma VacatedTable(phys: Phys, p: Places, s: nat, f: nat)
    requires Tree(phys, p) && f in p && p[f].Table? && p[f].space != s
    ensures TableOk(phys, Vacated(p, s), f)
  {
    assert TableOk(phys, p, f);
    forall j | 0 <= j < Limit(p[f].level) && p[f].level > 1
      ensures ChildOk(phys, Vacated(p, s), f, j)
    {
      assert ChildOk(phys, p, f, j);
    }
  }

  lemma VacatedHung(phys: Phys, p: Places, s: nat, f: nat)
    requires Tree(phys, p) && f in p && p[f].Table? && p[f].space != s
    ensures f in Vacated(p, s) && Vacated(p, s)[f] == p[f] && Hung(phys, Vacated(p, s), f)
  {
    assert Hung(phys, p, f);
    forall t: nat, i: nat | HangsAt(phys, p, t, i, f)
      ensures HangsAt(phys, Vacated(p, s), t, i, f)
    {
      assert TableOk(phys, p, t) && ChildOk(phys, p, t, i);
    }
    StillHung(phys, p, phys, Vacated(p, s), f);
  }

  /** The machine without pagemap `s` keeps the invariant, and every other process keeps its memory. */
  lemma VacatedInv(m0: Memory, p0: Places, m: Memory, s: nat, freed: set<nat>)
    requires Strict(m0, p0) && s in m0.spaces && Draining(m0, p0, m, freed)
    requires forall f :: f in freed <==> Owned(p0, s, f)
    ensures Strict(m.(spaces := m.spaces - {s}), Vacated(p0, s))
  {
    var m', p' := m.(spaces := m.spaces - {s}), Vacated(p0, s);
    VacatedFlat(m0, p0, m, s, freed);
    forall z | z in m'.spaces
      ensures SpaceInv(m', p', z)
    {
      assert SpaceInv(m0, p0, z);
      VacatedLists(m0.spaces[z], p0, s, z);
    }
    forall z, q: nat | z in m'.spaces && q < LOWER_PAGES
      ensures EntryOk(m', p', z, q, 0, map[])
    {
      assert EntryOk(m0, p0, z, q, 0, map[]);
      assert EntryOf(m', z, q) == EntryOf(m0, z, q);
      if Present(EntryOf(m0, z, q)) {
        assert Drained(m0, m, freed, EntryOf(m0, z, q).pfn);
      }
    }
    forall f | f in p' && p'[f].Data?
      ensures DataOk(m', p', f)
    {
      assert DataOk(m0, p0, f) && Drained(m0, m, freed, f);
      assert PlaceOk(m0, p0[f]);
      assert EntryOf(m', p0[f].space, m0.info[f].mappedAddr) == EntryOf(m0, p0[f].space, m0.info[f].mappedAddr);
    }
  }

  lemma VacatedLists(sp: Space, p: Places, s: nat, z: nat)
    requires z != s && TableListOk(sp, p, z) && ListsOk(sp.lists, p, z) && IsRoot(p, sp.root, z)
    ensures TableListOk(sp, Vacated(p, s), z) && ListsOk(sp.lists, Vacated(p, s), z) && IsRoot(Vacated(p, s), sp.root, z)
  {
    forall r | r in sp.lists
      ensures PageListOk(sp.lists[r], Vacated(p, s), z, r)
    {
      assert PageListOk(sp.lists[r], p, z, r);
    }
  }

  /** ~Pagemap, with the destructors of its ranges. */
  method DestroyPagemap(m0: Memory, ghost p0: Places, s: nat) returns (m: Memory, ghost p: Places)
    requires Strict(m0, p0) && s in m0.spaces
    ensures Strict(m, p) && m.spaces == m0.spaces - {s} && m.freshId == m0.freshId && m.info.Keys == m0.info.Keys
    ensures forall f :: f in m.freelist <==> f in m0.freelist || Owned(p0, s, f)
    ensures forall files, z, q: nat :: z in m.spaces && q < LOWER_PAGES ==> View(m, files, z, q) == View(m0, files, z, q)
  {
    m := m0;
    var n, rs := 0, m0.spaces[s].ranges;
    ghost var freed := {};
    while n < |rs|
      invariant 0 <= n <= |rs| && Draining(m0, p0, m, freed) && RangesFreed(p0, s, rs, n, freed)
    {
      RangesFreedNext(m0, p0, s, n, freed);
      var l := m.spaces[s].lists[rs[n].id];
      m := FreeList(m0, p0, m, l, freed);
      freed := freed + set f | f in l;
      n := n + 1;
    }
    AllFreed(m0, p0, s, freed);
    var l := m.spaces[s].tablePages;
    m := FreeList(m0, p0, m, l, freed);
    freed := freed + set f | f in l;
    VacatedInv(m0, p0, m, s, freed);
    ghost var m1 := m;
    m := m.(spaces := m.spaces - {s});
    p := Vacated(p0, s);
    forall f
      ensures f in m.freelist <==> f in m0.freelist || Owned(p0, s, f)
    {
      assert Drained(m0, m1, freed, f);
    }
    forall files, z, q: nat | z in m.spaces && q < LOWER_PAGES
      ensures View(m, files, z, q) == View(m0, files, z, q)
    {
      assert EntryOf(m, z, q) == EntryOf(m0, z, q);
    }
  }
}
