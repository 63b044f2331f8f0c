/** Pagemap::fork, first half: a new pagemap with its own copy of the parent's page tables, all leaves empty. */
module ForkTables {
  import opened Common
  import opened PageTable
  import opened Memory
  import opened Invalidate
  import opened Allocate
  import opened Vmm

  /** The root of a new pagemap shares the kernel half and has an empty lower half. */
  function ChildRoot(words: seq<PTE>): seq<PTE>
    requires |words| == ENTRIES
  {
    seq(ENTRIES, i requires 0 <= i < ENTRIES => if i < LOWER_ENTRIES then EMPTY else words[i])
  }

  function Born(m: Memory, words: seq<PTE>, c: nat): Memory
    requires m.freelist != [] && |words| == ENTRIES && m.freelist[0] in m.info
  {
    var f := m.freelist[0];
    m.(freelist := m.freelist[1..],
       info := m.info[f := m.info[f].(free := false)],
       phys := m.phys[f := Words(ChildRoot(words))],
       spaces := m.spaces[c := Space(f, [f], [], map[], None)])
  }

  ghost predicate Bearable(m: Memory, p: Places, words: seq<PTE>, c: nat) {
    Strict(m, p) && m.freelist != [] && c !in m.spaces && |words| == ENTRIES && m.freelist[0] in m.info
  }

  lemma BornTree(m: Memory, p: Places, words: seq<PTE>, c: nat)
    requires Bearable(m, p, words, c)
    ensures Tree(Born(m, words, c).phys, p[m.freelist[0] := Table(c, 4, 0)])
  {
    var f := m.freelist[0];
    var phys', p' := Born(m, words, c).phys, p[f := Table(c, 4, 0)];
    HeadIsFree(m, p, 0, map[]);
    forall t | t in p' && p'[t].Table?
      ensures TableOk(phys', p', t)
    {
      if t == f {
        assert forall i :: 0 <= i < LOWER_ENTRIES ==> phys'[f].words[i] == EMPTY;
      } else {
        assert TableOk(m.phys, p, t);
        forall j | 0 <= j < Limit(p[t].level)
          ensures WordOk(phys', t, j)
        {
          assert WordOk(m.phys, t, j);
        }
        forall j | 0 <= j < Limit(p[t].level) && p[t].level > 1
          ensures ChildOk(phys', p', t, j)
        {
          assert ChildOk(m.phys, p, t, j);
        }
      }
    }
    forall t | t in p' && p'[t].Table?
      ensures Hung(phys', p', t)
    {
      if t == f {
        forall g | g in p
          ensures p[g].Table? ==> p[g].space != c
        {
          assert PlaceOk(m, p[g]);
        }
      } else {
        assert Hung(m.phys, p, t) && PlaceOk(m, p[t]);
        StillHung(m.phys, p, phys', p', t);
      }
    }
  }

  lemma BornEntry(m: Memory, p: Places, words: seq<PTE>, c: nat, z: nat, q: nat)
    requires Bearable(m, p, words, c) && z in Born(m, words, c).spaces && q < LOWER_PAGES
    ensures EntryOf(Born(m, words, c), z, q) == if z == c then EMPTY else EntryOf(m, z, q)
  {
    var f, m' := m.freelist[0], Born(m, words, c);
    HeadIsFree(m, p, 0, map[]);
    if z == c {
      LowerIndex(q, 4);
      assert IsTable(m'.phys, f) && m'.phys[f].words[Index(q, 4)] == EMPTY;
    } else {
      assert SpaceInv(m, p, z);
      DataWrite(m.phys, p, f, m'.phys[f], m.spaces[z].root, z, q);
    }
  }

  lemma BornSpace(m: Memory, p: Places, words: seq<PTE>, c: nat, z: nat)
    requires Bearable(m, p, words, c) && z in Born(m, words, c).spaces
    ensures SpaceInv(Born(m, words, c), p[m.freelist[0] := Table(c, 4, 0)], z)
  {
    var f := m.freelist[0];
    HeadIsFree(m, p, 0, map[]);
    if z == c {
      forall g | g in p
        ensures p[g].Table? ==> p[g].space != c
      {
        assert PlaceOk(m, p[g]);
      }
    } else {
      assert SpaceInv(m, p, z);
      TablesElsewhere(m.spaces[z], p, z, f, Table(c, 4, 0));
      ListsElsewhere(m.spaces[z], p, z, f, Table(c, 4, 0));
    }
  }

  lemma BornFlat(m: Memory, p: Places, words: seq<PTE>, c: nat)
    requires Bearable(m, p, words, c)
    ensures FlatInv(Born(m, words, c), p[m.freelist[0] := Table(c, 4, 0)])
  {
    var f := m.freelist[0];
    var m', p' := Born(m, words, c), p[f := Table(c, 4, 0)];
    HeadIsFree(m, p, 0, map[]);
    BornTree(m, p, words, c);
    TailFreelist(m, m', p, Table(c, 4, 0));
    FlagsElsewhere(m, m', p, f, Table(c, 4, 0));
    forall g | g in p'
      ensures PlaceOk(m', p'[g])
    {
      assert PlaceOk(m, p[g]);
    }
  }

  /** A new pagemap joins the machine without disturbing the others. */
  lemma BornInv(m: Memory, p: Places, words: seq<PTE>, c: nat)
    requires Bearable(m, p, words, c)
    ensures Strict(Born(m, words, c), p[m.freelist[0] := Table(c, 4, 0)])
  {
    var m', p' := Born(m, words, c), p[m.freelist[0] := Table(c, 4, 0)];
    HeadIsFree(m, p, 0, map[]);
    BornFlat(m, p, words, c);
    forall z | z in m'.spaces
      ensures SpaceInv(m', p', z)
    {
      BornSpace(m, p, words, c, z);
    }
    forall z, q: nat | z in m'.spaces && q < LOWER_PAGES
      ensures EntryOk(m', p', z, q, 0, map[])
    {
      BornEntry(m, p, words, c, z, q);
      if z != c {
        assert EntryOk(m, p, z, q, 0, map[]);
      }
    }
    forall g | g in p' && p'[g].Data?
      ensures DataOk(m', p', g)
    {
      assert DataOk(m, p, g);
      BornEntry(m, p, words, c, p[g].space, m.info[g].mappedAddr);
    }
  }

  /** What every pagemap that existed before keeps while pagemap `c` is being built. */
  ghost predicate Untouched(m0: Memory, m: Memory, c: nat) {
    && c !in m0.spaces && m.spaces.Keys == m0.spaces.Keys + {c} && m.info.Keys == m0.info.Keys
    && (forall z {:trigger m.spaces[z]} :: z in m0.spaces ==> m.spaces[z] == m0.spaces[z])
    && (forall z, q: nat {:trigger SamePage(m0, m, z, q)} :: z in m0.spaces && q < LOWER_PAGES ==> SamePage(m0, m, z, q))
  }

  /** The same word, and the same bytes behind it. */
  ghost predicate SamePage(m0: Memory, m: Memory, z: nat, q: nat) {
    && z in m0.spaces && z in m.spaces
    && EntryOf(m, z, q) == EntryOf(m0, z, q)
    && (Present(EntryOf(m0, z, q)) ==>
          var f := EntryOf(m0, z, q).pfn;
          f in m0.phys && f in m.phys && m.phys[f] == m0.phys[f])
  }

  lemma BornUntouched(m: Memory, p: Places, words: seq<PTE>, c: nat)
    requires Bearable(m, p, words, c)
    ensures Untouched(m, Born(m, words, c), c)
  {
    HeadIsFree(m, p, 0, map[]);
    forall z, q: nat | z in m.spaces && q < LOWER_PAGES
      ensures SamePage(m, Born(m, words, c), z, q)
    {
      BornEntry(m, p, words, c, z, q);
      if Present(EntryOf(m, z, q)) {
        ResidentFacts(m, p, z, q, 0, map[]);
      }
    }
  }

  /** new Pagemap(), with the kernel half of the root table `words`. */
  method NewPagemap(m0: Memory, ghost p0: Places, words: seq<PTE>, c: nat) returns (m: Memory, ghost p: Places)
    requires Strict(m0, p0) && m0.freelist != [] && |words| == ENTRIES && c !in m0.spaces
    ensures Strict(m, p) && Untouched(m0, m, c)
    ensures m.spaces[c].ranges == [] && m.spaces[c].lists == map[]
    ensures forall q: nat :: q < LOWER_PAGES ==> EntryOf(m, c, q) == EMPTY
    ensures m.freshId == m0.freshId
    ensures IsTable(m.phys, m.spaces[c].root) && forall i :: 0 <= i < LOWER_ENTRIES ==> m.phys[m.spaces[c].root].words[i] == EMPTY
    ensures m.spaces[c].root in p && p[m.spaces[c].root] == Table(c, 4, 0)
    ensures forall i :: LOWER_ENTRIES <= i < ENTRIES ==> m.phys[m.spaces[c].root].words[i] == words[i]
    ensures |m.freelist| + 1 == |m0.freelist| && m.spaces[c].root == m0.freelist[0] && m.phys == m0.phys[m0.freelist[0] := m.phys[m0.freelist[0]]]
  {
    HeadIsFree(m0, p0, 0, map[]);
    BornInv(m0, p0, words, c);
    BornUntouched(m0, p0, words, c);
    forall q: nat | q < LOWER_PAGES
      ensures EntryOf(Born(m0, words, c), c, q) == EMPTY
    {
      BornEntry(m0, p0, words, c, c, q);
    }
    var f;
    f, m := AllocPage(m0);
    m := m.(phys := m.phys[f := Words(ChildRoot(words))]);
    m := m.(spaces := m.spaces[c := Space(f, [f], [], map[], None)]);
    p := p0[f := Table(c, 4, 0)];
  }

  // ---------------------------------------------------------------- copying the tables

  ghost predicate TableKept(m0: Memory, p0: Places, m: Memory, p: Places, dst: nat, f: nat)
    requires f in p0
  {
    && f in p && p[f] == p0[f]
    && (f != dst ==> f in m0.phys && f in m.phys && m.phys[f] == m0.phys[f])
  }

  /** The tables that existed before, other than `dst`, are as they were. */
  ghost predicate TablesKept(m0: Memory, p0: Places, m: Memory, p: Places, dst: nat) {
    forall f {:trigger TableKept(m0, p0, m, p, dst, f)} :: f in p0 && p0[f].Table? ==> TableKept(m0, p0, m, p, dst, f)
  }

  /** Words `from` to the limit of table `t` are zero. */
  ghost predicate Blank(phys: Phys, t: nat, from: nat, level: nat) {
    IsTable(phys, t) && forall j :: from <= j < Limit(level) ==> phys[t].words[j] == EMPTY
  }

  /** The first `n` words of `dst` are present exactly where those of `src` are, with the same flags; leaves stay empty. */
  ghost predicate Mirrors(phys: Phys, src: nat, dst: nat, level: nat, n: nat) {
    && IsTable(phys, src) && IsTable(phys, dst) && n <= ENTRIES
    && forall j :: 0 <= j < n ==>
         if level > 1 && Present(phys[src].words[j])
         then Present(phys[dst].words[j]) && phys[dst].words[j].flags == phys[src].words[j].flags
         else phys[dst].words[j] == EMPTY
  }

  ghost predicate Copyable(m: Memory, p: Places, s: nat, c: nat, src: nat, dst: nat, level: nat) {
    && Strict(m, p) && c in m.spaces && s != c && 1 <= level <= 4
    && src in p && p[src].Table? && p[src].space == s && p[src].level == level
    && dst in p && p[dst].Table? && p[dst].space == c && p[dst].level == level
  }

  lemma CopyFacts(m: Memory, p: Places, s: nat, c: nat, src: nat, dst: nat, level: nat, i: nat)
    requires Copyable(m, p, s, c, src, dst, level) && i < Limit(level)
    ensures IsTable(m.phys, src) && IsTable(m.phys, dst) && i < ENTRIES
    ensures var e := m.phys[src].words[i];
            && (!Present(e) ==> e == EMPTY)
            && (level > 1 && Present(e) ==> e.flags % 8 == 7 && e.pfn in p && p[e.pfn].Table? && p[e.pfn].space == s && p[e.pfn].level == level - 1)
  {
    assert TableOk(m.phys, p, src) && TableOk(m.phys, p, dst);
    assert WordOk(m.phys, src, i);
    if level > 1 {
      assert ChildOk(m.phys, p, src, i);
    }
  }

  lemma KeptTrans(m0: Memory, p0: Places, m1: Memory, p1: Places, m2: Memory, p2: Places, dst: nat, g: nat)
    requires TablesKept(m0, p0, m1, p1, dst) && TablesKept(m1, p1, m2, p2, g)
    requires g in p0 ==> !p0[g].Table? || g == dst
    ensures TablesKept(m0, p0, m2, p2, dst)
  {
    forall f | f in p0 && p0[f].Table?
      ensures TableKept(m0, p0, m2, p2, dst, f)
    {
      assert TableKept(m0, p0, m1, p1, dst, f);
      assert TableKept(m1, p1, m2, p2, g, f);
    }
  }

  /** Word `i` of `dst` leads to the new table `g`, under the flags of the parent's word. */
  ghost predicate Worded(m0: Memory, p0: Places, m: Memory, p: Places, s: nat, c: nat, src: nat, dst: nat, level: nat, i: nat, e: PTE, g: nat) {
    && 1 < level <= 4 && i < Limit(level)
    && Copyable(m, p, s, c, e.pfn, g, level - 1) && Copyable(m, p, s, c, src, dst, level)
    && OnlyTables(m0, p0, m, p) && OthersKept(m0, m, c) && TablesKept(m0, p0, m, p, dst) && g in p0 && !p0[g].Table? && g != dst && g != src
    && Blank(m.phys, g, 0, level - 1) && Blank(m.phys, dst, i + 1, level) && Mirrors(m.phys, src, dst, level, i + 1)
    && |m.freelist| + 1 == |m0.freelist|
    && IsTable(m0.phys, dst) && i < ENTRIES && m.phys[dst].words == m0.phys[dst].words[i := PTE(g, e.flags)]
  }

  /** A new table for word `i` of `dst`, with the flags of the parent's word. */
  method CopyWord(m0: Memory, ghost p0: Places, s: nat, c: nat, src: nat, dst: nat, level: nat, i: nat, e: PTE)
    returns (g: nat, m: Memory, ghost p: Places)
    requires Copyable(m0, p0, s, c, src, dst, level) && level > 1 && i < Limit(level)
    requires m0.freelist != [] && Blank(m0.phys, dst, i, level) && Mirrors(m0.phys, src, dst, level, i)
    requires e == m0.phys[src].words[i] && Present(e)
    ensures Worded(m0, p0, m, p, s, c, src, dst, level, i, e, g)
  {
    CopyFacts(m0, p0, s, c, src, dst, level, i);
    StrictAnywhere(m0, p0, c);
    HeadIsFree(m0, p0, c, map[]);
    g, m, p := CreateTable(m0, p0, c, dst, i, e.flags, map[]);
    StrictAnywhere(m, p, c);
    forall f | f in p0 && p0[f].Table?
      ensures TableKept(m0, p0, m, p, dst, f)
    {
      assert TableOk(m0.phys, p0, f);
    }
  }

  /** Below the first `n` words, wherever the parent has a table the child has one too. */
  ghost predicate Deep(phys: Phys, src: nat, dst: nat, level: nat, n: nat)
    requires 1 <= level <= 4
    decreases level
  {
    && IsTable(phys, src) && IsTable(phys, dst)
    && (level > 1 ==> forall j: nat {:trigger phys[src].words[j]} :: j < n && j < Limit(level) && Present(phys[src].words[j]) ==>
          Present(phys[dst].words[j]) && Deep(phys, phys[src].words[j].pfn, phys[dst].words[j].pfn, level - 1, Limit(level - 1)))
  }

  /** So it remains while table `x`, which is not below those words, is being filled. */
  lemma {:induction false} DeepKept(m: Memory, p: Places, m': Memory, p': Places, x: nat, s: nat, c: nat, src: nat, dst: nat, level: nat, n: nat)
    requires Copyable(m, p, s, c, src, dst, level) && Deep(m.phys, src, dst, level, n) && TablesKept(m, p, m', p', x)
    requires x in p && p[x].Table? ==> p[x].space == c && p[x].level >= level - 1
    requires IsTable(m'.phys, dst) && forall j: nat :: j < n && j < Limit(level) ==> m'.phys[dst].words[j] == m.phys[dst].words[j]
    requires level > 1 ==> forall j: nat :: j < n && j < Limit(level) && Present(m.phys[dst].words[j]) ==> m.phys[dst].words[j].pfn != x
    ensures Deep(m'.phys, src, dst, level, n)
    decreases level
  {
    assert TableKept(m, p, m', p', x, src) && TableOk(m.phys, p, src) && TableOk(m.phys, p, dst);
    if level > 1 {
      forall j: nat | j < n && j < Limit(level) && Present(m.phys[src].words[j])
        ensures Deep(m'.phys, m.phys[src].words[j].pfn, m.phys[dst].words[j].pfn, level - 1, Limit(level - 1))
      {
        var a, b := m.phys[src].words[j].pfn, m.phys[dst].words[j].pfn;
        assert WordOk(m.phys, src, j);
        assert ChildOk(m.phys, p, src, j) && ChildOk(m.phys, p, dst, j);
        assert TableOk(m.phys, p, b) && TableKept(m, p, m', p', x, b);
        DeepKeptBelow(m, p, x, b, level - 1);
        DeepKept(m, p, m', p', x, s, c, a, b, level - 1, Limit(level - 1));
      }
    }
  }

  /** A table two levels down cannot be `x`. */
  lemma DeepKeptBelow(m: Memory, p: Places, x: nat, b: nat, level: nat)
    requires Tree(m.phys, p) && b in p && p[b].Table? && p[b].level == level && (x in p && p[x].Table? ==> p[x].level >= level)
    ensures IsTable(m.phys, b)
    ensures level > 1 ==> forall j: nat :: j < Limit(level) && Present(m.phys[b].words[j]) ==> m.phys[b].words[j].pfn != x
  {
    assert TableOk(m.phys, p, b);
    if level > 1 {
      forall j: nat | j < Limit(level) && Present(m.phys[b].words[j])
        ensures m.phys[b].words[j].pfn != x
      {
        assert ChildOk(m.phys, p, b, j);
      }
    }
  }

  lemma SubtablesKept(m: Memory, p: Places, m': Memory, p': Places, dst: nat, t: nat, level: nat, i: nat)
    requires Tree(m.phys, p) && t in p && p[t].Table? && p[t].level == level && 1 <= level <= 4
    requires TablesKept(m, p, m', p', dst) && (dst in p && p[dst].Table? ==> p[dst].space != p[t].space)
    ensures Subtables(m'.phys, t, level, i) == Subtables(m.phys, t, level, i)
  {
    forall f | f in p && p[f].Table? && p[f].space == p[t].space
      ensures f in m.phys && f in m'.phys && m'.phys[f] == m.phys[f]
    {
      assert TableKept(m, p, m', p', dst, f);
    }
    SubtablesFrame(m.phys, m'.phys, p, t, p[t].space, level, i);
  }

  /** The first `i` words have been copied, with the tables below them; `m0` had exactly the frames that took. */
  ghost predicate CopyingTo(m0: Memory, p0: Places, m: Memory, p: Places, s: nat, c: nat, src: nat, dst: nat, level: nat, i: nat) {
    CopyClauses(m0, p0, m, p, s, c, src, dst, level, i) == true
  }

  ghost predicate CopyClauses(m0: Memory, p0: Places, m: Memory, p: Places, s: nat, c: nat, src: nat, dst: nat, level: nat, i: nat) {
    && Copyable(m0, p0, s, c, src, dst, level) && Copyable(m, p, s, c, src, dst, level) && i <= Limit(level)
    && OnlyTables(m0, p0, m, p) && TablesKept(m0, p0, m, p, dst) && OthersKept(m0, m, c)
    && Blank(m.phys, dst, i, level) && Mirrors(m.phys, src, dst, level, i) && Deep(m.phys, src, dst, level, i)
    && UpperKept(m0.phys, m.phys, dst, level)
    && |m.freelist| + |Subtables(m0.phys, src, level, 0)| == |m0.freelist| + |Subtables(m0.phys, src, level, i)|
  }

  /** The words that do not belong to the process are left alone. */
  ghost predicate UpperKept(phys: Phys, phys': Phys, t: nat, level: nat) {
    && IsTable(phys, t) && IsTable(phys', t)
    && forall j: nat :: Limit(level) <= j < ENTRIES ==> phys'[t].words[j] == phys[t].words[j]
  }

  /** The child has the tables of the parent below `dst`, at the cost of one frame each. */
  ghost predicate TableCopied(m0: Memory, m: Memory, src: nat, dst: nat, level: nat) {
    && 1 <= level <= 4 && Mirrors(m.phys, src, dst, level, Limit(level)) && Deep(m.phys, src, dst, level, Limit(level))
    && UpperKept(m0.phys, m.phys, dst, level)
    && |m.freelist| + |Subtables(m0.phys, src, level, 0)| == |m0.freelist|
  }

  /** The nested loops that give the child its own tables, one level of nesting per level of recursion. */
  method CopyTable(m0: Memory, ghost p0: Places, s: nat, c: nat, src: nat, dst: nat, level: nat)
    returns (ok: bool, m: Memory, ghost p: Places)
    requires Copyable(m0, p0, s, c, src, dst, level) && Blank(m0.phys, dst, 0, level)
    ensures Strict(m, p) && OnlyTables(m0, p0, m, p) && OthersKept(m0, m, c) && TablesKept(m0, p0, m, p, dst)
    ensures ok <==> |Subtables(m0.phys, src, level, 0)| <= |m0.freelist|
    ensures ok ==> TableCopied(m0, m, src, dst, level)
    ensures !ok ==> m.freelist == []
    decreases level, 1
  {
    m, p := m0, p0;
    StartCopy(m0, p0, s, c, src, dst, level);
    var i := 0;
    while i < Limit(level)
      invariant 0 <= i <= Limit(level) && CopyingTo(m0, p0, m, p, s, c, src, dst, level, i)
    {
      CopyFacts(m, p, s, c, src, dst, level, i);
      SourceKept(m0, p0, m, p, s, c, src, dst, level, i);
      var e, next := m.phys[src].words[i], i + 1;
      if !Present(e) {
        ghost var phys := m.phys;
        m := m.(phys := m.phys[dst := Words(m.phys[dst].words[i := e])]);
        assert m.phys[dst].words == phys[dst].words;
        assert m.phys == phys;
        NothingToCopy(m0, p0, m, p, s, c, src, dst, level, i, next);
      } else if level > 1 {
        if m.freelist == [] {
          return false, m, p;
        }
        ok, m, p := CopyNext(m0, p0, m, p, s, c, src, dst, level, i, next, e);
        if !ok {
          return;
        }
      } else {
        NothingToCopy(m0, p0, m, p, s, c, src, dst, level, i, next);
      }
      i := next;
    }
    return true, m, p;
  }

  /** The table below word `i` is copied with all tables below it. */
  method CopyNext(ghost m0: Memory, ghost p0: Places, m1: Memory, ghost p1: Places, s: nat, c: nat, src: nat, dst: nat, level: nat,
                  i: nat, ghost next: nat, e: PTE)
    returns (ok: bool, m: Memory, ghost p: Places)
    requires CopyingTo(m0, p0, m1, p1, s, c, src, dst, level, i) && 1 < level <= 4 && i < Limit(level) && next == i + 1 && m1.freelist != []
    requires IsTable(m1.phys, src) && i < ENTRIES && e == m1.phys[src].words[i] && Present(e)
    ensures Strict(m, p) && OnlyTables(m0, p0, m, p) && OthersKept(m0, m, c) && TablesKept(m0, p0, m, p, dst)
    ensures ok ==> CopyingTo(m0, p0, m, p, s, c, src, dst, level, next)
    ensures !ok ==> m.freelist == [] && |m0.freelist| < |Subtables(m0.phys, src, level, 0)|
    decreases level, 0
  {
    var g;
    g, m, p := CopyWord(m1, p1, s, c, src, dst, level, i, e);
    ghost var m2, p2 := m, p;
    ok, m, p := CopyTable(m, p, s, c, e.pfn, g, level - 1);
    NextKept(m0, p0, m1, p1, m2, p2, m, p, s, c, src, dst, level, i, e, g);
    if ok {
      NextCopied(m0, p0, m1, p1, m2, p2, m, p, s, c, src, dst, level, i, next, e, g);
    }
  }

  /** Creating and filling the next table leaves everything else alone. */
  lemma NextKept(m0: Memory, p0: Places, m1: Memory, p1: Places, m2: Memory, p2: Places, m3: Memory, p3: Places,
                 s: nat, c: nat, src: nat, dst: nat, level: nat, i: nat, e: PTE, g: nat)
    requires CopyingTo(m0, p0, m1, p1, s, c, src, dst, level, i) && Worded(m1, p1, m2, p2, s, c, src, dst, level, i, e, g)
    requires Strict(m3, p3) && OnlyTables(m2, p2, m3, p3) && OthersKept(m2, m3, c) && TablesKept(m2, p2, m3, p3, g)
    requires IsTable(m1.phys, src) && e == m1.phys[src].words[i] && Present(e)
    ensures OnlyTables(m0, p0, m3, p3) && OthersKept(m0, m3, c) && TablesKept(m0, p0, m3, p3, dst)
    ensures Copyable(m3, p3, s, c, src, dst, level) && Blank(m3.phys, dst, i + 1, level) && Mirrors(m3.phys, src, dst, level, i + 1)
    ensures |m2.freelist| < |Subtables(m2.phys, e.pfn, level - 1, 0)| ==> |m0.freelist| < |Subtables(m0.phys, src, level, 0)|
  {
    OnlyTablesTrans(m0, p0, m1, p1, m2, p2);
    KeptTrans(m0, p0, m1, p1, m2, p2, dst, dst);
    CopyRest(m0, p0, m1, p1, m2, p2, m3, p3, s, c, src, dst, level, i, g);
    CountNext(m0, p0, m1, p1, m2, p2, s, c, src, dst, level, i, e);
    OthersTrans(m0, m1, m2, c);
    OthersTrans(m0, m2, m3, c);
  }

  lemma OthersTrans(m0: Memory, m1: Memory, m2: Memory, c: nat)
    requires m1.spaces.Keys == m0.spaces.Keys && m2.spaces.Keys == m1.spaces.Keys && OthersKept(m0, m1, c) && OthersKept(m1, m2, c)
    ensures OthersKept(m0, m2, c)
  {
    forall z | z in m0.spaces && z != c
      ensures m2.spaces[z] == m0.spaces[z]
    {
      assert m1.spaces[z] == m0.spaces[z];
    }
  }

  lemma NextCopied(m0: Memory, p0: Places, m1: Memory, p1: Places, m2: Memory, p2: Places, m3: Memory, p3: Places,
                   s: nat, c: nat, src: nat, dst: nat, level: nat, i: nat, next: nat, e: PTE, g: nat)
    requires CopyingTo(m0, p0, m1, p1, s, c, src, dst, level, i) && Worded(m1, p1, m2, p2, s, c, src, dst, level, i, e, g) && next == i + 1
    requires Strict(m3, p3) && OnlyTables(m2, p2, m3, p3) && OthersKept(m2, m3, c) && TablesKept(m2, p2, m3, p3, g)
    requires IsTable(m1.phys, src) && e == m1.phys[src].words[i] && Present(e) && TableCopied(m2, m3, e.pfn, g, level - 1)
    ensures CopyingTo(m0, p0, m3, p3, s, c, src, dst, level, next)
  {
    NextKept(m0, p0, m1, p1, m2, p2, m3, p3, s, c, src, dst, level, i, e, g);
    KeptTrans(m0, p0, m1, p1, m2, p2, dst, dst);
    CountNext(m0, p0, m1, p1, m2, p2, s, c, src, dst, level, i, e);
    DeepNext(m1, p1, m2, p2, m3, p3, s, c, src, dst, level, i, e, g);
    assert TableKept(m2, p2, m3, p3, g, dst);
  }

  lemma SourceKept(m0: Memory, p0: Places, m: Memory, p: Places, s: nat, c: nat, src: nat, dst: nat, level: nat, i: nat)
    requires CopyingTo(m0, p0, m, p, s, c, src, dst, level, i) && i < Limit(level)
    ensures IsTable(m.phys, src) && i < ENTRIES
    ensures level > 1 ==>
              |Subtables(m0.phys, src, level, i)| ==
              |Subtables(m0.phys, src, level, i + 1)| +
              if Present(m.phys[src].words[i]) then 1 + |Subtables(m0.phys, m.phys[src].words[i].pfn, level - 1, 0)| else 0
  {
    assert TableKept(m0, p0, m, p, dst, src);
    assert TableOk(m0.phys, p0, src);
  }

  lemma CountNext(m0: Memory, p0: Places, m1: Memory, p1: Places, m2: Memory, p2: Places, s: nat, c: nat, src: nat, dst: nat, level: nat, i: nat, e: PTE)
    requires CopyingTo(m0, p0, m1, p1, s, c, src, dst, level, i) && 1 < level <= 4 && i < Limit(level) && TablesKept(m0, p0, m2, p2, dst)
    requires IsTable(m1.phys, src) && i < ENTRIES && e == m1.phys[src].words[i] && Present(e)
    ensures |Subtables(m0.phys, src, level, i)| == |Subtables(m0.phys, src, level, i + 1)| + 1 + |Subtables(m2.phys, e.pfn, level - 1, 0)|
  {
    SourceKept(m0, p0, m1, p1, s, c, src, dst, level, i);
    assert TableKept(m0, p0, m1, p1, dst, src);
    CopyFacts(m0, p0, s, c, src, dst, level, i);
    SubtablesKept(m0, p0, m2, p2, dst, e.pfn, level - 1, 0);
  }

  lemma DeepNext(m1: Memory, p1: Places, m2: Memory, p2: Places, m3: Memory, p3: Places, s: nat, c: nat, src: nat, dst: nat,
                 level: nat, i: nat, e: PTE, g: nat)
    requires Copyable(m1, p1, s, c, src, dst, level) && Copyable(m2, p2, s, c, src, dst, level) && Copyable(m2, p2, s, c, e.pfn, g, level - 1)
    requires Copyable(m3, p3, s, c, src, dst, level)
    requires 1 < level <= 4 && i < Limit(level) && Deep(m1.phys, src, dst, level, i)
    requires TablesKept(m1, p1, m2, p2, dst) && TablesKept(m2, p2, m3, p3, g) && g in p1 && !p1[g].Table? && g != dst && g != src
    requires IsTable(m1.phys, src) && IsTable(m1.phys, dst) && IsTable(m2.phys, dst) && i < ENTRIES
    requires e == m1.phys[src].words[i] && Present(e) && m2.phys[dst].words == m1.phys[dst].words[i := PTE(g, e.flags)]
    requires Deep(m3.phys, e.pfn, g, level - 1, Limit(level - 1))
    ensures Deep(m3.phys, src, dst, level, i + 1)
  {
    WordsNot(m1, p1, dst, level, dst);
    WordsNot(m1, p1, dst, level, g);
    DeepKept(m1, p1, m2, p2, dst, s, c, src, dst, level, i);
    assert TableKept(m1, p1, m2, p2, dst, src);
    assert TableKept(m2, p2, m3, p3, g, src) && TableKept(m2, p2, m3, p3, g, dst);
    DeepKept(m2, p2, m3, p3, g, s, c, src, dst, level, i);
    assert m3.phys[src].words[i] == e && m3.phys[dst].words[i] == PTE(g, e.flags);
    forall j: nat | j < i + 1 && j < Limit(level) && Present(m3.phys[src].words[j])
      ensures Present(m3.phys[dst].words[j]) && Deep(m3.phys, m3.phys[src].words[j].pfn, m3.phys[dst].words[j].pfn, level - 1, Limit(level - 1))
    {
      assert j == i || j < i;
    }
  }

  /** No word of a table leads to itself, or to a frame that is not a table. */
  lemma WordsNot(m: Memory, p: Places, t: nat, level: nat, x: nat)
    requires Tree(m.phys, p) && t in p && p[t].Table? && p[t].level == level > 1 && x in p && (x == t || !p[x].Table?)
    ensures IsTable(m.phys, t)
    ensures forall j: nat :: j < Limit(level) && Present(m.phys[t].words[j]) ==> m.phys[t].words[j].pfn != x
  {
    assert TableOk(m.phys, p, t);
    forall j: nat | j < Limit(level) && Present(m.phys[t].words[j])
      ensures m.phys[t].words[j].pfn != x
    {
      assert ChildOk(m.phys, p, t, j);
    }
  }

  lemma NothingToCopy(m0: Memory, p0: Places, m: Memory, p: Places, s: nat, c: nat, src: nat, dst: nat, level: nat, i: nat, next: nat)
    requires CopyingTo(m0, p0, m, p, s, c, src, dst, level, i) && i < Limit(level) && next == i + 1
    requires IsTable(m.phys, src) && i < ENTRIES && (level == 1 || !Present(m.phys[src].words[i]))
    ensures CopyingTo(m0, p0, m, p, s, c, src, dst, level, next)
  {
    SourceKept(m0, p0, m, p, s, c, src, dst, level, i);
  }

  lemma StartCopy(m: Memory, p: Places, s: nat, c: nat, src: nat, dst: nat, level: nat)
    requires Copyable(m, p, s, c, src, dst, level) && Blank(m.phys, dst, 0, level)
    ensures CopyingTo(m, p, m, p, s, c, src, dst, level, 0)
  {
    assert TableOk(m.phys, p, src);
    forall f | f in p && p[f].Data?
      ensures FrameKept(m, p, m, p, f)
    {
      assert DataOk(m, p, f);
    }
    forall f | f in p && p[f].Table?
      ensures TableKept(m, p, m, p, dst, f)
    {
      assert TableOk(m.phys, p, f);
    }
  }

  /** Filling the new table leaves the table above it, and the parent's, alone. */
  lemma CopyRest(m0: Memory, p0: Places, m1: Memory, p1: Places, m2: Memory, p2: Places, m3: Memory, p3: Places,
                 s: nat, c: nat, src: nat, dst: nat, level: nat, i: nat, g: nat)
    requires Copyable(m2, p2, s, c, src, dst, level) && i < Limit(level)
    requires OnlyTables(m0, p0, m2, p2) && OnlyTables(m2, p2, m3, p3) && Strict(m3, p3)
    requires TablesKept(m0, p0, m1, p1, dst) && TablesKept(m0, p0, m2, p2, dst) && TablesKept(m2, p2, m3, p3, g)
    requires g in p1 && !p1[g].Table? && g != dst && g != src
    requires Blank(m2.phys, dst, i + 1, level) && Mirrors(m2.phys, src, dst, level, i + 1)
    ensures OnlyTables(m0, p0, m3, p3) && TablesKept(m0, p0, m3, p3, dst) && Copyable(m3, p3, s, c, src, dst, level)
    ensures Blank(m3.phys, dst, i + 1, level) && Mirrors(m3.phys, src, dst, level, i + 1)
  {
    OnlyTablesTrans(m0, p0, m2, p2, m3, p3);
    assert g in p0 && p0[g].Table? ==> TableKept(m0, p0, m1, p1, dst, g);
    KeptTrans(m0, p0, m2, p2, m3, p3, dst, g);
    assert TableKept(m2, p2, m3, p3, g, src) && TableKept(m2, p2, m3, p3, g, dst);
  }

  // ---------------------------------------------------------------- what the copy of the tables is good for

  lemma {:induction false} DeepLeaf(phys: Phys, src: nat, dst: nat, level: nat, page: nat)
    requires 1 <= level <= 4 && page < LOWER_PAGES && Deep(phys, src, dst, level, Limit(level)) && LeafFrom(phys, src, page, level).Some?
    ensures LeafFrom(phys, dst, page, level).Some?
    decreases level
  {
    LowerIndex(page, level);
    if level > 1 {
      var j := Index(page, level);
      DeepLeaf(phys, phys[src].words[j].pfn, phys[dst].words[j].pfn, level - 1, page);
    }
  }

  /** The upper half of the root tables, which leads to the kernel, is the same. */
  ghost predicate SameKernelHalf(m0: Memory, m: Memory, s: nat, c: nat)
    requires s in m0.spaces && c in m.spaces
  {
    && IsTable(m0.phys, m0.spaces[s].root) && IsTable(m.phys, m.spaces[c].root)
    && forall j: nat :: 256 <= j < 512 ==> m.phys[m.spaces[c].root].words[j] == m0.phys[m0.spaces[s].root].words[j]
  }

  /** For every page that is resident in pagemap `s` of `m0`, pagemap `c` of `m` has a last-level table; and it has the same kernel half. */
  ghost predicate HasLeaves(m0: Memory, m: Memory, s: nat, c: nat) {
    && s in m0.spaces && c in m.spaces && SameKernelHalf(m0, m, s, c)
    && forall q: nat {:trigger EntryOf(m0, s, q)} :: q < LOWER_PAGES && Present(EntryOf(m0, s, q)) ==> Leaf(m.phys, m.spaces[c].root, q).Some?
  }

  lemma DeepHasLeaves(m0: Memory, m: Memory, p: Places, s: nat, c: nat)
    requires Strict(m, p) && s in m0.spaces && s in m.spaces && c in m.spaces && Deep(m.phys, m.spaces[s].root, m.spaces[c].root, 4, Limit(4))
    requires forall q: nat :: q < LOWER_PAGES ==> EntryOf(m, s, q) == EntryOf(m0, s, q)
    requires s in m0.spaces && SameKernelHalf(m0, m, s, c)
    ensures HasLeaves(m0, m, s, c)
  {
    assert SpaceInv(m, p, s);
    forall q: nat | q < LOWER_PAGES && Present(EntryOf(m0, s, q))
      ensures Leaf(m.phys, m.spaces[c].root, q).Some?
    {
      assert EntryOf(m, s, q) == EntryOf(m0, s, q);
      LowerIndex(q, 4);
      LeafPlace(m.phys, p, m.spaces[s].root, s, q, 4);
      DeepLeaf(m.phys, m.spaces[s].root, m.spaces[c].root, 4, q);
    }
  }

  /** The tables of a process below its root are those it had before a new pagemap was made. */
  lemma BornSubtables(m0: Memory, p0: Places, m: Memory, s: nat)
    requires Strict(m0, p0) && s in m0.spaces && m0.freelist != [] && m0.freelist[0] in m.phys
    requires m.phys == m0.phys[m0.freelist[0] := m.phys[m0.freelist[0]]]
    ensures Subtables(m.phys, m0.spaces[s].root, 4, 0) == Subtables(m0.phys, m0.spaces[s].root, 4, 0)
  {
    HeadIsFree(m0, p0, 0, map[]);
    assert SpaceInv(m0, p0, s);
    forall f | f in p0 && p0[f].Table?
      ensures f in m0.phys && f in m.phys && m.phys[f] == m0.phys[f]
    {
      assert TableOk(m0.phys, p0, f);
    }
    SubtablesFrame(m0.phys, m.phys, p0, m0.spaces[s].root, s, 4, 0);
  }
}
