/** The table list of a pagemap holds exactly the tables that its root leads to. */
module TableCount {
  import opened Common
  import opened PageTable
  import opened Memory

  /** The prefix, at `level`, under which a table with this prefix at level `l` lies. */
  function Up(prefix: nat, l: nat, level: nat): nat
    decreases if l < level then level - l else 0
  {
    if l >= level then prefix else Up(prefix / ENTRIES, l + 1, level)
  }

  lemma {:induction false} UpStep(prefix: nat, l: nat, level: nat)
    requires l <= level
    ensures Up(prefix, l, level + 1) == Up(prefix, l, level) / ENTRIES
    decreases level - l
  {
    if l < level {
      UpStep(prefix / ENTRIES, l + 1, level);
    }
  }

  lemma OneAbove(u: nat, prefix: nat)
    requires prefix * ENTRIES <= u < prefix * ENTRIES + ENTRIES
    ensures u / ENTRIES == prefix
  {
  }

  ghost predicate IsTableOf(phys: Phys, places: Places, t: nat, level: nat) {
    Tree(phys, places) && t in places && places[t].Table? && places[t].level == level && 1 <= level <= 4
  }

  /** Where table `f`, which lies below `t`, belongs. */
  ghost predicate Below(places: Places, t: nat, level: nat, lo: nat, hi: nat, f: nat)
    requires t in places && places[t].Table? && level > 1
  {
    && f in places && places[f].Table? && places[f].space == places[t].space && places[f].level < level
    && places[t].prefix * ENTRIES + lo <= Up(places[f].prefix, places[f].level, level - 1) < places[t].prefix * ENTRIES + hi
  }

  lemma {:induction false} SubtableBelow(phys: Phys, places: Places, t: nat, level: nat, i: nat, f: nat)
    requires IsTableOf(phys, places, t, level) && f in Subtables(phys, t, level, i)
    ensures level > 1 && Below(places, t, level, i, Limit(level), f)
    decreases level, if i < Limit(level) then Limit(level) - i else 0
  {
    assert TableOk(phys, places, t);
    if f in Under(phys, phys[t].words[i], level - 1) {
      UnderBelow(phys, places, t, level, i, f);
    } else {
      SubtableBelow(phys, places, t, level, i + 1, f);
    }
  }

  lemma {:induction false} UnderBelow(phys: Phys, places: Places, t: nat, level: nat, i: nat, f: nat)
    requires IsTableOf(phys, places, t, level) && level > 1 && i < Limit(level) && IsTable(phys, t)
    requires f in Under(phys, phys[t].words[i], level - 1)
    ensures Below(places, t, level, i, i + 1, f)
    decreases level, 0
  {
    assert TableOk(phys, places, t) && ChildOk(phys, places, t, i);
    var child := phys[t].words[i].pfn;
    if f != child {
      assert f in Subtables(phys, child, level - 1, 0);
      SubtableBelow(phys, places, child, level - 1, 0, f);
      UpStep(places[f].prefix, places[f].level, level - 2);
      OneAbove(Up(places[f].prefix, places[f].level, level - 2), places[child].prefix);
    }
  }

  /** No table is reached twice. */
  lemma {:induction false} SubtablesNoDup(phys: Phys, places: Places, t: nat, level: nat, i: nat)
    requires IsTableOf(phys, places, t, level)
    ensures NoDup(Subtables(phys, t, level, i))
    decreases level, if i < Limit(level) then Limit(level) - i else 0
  {
    assert TableOk(phys, places, t);
    if level > 1 && i < Limit(level) {
      var under, rest := Under(phys, phys[t].words[i], level - 1), Subtables(phys, t, level, i + 1);
      UnderNoDup(phys, places, t, level, i);
      SubtablesNoDup(phys, places, t, level, i + 1);
      forall f | f in under
        ensures f !in rest
      {
        UnderBelow(phys, places, t, level, i, f);
        if f in rest {
          SubtableBelow(phys, places, t, level, i + 1, f);
        }
      }
      NoDupConcat(under, rest);
    }
  }

  lemma {:induction false} UnderNoDup(phys: Phys, places: Places, t: nat, level: nat, i: nat)
    requires IsTableOf(phys, places, t, level) && level > 1 && i < Limit(level) && IsTable(phys, t)
    ensures NoDup(Under(phys, phys[t].words[i], level - 1))
    decreases level, 0
  {
    assert TableOk(phys, places, t) && ChildOk(phys, places, t, i);
    if Present(phys[t].words[i]) {
      var child := phys[t].words[i].pfn;
      SubtablesNoDup(phys, places, child, level - 1, 0);
      NotBelowItself(phys, places, child, level - 1);
      NoDupPush(Subtables(phys, child, level - 1, 0), child);
    }
  }

  lemma NotBelowItself(phys: Phys, places: Places, t: nat, level: nat)
    requires IsTableOf(phys, places, t, level)
    ensures t !in Subtables(phys, t, level, 0)
    decreases level, Limit(level) + 1
  {
    if t in Subtables(phys, t, level, 0) {
      SubtableBelow(phys, places, t, level, 0, t);
    }
  }

  /** What a word leads to is among the tables below. */
  lemma {:induction false} WordMember(phys: Phys, t: nat, level: nat, k: nat, i: nat, f: nat)
    requires 1 < level <= 4 && IsTable(phys, t) && k <= i < Limit(level) && f in Under(phys, phys[t].words[i], level - 1)
    ensures f in Subtables(phys, t, level, k)
    decreases i - k
  {
    if k < i {
      WordMember(phys, t, level, k + 1, i, f);
    }
  }

  /** What hangs from a table below is below too. */
  lemma {:induction false} ChildMember(phys: Phys, places: Places, x: nat, level: nat, k: nat, t: nat, i: nat, f: nat)
    requires IsTableOf(phys, places, x, level) && t in Subtables(phys, x, level, k) && HangsAt(phys, places, t, i, f)
    ensures f in Subtables(phys, x, level, k)
    decreases level, if k < Limit(level) then Limit(level) - k else 0
  {
    SubtableOf(phys, places, x, k);
    var e := phys[x].words[k];
    if t in Under(phys, e, level - 1) {
      if t == e.pfn {
        assert f in Under(phys, phys[t].words[i], level - 2);
        WordMember(phys, t, level - 1, 0, i, f);
      } else {
        ChildMember(phys, places, e.pfn, level - 1, 0, t, i, f);
      }
    } else {
      ChildMember(phys, places, x, level, k + 1, t, i, f);
    }
  }

  /** Every table of the pagemap is below its root. */
  lemma {:induction false} AllBelow(phys: Phys, places: Places, root: nat, space: nat, f: nat)
    requires Tree(phys, places) && IsRoot(places, root, space) && f in places && places[f].Table? && places[f].space == space && f != root
    ensures f in Subtables(phys, root, 4, 0)
    decreases if places[f].level < 4 then 4 - places[f].level else 0
  {
    assert TableOk(phys, places, f) && Hung(phys, places, f) && Hung(phys, places, root);
    var t: nat, i: nat :| HangsAt(phys, places, t, i, f);
    assert TableOk(phys, places, t) && ChildOk(phys, places, t, i);
    if t == root {
      WordMember(phys, root, 4, 0, i, f);
    } else {
      AllBelow(phys, places, root, space, t);
      ChildMember(phys, places, root, 4, 0, t, i, f);
    }
  }

  /** A pagemap has as many tables as it has frames on its table list. */
  lemma TablesListed(m: Memory, p: Places, s: nat)
    requires Strict(m, p) && s in m.spaces
    ensures |m.spaces[s].tablePages| == 1 + |Subtables(m.phys, m.spaces[s].root, 4, 0)|
  {
    assert SpaceInv(m, p, s);
    var root := m.spaces[s].root;
    var below := Subtables(m.phys, root, 4, 0);
    SubtablesNoDup(m.phys, p, root, 4, 0);
    forall f
      ensures f in m.spaces[s].tablePages <==> f == root || f in below
    {
      if f in below {
        SubtableBelow(m.phys, p, root, 4, 0, f);
      }
      if f in m.spaces[s].tablePages && f != root {
        AllBelow(m.phys, p, root, s, f);
      }
    }
    NotBelowItself(m.phys, p, root, 4);
    NoDupPush(below, root);
    SameLength(m.spaces[s].tablePages, [root] + below);
  }
}
