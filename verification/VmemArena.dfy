/** add, xalloc and xfree of the vmem arena, and any sequence of them. */
module VmemArena {
  import opened Common
  import opened Vmem
  import opened VmemOps

  // ---------------------------------------------------------------- which neighbours are free

  ghost predicate IsFree(tags: map<nat, Tag>, id: nat) {
    id in tags && tags[id].kind == Free
  }

  /** What the absence of free neighbours says around a run of segments. */
  lemma ApartParts(tags: map<nat, Tag>, l: seq<nat>, mid: seq<nat>, r: seq<nat>)
    requires mid != [] && NoAdjacentFree(tags, l + mid + r)
    ensures NoAdjacentFree(tags, l) && NoAdjacentFree(tags, r)
    ensures IsFree(tags, mid[0]) && l != [] ==> !IsFree(tags, l[|l| - 1])
    ensures IsFree(tags, mid[|mid| - 1]) && r != [] ==> !IsFree(tags, r[0])
  {
    var s, n := l + mid + r, |l| + |mid|;
    forall i, j | 0 <= i && j == i + 1 < |l| && l[i] in tags && l[j] in tags
      ensures !(tags[l[i]].kind == Free && tags[l[j]].kind == Free)
    {
      assert s[i] == l[i] && s[j] == l[j];
    }
    forall i, j | 0 <= i && j == i + 1 < |r| && r[i] in tags && r[j] in tags
      ensures !(tags[r[i]].kind == Free && tags[r[j]].kind == Free)
    {
      assert s[n + i] == r[i] && s[n + j] == r[j];
    }
    if l != [] {
      assert s[|l| - 1] == l[|l| - 1] && s[|l|] == mid[0];
    }
    if r != [] {
      assert s[n - 1] == mid[|mid| - 1] && s[n] == r[0];
    }
  }

  lemma ApartJoin(tags: map<nat, Tag>, tags': map<nat, Tag>, l: seq<nat>, m: nat, r: seq<nat>)
    requires NoAdjacentFree(tags, l) && NoAdjacentFree(tags, r)
    requires forall x :: x in l || x in r ==> x in tags && x in tags' && tags'[x] == tags[x]
    requires l != [] ==> !IsFree(tags, l[|l| - 1])
    requires r != [] ==> !IsFree(tags, r[0])
    ensures NoAdjacentFree(tags', l + [m] + r)
  {
    var s, n := l + [m] + r, |l|;
    forall i, j | 0 <= i && j == i + 1 < |s| && s[i] in tags' && s[j] in tags'
      ensures !(tags'[s[i]].kind == Free && tags'[s[j]].kind == Free)
    {
      if j < n {
        assert s[i] == l[i] && s[j] == l[j] && l[i] in l && l[j] in l;
      } else if j == n {
        assert s[i] == l[n - 1] && l[n - 1] in l;
      } else if i == n {
        assert s[j] == r[0] && r[0] in r;
      } else {
        assert s[i] == r[i - n - 1] && s[j] == r[j - n - 1] && r[i - n - 1] in r && r[j - n - 1] in r;
      }
    }
  }

  // ---------------------------------------------------------------- following pointers

  /** Where in the tag list a segment is; the source follows the links of the tag. */
  method Locate(a: Arena, ghost home: map<nat, nat>, ghost limbo: Option<nat>, id: nat) returns (s: nat, l: seq<nat>, r: seq<nat>)
    requires Core(a, home, limbo) && id in a.tags && a.tags[id].kind != Span
    ensures s in a.spans && s in a.segments && a.segments[s] == l + [id] + r
  {
    SegmentSize(a, home, limbo, id);
    ghost var k :| 0 <= k < |a.spans| && a.spans[k] == home[id];
    var i := 0;
    while i < |a.spans|
      invariant 0 <= i <= k
      decreases |a.spans| - i
    {
      s := a.spans[i];
      assert SpanOk(a, home, s);
      var ids, j := a.segments[s], 0;
      while j < |ids|
        invariant 0 <= j <= |ids| && id !in ids[..j]
      {
        if ids[j] == id {
          assert ids == ids[..j] + [id] + ids[j+1..];
          return s, ids[..j], ids[j+1..];
        }
        j := j + 1;
      }
      assert ids[..|ids|] == ids;
      i := i + 1;
    }
    assert false;
  }

  // ---------------------------------------------------------------- xalloc

  datatype Allocation = Got(addr: nat) | NoSpace | NoTags

  /** The free segment from which a block was taken. */
  ghost predicate Serves(a: Arena, id: nat, addr: nat, size: nat) {
    id in a.tags && a.tags[id].kind == Free && a.tags[id].base == addr && size <= a.tags[id].size
  }

  ghost predicate Granted(a: Arena, b: Arena, addr: nat, size: nat) {
    && Blocks(b) == Blocks(a) + {(addr, size)} && (addr, size) !in Blocks(a)
    && (exists id :: Serves(a, id, addr, size) && Requeued(a.freelists, b.freelists, id))
  }

  lemma TakenGrants(a: Arena, home: map<nat, nat>, id: nat)
    requires Inv(a, home) && id in a.tags && a.tags[id].kind == Free && a.tags[id].size > 0 && Log(a.tags[id].size) < |a.freelists|
    ensures Granted(a, Taken(a, id), a.tags[id].base, a.tags[id].size)
  {
    var b, t := Taken(a, id), a.tags[id];
    forall x | x in a.tags && a.tags[x].kind == Allocated
      ensures (a.tags[x].base, a.tags[x].size) != (t.base, t.size) && x in b.tags && b.tags[x] == a.tags[x]
    {
      SegmentsApart(a, home, None, x, id);
    }
    assert b.tags[id].kind == Allocated;
    assert Serves(a, id, t.base, t.size);
    Unqueued(a.freelists, FreeWhere(a.tags), id);
    assert forall x :: x in b.tags && b.tags[x].kind == Allocated ==> x == id || (x in a.tags && a.tags[x] == b.tags[x]);
  }

  lemma CarvedGrants(a: Arena, home: map<nat, nat>, s: nat, l: seq<nat>, id: nat, r: seq<nat>, n: nat)
    requires Inv(a, home) && id in a.tags && a.tags[id].kind == Free && 0 < n < a.tags[id].size && a.pool != []
    requires Log(a.tags[id].size) < |a.freelists| && Log(a.tags[id].size - n) < |a.freelists|
    ensures Granted(a, Carved(a, s, l, id, r, n), a.tags[id].base, n)
  {
    var b, t, front := Carved(a, s, l, id, r, n), a.tags[id], a.pool[0];
    assert front in a.pool;
    forall x | x in a.tags && a.tags[x].kind == Allocated
      ensures (a.tags[x].base, a.tags[x].size) != (t.base, n) && x in b.tags && b.tags[x] == a.tags[x]
    {
      SegmentsApart(a, home, None, x, id);
    }
    assert b.tags[front] == Tag(t.base, n, Allocated);
    assert Serves(a, id, t.base, n);
    MovedRequeued(a.freelists, FreeWhere(a.tags), id, Log(t.size - n));
    assert forall x :: x in b.tags && b.tags[x].kind == Allocated ==> x == front || (x in a.tags && a.tags[x] == b.tags[x]);
  }

  lemma MovedRequeued(lists: seq<seq<nat>>, where: map<nat, nat>, id: nat, k: nat)
    requires Filed(lists, where) && id in where && k < |lists|
    ensures Requeued(lists, Moved(lists, id, where[id], k), id)
  {
    Unqueued(lists, where, id);
    forall j: nat | j < |lists| && j != where[id]
      ensures Without(lists[j], id) == lists[j]
    {
      assert ListOk(lists, where, j);
      WithoutAbsent(lists[j], id);
    }
  }

  /** The segment at the head of the list that was found: large enough, by the choice of the first list. */
  lemma HeadFits(a: Arena, home: map<nat, nat>, size: nat, i: nat)
    requires Inv(a, home) && size > 0 && FirstList(size) <= i < NUM_FREELISTS && a.freelists[i] != []
    ensures var id := a.freelists[i][0];
            id in a.tags && a.tags[id].kind == Free && a.tags[id].size >= size && Log(a.tags[id].size) == i
  {
    var id := a.freelists[i][0];
    assert id in a.freelists[i] && ListOk(a.freelists, FreeWhere(a.tags), i);
    FirstListFits(size);
    LogAtLeast(a.tags[id].size, FirstList(size));
  }

  /** So a free segment reaches the next power of two. */
  lemma HeadReaches(a: Arena, home: map<nat, nat>, size: nat, i: nat)
    requires Inv(a, home) && size > 0 && FirstList(size) <= i < NUM_FREELISTS && a.freelists[i] != []
    ensures var id := a.freelists[i][0]; id in a.tags && a.tags[id].kind == Free && a.tags[id].size >= Pow(FirstList(size))
  {
    HeadFits(a, home, size, i);
    LogAtLeast(a.tags[a.freelists[i][0]].size, FirstList(size));
  }

  /** When all lists from the first one on are empty, no free segment reaches the next power of two. */
  lemma NothingFits(a: Arena, home: map<nat, nat>, size: nat)
    requires Inv(a, home) && size > 0 && forall k :: FirstList(size) <= k < NUM_FREELISTS ==> a.freelists[k] == []
    ensures forall id :: id in a.tags && a.tags[id].kind == Free ==> a.tags[id].size < Pow(FirstList(size))
  {
    forall id | id in a.tags && a.tags[id].kind == Free
      ensures a.tags[id].size < Pow(FirstList(size))
    {
      SegmentSize(a, home, None, id);
      var k := Log(a.tags[id].size);
      LogAtLeast(a.tags[id].size, FirstList(size));
      assert ListOk(a.freelists, FreeWhere(a.tags), k);
      assert id in FreeWhere(a.tags);
    }
  }

  /** A perfect match. */
  method TakeWhole(a0: Arena, id: nat) returns (a: Arena)
    requires id in a0.tags && a0.tags[id].size > 0 && Log(a0.tags[id].size) < |a0.freelists| && |a0.buckets| == NUM_BUCKETS
    ensures a == Taken(a0, id)
  {
    var t, i := a0.tags[id], Log(a0.tags[id].size);
    a := a0.(freelists := a0.freelists[i := Without(a0.freelists[i], id)]);
    a := a.(tags := a.tags[id := t.(kind := Allocated)]);
    var b := a.hash(t.base) % NUM_BUCKETS;
    a := a.(buckets := a.buckets[b := [id] + a.buckets[b]]);
  }

  /** Not a perfect match: the segment is split. */
  method Carve(a0: Arena, span: nat, l: seq<nat>, id: nat, r: seq<nat>, size: nat) returns (a: Arena)
    requires id in a0.tags && 0 < size < a0.tags[id].size && a0.pool != [] && |a0.buckets| == NUM_BUCKETS
    requires Log(a0.tags[id].size) < |a0.freelists| && Log(a0.tags[id].size - size) < |a0.freelists|
    ensures a == Carved(a0, span, l, id, r, size)
  {
    var t, i, front := a0.tags[id], Log(a0.tags[id].size), a0.pool[0];
    a := a0.(freelists := a0.freelists[i := Without(a0.freelists[i], id)]);
    a := a.(pool := a.pool[1..]);
    a := a.(tags := a.tags[front := Tag(t.base, size, Allocated)]);
    a := a.(tags := a.tags[id := Tag(t.base + size, t.size - size, Free)]);
    a := a.(segments := a.segments[span := l + [front, id] + r]);
    var k := Log(t.size - size);
    a := a.(freelists := a.freelists[k := a.freelists[k] + [id]]);
    var b := a.hash(t.base) % NUM_BUCKETS;
    a := a.(buckets := a.buckets[b := [front] + a.buckets[b]]);
  }

  /** Handing out, or splitting, the segment at the head of list `i`. */
  method TakeFrom(a0: Arena, ghost home0: map<nat, nat>, size: nat, i: nat) returns (r: Allocation, a: Arena, ghost home: map<nat, nat>)
    requires Inv(a0, home0) && size > 0 && FirstList(size) <= i < NUM_FREELISTS && a0.freelists[i] != []
    ensures r.Got? ==> Inv(a, home) && Granted(a0, a, r.addr, size)
    ensures a0.freelists[i][0] in a0.tags
    ensures r.Got? ==> r.addr == a0.tags[a0.freelists[i][0]].base
    ensures !r.Got? <==> a0.tags[a0.freelists[i][0]].size != size && a0.pool == []
    ensures !r.Got? ==> r.NoTags?
  {
    HeadFits(a0, home0, size, i);
    var id := a0.freelists[i][0];
    var t := a0.tags[id];
    var span, l, rest := Locate(a0, home0, None, id);
    a, home := a0, home0;
    if t.size == size {
      TakenCore(a0, home0, span, l, id, rest);
      TakenGrants(a0, home0, id);
      a := TakeWhole(a0, id);
      return Got(t.base), a, home;
    }
    if a.pool == [] {
      return NoTags, a, home;
    }
    CarvedInv(a0, home0, span, l, id, rest, size);
    CarvedGrants(a0, home0, span, l, id, rest, size);
    a := Carve(a0, span, l, id, rest, size);
    home := Rehomed(home0, span, [id], [a0.pool[0], id]);
    return Got(t.base), a, home;
  }

  /** The segment at the head of the first list, from list `k` on, that is not empty. */
  function FirstFit(a: Arena, k: nat): Option<nat>
    decreases if k < |a.freelists| then |a.freelists| - k else 0
  {
    if k >= |a.freelists| then None
    else if a.freelists[k] != [] then Some(a.freelists[k][0])
    else FirstFit(a, k + 1)
  }

  /** All lists before `j` are empty, from `k` on, and list `j` is not. */
  ghost predicate FirstFull(lists: seq<seq<nat>>, k: nat, j: nat) {
    k <= j < |lists| && lists[j] != [] && forall i :: k <= i < j ==> lists[i] == []
  }

  lemma {:induction false} FirstFitIs(a: Arena, k: nat)
    ensures FirstFit(a, k).None? <==> forall j :: k <= j < |a.freelists| ==> a.freelists[j] == []
    ensures FirstFit(a, k).Some? ==> exists j: nat :: FirstFull(a.freelists, k, j) && a.freelists[j][0] == FirstFit(a, k).value
    decreases if k < |a.freelists| then |a.freelists| - k else 0
  {
    if k < |a.freelists| {
      if a.freelists[k] != [] {
        assert FirstFull(a.freelists, k, k);
      } else {
        FirstFitIs(a, k + 1);
        if FirstFit(a, k).Some? {
          var j: nat :| FirstFull(a.freelists, k + 1, j) && a.freelists[j][0] == FirstFit(a, k).value;
          assert FirstFull(a.freelists, k, j);
        }
      }
    }
  }

  /** The segment would have to be split, and there is no tag for the new part. */
  predicate LacksTag(a: Arena, size: nat)
    requires size > 0
  {
    var fit := FirstFit(a, FirstList(size));
    fit.Some? && fit.value in a.tags && a.tags[fit.value].size != size && a.pool == []
  }

  /**
    xalloc. It fails exactly when no free segment reaches the next power of two of the size, and
    its assertion that there is a tag exactly when it has to split without one; otherwise the block
    is the front of the segment that was found first.
   */
  method XAlloc(a0: Arena, ghost home0: map<nat, nat>, size: nat) returns (r: Allocation, a: Arena, ghost home: map<nat, nat>)
    requires Inv(a0, home0) && size > 0
    ensures r.Got? ==> Inv(a, home) && Granted(a0, a, r.addr, size)
    ensures r.NoSpace? <==> forall id :: id in a0.tags && a0.tags[id].kind == Free ==> a0.tags[id].size < Pow(FirstList(size))
    ensures r.NoSpace? ==> a == a0 && home == home0
    ensures r.NoTags? <==> LacksTag(a0, size)
    ensures r.Got? ==> var fit := FirstFit(a0, FirstList(size)); fit.Some? && fit.value in a0.tags && r.addr == a0.tags[fit.value].base
  {
    var first := Log(size);
    if !IsPower(size) {
      first := first + 1;
    }
    var i := FirstNonempty(a0, first);
    if i >= NUM_FREELISTS {
      NothingFits(a0, home0, size);
      return NoSpace, a0, home0;
    }
    HeadReaches(a0, home0, size, i);
    r, a, home := TakeFrom(a0, home0, size, i);
  }

  /** The loop over the lists. */
  method FirstNonempty(a: Arena, first: nat) returns (i: nat)
    requires |a.freelists| == NUM_FREELISTS
    ensures first <= i && forall k :: first <= k < i && k < NUM_FREELISTS ==> a.freelists[k] == []
    ensures i < NUM_FREELISTS ==> a.freelists[i] != [] && FirstFit(a, first) == Some(a.freelists[i][0])
    ensures i >= NUM_FREELISTS ==> FirstFit(a, first) == None
  {
    i := first;
    while i < NUM_FREELISTS && a.freelists[i] == []
      invariant first <= i && forall k :: first <= k < i && k < NUM_FREELISTS ==> a.freelists[k] == []
      invariant FirstFit(a, first) == FirstFit(a, i)
    {
      i := i + 1;
    }
  }

  // ---------------------------------------------------------------- xfree

  datatype Freeing = Freed | NoSegment | SizeMismatch

  /** The allocated blocks are those of before, without the one of tag `id`. */
  lemma BlocksMinus(a: Arena, home: map<nat, nat>, b: Arena, id: nat)
    requires Inv(a, home) && id in a.tags && a.tags[id].kind == Allocated
    requires forall x :: x in b.tags && b.tags[x].kind == Allocated ==> x in a.tags && x != id && a.tags[x] == b.tags[x]
    requires forall x :: x in a.tags && a.tags[x].kind == Allocated && x != id ==> x in b.tags && b.tags[x] == a.tags[x]
    ensures Blocks(b) == Blocks(a) - {(a.tags[id].base, a.tags[id].size)}
  {
    forall x | x in b.tags && b.tags[x].kind == Allocated
      ensures (b.tags[x].base, b.tags[x].size) != (a.tags[id].base, a.tags[id].size)
    {
      SegmentsApart(a, home, None, x, id);
    }
  }

  /** The search of the hash bucket. */
  method FindBlock(a: Arena, ghost home: map<nat, nat>, addr: nat) returns (id: Option<nat>)
    requires Inv(a, home)
    ensures id.Some? ==> id.value in a.tags && a.tags[id.value].kind == Allocated && a.tags[id.value].base == addr
    ensures id.None? ==> forall x :: x in a.tags && a.tags[x].kind == Allocated ==> a.tags[x].base != addr
  {
    var b := a.hash(addr) % NUM_BUCKETS;
    var bucket := a.buckets[b];
    ghost var where := HashWhere(a.hash, a.tags, None);
    assert ListOk(a.buckets, where, b);
    var i := 0;
    while i < |bucket|
      invariant 0 <= i <= |bucket|
      invariant forall j :: 0 <= j < i ==> bucket[j] in a.tags && a.tags[bucket[j]].base != addr
    {
      assert bucket[i] in bucket && bucket[i] in where;
      if a.tags[bucket[i]].base == addr {
        return Some(bucket[i]);
      }
      i := i + 1;
    }
    forall x | x in a.tags && a.tags[x].kind == Allocated
      ensures a.tags[x].base != addr
    {
      assert x in where;
      assert where[x] == b ==> x in bucket;
    }
    return None;
  }

  /** The neighbour `y`, which is free, swallows segment `x`. */
  method Absorb(a0: Arena, span: nat, l: seq<nat>, x: nat, y: nat, r: seq<nat>) returns (a: Arena)
    requires CanAbsorb(a0, x, y)
    ensures a == Absorbed(a0, span, l, x, y, r)
  {
    var tx, ty := a0.tags[x], a0.tags[y];
    var base, size := if tx.base < ty.base then tx.base else ty.base, tx.size + ty.size;
    // expand_free_segment
    var k, k' := Log(ty.size), Log(size);
    a := a0.(tags := a0.tags[y := Tag(base, size, Free)]);
    if k' != k {
      a := a.(freelists := a.freelists[k := Without(a.freelists[k], y)]);
      a := a.(freelists := a.freelists[k' := a.freelists[k'] + [y]]);
    }
    a := a.(segments := a.segments[span := l + [y] + r]);
    if tx.kind == Free {
      a := a.(freelists := a.freelists[Log(tx.size) := Without(a.freelists[Log(tx.size)], x)]);
    }
    a := a.(tags := a.tags - {x}, pool := a.pool + [x]);
    assert (a0.tags - {x})[y := Tag(base, size, Free)] == a.tags;
  }

  /** Outside span `s` no two neighbours are free. */
  ghost predicate CoalescedBut(a: Arena, s: nat) {
    forall t {:trigger a.segments[t]} :: t in a.segments && t != s ==> NoAdjacentFree(a.tags, a.segments[t])
  }

  lemma OthersApart(a: Arena, home: map<nat, nat>, b: Arena, s: nat, l: seq<nat>, mid: seq<nat>, mid': seq<nat>, r: seq<nat>)
    requires SpansOk(a, home) && HomeOk(a, home) && Exchanged(a, b, s, l, mid, mid', r) && CoalescedBut(a, s)
    ensures CoalescedBut(b, s)
  {
    forall t | t in b.segments && t != s
      ensures NoAdjacentFree(b.tags, b.segments[t])
    {
      ExchangeOther(a, home, b, s, l, mid, mid', r, t);
    }
  }

  lemma AllApart(a: Arena, s: nat)
    requires CoalescedBut(a, s) && s in a.segments && NoAdjacentFree(a.tags, a.segments[s])
    ensures Coalesced(a)
  {
    forall t | t in a.segments
      ensures NoAdjacentFree(a.tags, a.segments[t])
    {
    }
  }

  /** A block that is about to be freed, with its surroundings in the tag list. */
  ghost predicate Freeing0(a: Arena, home: map<nat, nat>, id: nat, s: nat, l: seq<nat>, r: seq<nat>) {
    && Core(a, home, Some(id)) && Coalesced(a) && id in a.tags && a.tags[id].kind == Allocated
    && s in a.spans && s in a.segments && a.segments[s] == l + [id] + r
  }

  lemma FreeAlone(a: Arena, home: map<nat, nat>, id: nat, s: nat, l: seq<nat>, r: seq<nat>)
    requires Freeing0(a, home, id, s, l, r)
    requires (l == [] || !IsFree(a.tags, l[|l| - 1])) && (r == [] || !IsFree(a.tags, r[0]))
    ensures a.tags[id].size > 0 && Log(a.tags[id].size) < |a.freelists| && Inv(Released(a, id), home)
  {
    ReleasedCore(a, home, s, l, id, r);
    var b := Released(a, id);
    Located(a, home, Some(id), s, l, id, r);
    ExchangeFacts(a, home, b, s, l, [id], [id], r);
    ApartParts(a.tags, l, [id], r);
    ApartJoin(a.tags, b.tags, l, id, r);
    OthersApart(a, home, b, s, l, [id], [id], r);
    AllApart(b, s);
  }

  /** After the left neighbour has swallowed the block only its right neighbour is in question. */
  lemma FreeLeft(a: Arena, home: map<nat, nat>, id: nat, s: nat, l0: seq<nat>, left: nat, r: seq<nat>)
    requires Freeing0(a, home, id, s, l0 + [left], r) && IsFree(a.tags, left)
    ensures CanAbsorb(a, id, left)
    ensures var b, home' := Absorbed(a, s, l0, id, left, r), Rehomed(home, s, [left, id], [left]);
            && Core(b, home', None) && CoalescedBut(b, s) && b.segments[s] == l0 + [left] + r
            && NoAdjacentFree(b.tags, l0) && NoAdjacentFree(b.tags, r) && (l0 == [] || !IsFree(b.tags, l0[|l0| - 1]))
            && (forall x :: x in l0 || x in r ==> x in a.tags && x in b.tags && b.tags[x] == a.tags[x])
            && ((r == [] || !IsFree(a.tags, r[0])) ==> Inv(b, home'))
  {
    assert l0 + [left] + [id] + r == l0 + Pair(id, left, false) + r;
    AbsorbedCore(a, home, Some(id), s, l0, id, left, false, r);
    var b := Absorbed(a, s, l0, id, left, r);
    ExchangeFacts(a, home, b, s, l0, [left, id], [left], r);
    OthersApart(a, home, b, s, l0, [left, id], [left], r);
    ApartParts(a.tags, l0, [left, id], r);
    Reapart(a.tags, b.tags, l0);
    Reapart(a.tags, b.tags, r);
    assert l0 != [] ==> l0[|l0| - 1] in l0;
    if r == [] || !IsFree(a.tags, r[0]) {
      ApartJoin(a.tags, b.tags, l0, left, r);
      AllApart(b, s);
    }
  }

  lemma Reapart(tags: map<nat, Tag>, tags': map<nat, Tag>, ids: seq<nat>)
    requires NoAdjacentFree(tags, ids) && forall x :: x in ids ==> x in tags && x in tags' && tags'[x] == tags[x]
    ensures NoAdjacentFree(tags', ids)
  {
    forall i, j | 0 <= i && j == i + 1 < |ids| && ids[i] in tags' && ids[j] in tags'
      ensures !(tags'[ids[i]].kind == Free && tags'[ids[j]].kind == Free)
    {
      assert ids[i] in ids && ids[j] in ids;
    }
  }

  lemma FreeRight(a: Arena, home: map<nat, nat>, id: nat, s: nat, l: seq<nat>, right: nat, r0: seq<nat>)
    requires Freeing0(a, home, id, s, l, [right] + r0) && IsFree(a.tags, right) && (l == [] || !IsFree(a.tags, l[|l| - 1]))
    ensures CanAbsorb(a, id, right)
    ensures Inv(Absorbed(a, s, l, id, right, r0), Rehomed(home, s, [id, right], [right]))
  {
    assert l + [id] + ([right] + r0) == l + Pair(id, right, true) + r0;
    AbsorbedCore(a, home, Some(id), s, l, id, right, true, r0);
    var b := Absorbed(a, s, l, id, right, r0);
    ExchangeFacts(a, home, b, s, l, [id, right], [right], r0);
    OthersApart(a, home, b, s, l, [id, right], [right], r0);
    ApartParts(a.tags, l, [id, right], r0);
    ApartJoin(a.tags, b.tags, l, right, r0);
    AllApart(b, s);
  }

  /** After both: the merged left neighbour is swallowed in its turn. */
  lemma FreeBoth(a: Arena, home: map<nat, nat>, s: nat, l0: seq<nat>, left: nat, right: nat, r0: seq<nat>)
    requires Core(a, home, None) && CoalescedBut(a, s) && s in a.spans && s in a.segments && a.segments[s] == l0 + [left] + ([right] + r0)
    requires IsFree(a.tags, left) && IsFree(a.tags, right) && NoAdjacentFree(a.tags, l0) && NoAdjacentFree(a.tags, [right] + r0)
    requires l0 == [] || !IsFree(a.tags, l0[|l0| - 1])
    ensures CanAbsorb(a, left, right)
    ensures Inv(Absorbed(a, s, l0, left, right, r0), Rehomed(home, s, [left, right], [right]))
  {
    assert l0 + [left] + ([right] + r0) == l0 + Pair(left, right, true) + r0;
    AbsorbedCore(a, home, None, s, l0, left, right, true, r0);
    var b := Absorbed(a, s, l0, left, right, r0);
    ExchangeFacts(a, home, b, s, l0, [left, right], [right], r0);
    OthersApart(a, home, b, s, l0, [left, right], [right], r0);
    HeadApart(a.tags, right, r0);
    ApartJoin(a.tags, b.tags, l0, right, r0);
    AllApart(b, s);
  }

  lemma HeadApart(tags: map<nat, Tag>, first: nat, rest: seq<nat>)
    requires NoAdjacentFree(tags, [first] + rest)
    ensures NoAdjacentFree(tags, rest) && (IsFree(tags, first) && rest != [] ==> !IsFree(tags, rest[0]))
  {
    assert [] + [first] + rest == [first] + rest;
    ApartParts(tags, [], [first], rest);
  }

  /** The allocated tags other than `id` are as they were, and `id` is not one of them any more. */
  ghost predicate Survive(a: Arena, b: Arena, id: nat) {
    && (forall x :: x in b.tags && b.tags[x].kind == Allocated ==> x in a.tags && x != id && a.tags[x] == b.tags[x])
    && (forall x :: x in a.tags && a.tags[x].kind == Allocated && x != id ==> x in b.tags && b.tags[x] == a.tags[x])
  }

  lemma AbsorbSurvives(a: Arena, s: nat, l: seq<nat>, x: nat, y: nat, r: seq<nat>)
    requires CanAbsorb(a, x, y)
    ensures Survive(a, Absorbed(a, s, l, x, y, r), x)
  {
  }

  /** What happens to the freelists: the neighbour keeps its place unless it has outgrown its list. */
  lemma AbsorbedJoined(a: Arena, s: nat, l: seq<nat>, x: nat, y: nat, r: seq<nat>)
    requires CanAbsorb(a, x, y) && Filed(a.freelists, FreeWhere(a.tags))
    ensures AllJoined(a.freelists, Absorbed(a, s, l, x, y, r).freelists, x, y)
  {
    var lists, where, k' := a.freelists, FreeWhere(a.tags), Log(a.tags[x].size + a.tags[y].size);
    assert y in where && (x in where <==> a.tags[x].kind == Free);
    forall j: nat | j < |lists|
      ensures Joined(lists[j], Gone(Expanded(lists, y, where[y], k'), where, x)[j], x, y)
    {
      ExpandedJoined(lists, where, x, y, k', j);
    }
  }

  function Gone(lists: seq<seq<nat>>, where: map<nat, nat>, x: nat): (r: seq<seq<nat>>)
    ensures |r| == |lists|
  {
    if x in where && where[x] < |lists| then lists[where[x] := Without(lists[where[x]], x)] else lists
  }

  lemma ExpandedJoined(lists: seq<seq<nat>>, where: map<nat, nat>, x: nat, y: nat, k: nat, j: nat)
    requires Filed(lists, where) && y in where && x != y && k < |lists| && j < |lists|
    ensures Joined(lists[j], Gone(Expanded(lists, y, where[y], k), where, x)[j], x, y)
  {
    assert ListOk(lists, where, j);
    ListJoined(lists[j], x, y, j == where[y] && k != where[y], j == k && k != where[y]);
  }

  lemma ListJoined(list: seq<nat>, x: nat, y: nat, leaves: bool, joins: bool)
    requires x != y && (leaves ==> y in list && !joins) && (joins ==> y !in list)
    ensures var next := if leaves then Without(list, y) else if joins then list + [y] else list;
            Joined(list, Without(next, x), x, y) && (x !in list ==> Without(next, x) == next)
  {
    WithoutBoth(list, x, y);
    WithoutPush(list, y, x);
    if x !in list {
      WithoutAbsent(list, x);
      WithoutAbsent(Without(list, y), x);
    }
  }

  lemma BlockUnlisted(a: Arena, id: nat)
    requires Filed(a.freelists, FreeWhere(a.tags)) && id in a.tags && a.tags[id].kind == Allocated
    ensures forall j :: 0 <= j < |a.freelists| ==> id !in a.freelists[j]
  {
    forall j: nat | j < |a.freelists|
      ensures id !in a.freelists[j]
    {
      assert ListOk(a.freelists, FreeWhere(a.tags), j);
    }
  }

  lemma ReleasedJoined(a: Arena, id: nat)
    requires id in a.tags && a.tags[id].kind == Allocated && a.tags[id].size > 0 && Log(a.tags[id].size) < |a.freelists|
    requires Filed(a.freelists, FreeWhere(a.tags))
    ensures AllJoined(a.freelists, Released(a, id).freelists, id, id)
  {
    forall j: nat | j < |a.freelists|
      ensures Joined(a.freelists[j], Released(a, id).freelists[j], id, id)
    {
      assert ListOk(a.freelists, FreeWhere(a.tags), j);
      WithoutAbsent(a.freelists[j], id);
    }
  }

  /** One free segment takes over from another, or joins; the rest of the freelists is as it was. */
  ghost predicate Rejoined(before: seq<seq<nat>>, after: seq<seq<nat>>) {
    exists x: nat, y: nat :: AllJoined(before, after, x, y)
  }

  /** Absorbing a free segment, after the block has been absorbed, does not concern the allocated ones. */
  lemma SurviveTwice(a: Arena, b: Arena, c: Arena, id: nat, left: nat)
    requires Survive(a, b, id) && Survive(b, c, left) && left in b.tags && b.tags[left].kind == Free
    ensures Survive(a, c, id)
  {
  }

  /** The block has become part of its left neighbour; what is to the right of it is still to be looked at. */
  ghost predicate LeftMerged(a: Arena, home: map<nat, nat>, s: nat, l0: seq<nat>, left: nat, r: seq<nat>) {
    && Core(a, home, None) && CoalescedBut(a, s) && s in a.spans && s in a.segments && a.segments[s] == l0 + [left] + r
    && IsFree(a.tags, left) && NoAdjacentFree(a.tags, l0) && NoAdjacentFree(a.tags, r)
    && (l0 == [] || !IsFree(a.tags, l0[|l0| - 1]))
  }

  method AbsorbLeft(a0: Arena, ghost home0: map<nat, nat>, id: nat, s: nat, l0: seq<nat>, left: nat, r: seq<nat>)
    returns (a: Arena, ghost home: map<nat, nat>)
    requires Freeing0(a0, home0, id, s, l0 + [left], r) && IsFree(a0.tags, left)
    ensures LeftMerged(a, home, s, l0, left, r) && Survive(a0, a, id) && (forall x :: x in r ==> x in a.tags)
    ensures AllJoined(a0.freelists, a.freelists, id, left)
    ensures (r == [] || !IsFree(a.tags, r[0])) ==> Inv(a, home)
  {
    FreeLeft(a0, home0, id, s, l0, left, r);
    AbsorbSurvives(a0, s, l0, id, left, r);
    AbsorbedJoined(a0, s, l0, id, left, r);
    a := Absorb(a0, s, l0, id, left, r);
    home := Rehomed(home0, s, [left, id], [left]);
    assert r != [] ==> r[0] in r;
  }

  method CoalesceBoth(a0: Arena, ghost home0: map<nat, nat>, s: nat, l0: seq<nat>, left: nat, right: nat, r0: seq<nat>)
    returns (a: Arena, ghost home: map<nat, nat>)
    requires LeftMerged(a0, home0, s, l0, left, [right] + r0) && IsFree(a0.tags, right)
    ensures Inv(a, home) && Survive(a0, a, left) && AllJoined(a0.freelists, a.freelists, left, right) && left != right
  {
    FreeBoth(a0, home0, s, l0, left, right, r0);
    AbsorbSurvives(a0, s, l0, left, right, r0);
    AbsorbedJoined(a0, s, l0, left, right, r0);
    a := Absorb(a0, s, l0, left, right, r0);
    home := Rehomed(home0, s, [left, right], [right]);
  }

  method CoalesceRight(a0: Arena, ghost home0: map<nat, nat>, id: nat, s: nat, l: seq<nat>, right: nat, r0: seq<nat>)
    returns (a: Arena, ghost home: map<nat, nat>)
    requires Freeing0(a0, home0, id, s, l, [right] + r0) && IsFree(a0.tags, right) && (l == [] || !IsFree(a0.tags, l[|l| - 1]))
    ensures Inv(a, home) && Survive(a0, a, id) && Rejoined(a0.freelists, a.freelists)
  {
    FreeRight(a0, home0, id, s, l, right, r0);
    AbsorbSurvives(a0, s, l, id, right, r0);
    AbsorbedJoined(a0, s, l, id, right, r0);
    a := Absorb(a0, s, l, id, right, r0);
    home := Rehomed(home0, s, [id, right], [right]);
  }

  /** The left neighbour is free: it swallows the block, and then perhaps the right neighbour swallows it. */
  method CoalesceLeft(a0: Arena, ghost home0: map<nat, nat>, id: nat, s: nat, l0: seq<nat>, left: nat, r: seq<nat>)
    returns (a: Arena, ghost home: map<nat, nat>)
    requires Freeing0(a0, home0, id, s, l0 + [left], r) && IsFree(a0.tags, left)
    ensures Inv(a, home) && Survive(a0, a, id) && Rejoined(a0.freelists, a.freelists)
  {
    a, home := AbsorbLeft(a0, home0, id, s, l0, left, r);
    assert r != [] ==> r[0] in r && r == [r[0]] + r[1..];
    if r != [] && a.tags[r[0]].kind == Free {
      ghost var b := a;
      a, home := CoalesceBoth(a, home, s, l0, left, r[0], r[1..]);
      SurviveTwice(a0, b, a, id, left);
      BlockUnlisted(a0, id);
      JoinedTwice(a0.freelists, b.freelists, a.freelists, id, left, r[0]);
    }
  }

  method Release(a0: Arena, id: nat) returns (a: Arena)
    requires id in a0.tags && a0.tags[id].size > 0 && Log(a0.tags[id].size) < |a0.freelists|
    ensures a == Released(a0, id) && Survive(a0, a, id)
  {
    a := a0.(tags := a0.tags[id := a0.tags[id].(kind := Free)]);
    var k := Log(a.tags[id].size);
    a := a.(freelists := a.freelists[k := a.freelists[k] + [id]]);
  }

  /** The coalescing part of xfree, for a block that has left the hash table. */
  method Coalesce(a0: Arena, ghost home0: map<nat, nat>, id: nat, s: nat, l: seq<nat>, r: seq<nat>) returns (a: Arena, ghost home: map<nat, nat>)
    requires Freeing0(a0, home0, id, s, l, r)
    ensures Inv(a, home) && Survive(a0, a, id) && Rejoined(a0.freelists, a.freelists)
  {
    Located(a0, home0, Some(id), s, l, id, r);
    assert l != [] ==> l[|l| - 1] in l && l == l[..|l| - 1] + [l[|l| - 1]];
    assert r != [] ==> r[0] in r && r == [r[0]] + r[1..];
    if l != [] && a0.tags[l[|l| - 1]].kind == Free {
      a, home := CoalesceLeft(a0, home0, id, s, l[..|l| - 1], l[|l| - 1], r);
    } else if r != [] && a0.tags[r[0]].kind == Free {
      a, home := CoalesceRight(a0, home0, id, s, l, r[0], r[1..]);
    } else {
      FreeAlone(a0, home0, id, s, l, r);
      ReleasedJoined(a0, id);
      a := Release(a0, id);
      home := home0;
    }
  }

  /** xfree: the block is gone, its neighbours are joined, and every other block is where it was. */
  method XFree(a0: Arena, ghost home0: map<nat, nat>, addr: nat, size: nat) returns (r: Freeing, a: Arena, ghost home: map<nat, nat>)
    requires Inv(a0, home0)
    ensures r.NoSegment? <==> forall b :: b in Blocks(a0) ==> b.0 != addr
    ensures r.SizeMismatch? <==> size != 0 && (exists b :: b in Blocks(a0) && b.0 == addr && b.1 != size)
    ensures r.Freed? ==> Inv(a, home) && exists n :: (addr, n) in Blocks(a0) && Blocks(a) == Blocks(a0) - {(addr, n)} && (size != 0 ==> n == size)
    ensures r.Freed? ==> Rejoined(a0.freelists, a.freelists)
  {
    a, home := a0, home0;
    var found := FindBlock(a, home, addr);
    if found.None? {
      return NoSegment, a, home;
    }
    var id := found.value;
    ghost var n := a.tags[id].size;
    assert (addr, n) in Blocks(a0);
    OneBlockAt(a0, home0, id);
    if size != 0 && size != a.tags[id].size {
      return SizeMismatch, a, home;
    }
    UnhashedCore(a, home, id);
    var b := a.hash(addr) % NUM_BUCKETS;
    a := a.(buckets := a.buckets[b := Without(a.buckets[b], id)]);
    assert a == Unhashed(a0, id);
    var s, l, rest := Locate(a, home, Some(id), id);
    a, home := Coalesce(a, home, id, s, l, rest);
    BlocksMinus(a0, home0, a, id);
    return Freed, a, home;
  }

  /** At most one block starts at an address. */
  lemma OneBlockAt(a: Arena, home: map<nat, nat>, id: nat)
    requires Inv(a, home) && id in a.tags && a.tags[id].kind == Allocated
    ensures forall b :: b in Blocks(a) && b.0 == a.tags[id].base ==> b == (a.tags[id].base, a.tags[id].size)
  {
    forall b | b in Blocks(a) && b.0 == a.tags[id].base
      ensures b == (a.tags[id].base, a.tags[id].size)
    {
      var x :| x in a.tags && a.tags[x].kind == Allocated && (a.tags[x].base, a.tags[x].size) == b;
      if x != id {
        SegmentsApart(a, home, None, x, id);
      }
    }
  }
}
