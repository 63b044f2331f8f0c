/**
  The vmem boundary-tag arena: what it looks like and what holds of it. A tag is known by its
  number; the tag list is kept as one list of segments per span, in the order of the span list.
 */
module Vmem {
  import opened Common

  const NUM_FREELISTS: nat := 64
  const NUM_BUCKETS: nat := 16
  const NUM_TAGS: nat := 128
  const LIMIT: nat := 0x1_0000_0000_0000_0000

  datatype Kind = Free | Allocated | Span

  datatype Tag = Tag(base: nat, size: nat, kind: Kind) {
    function End(): nat { base + size }
  }

  /** Only that `hash` is a function matters. */
  datatype Arena = Arena(
    hash: nat -> nat,
    tags: map<nat, Tag>,
    spans: seq<nat>,
    segments: map<nat, seq<nat>>,
    freelists: seq<seq<nat>>,
    buckets: seq<seq<nat>>,
    pool: seq<nat>)

  // ---------------------------------------------------------------- powers of two

  function Pow(k: nat): (p: nat)
    ensures p > 0
  {
    if k == 0 then 1 else 2 * Pow(k - 1)
  }

  /** freelist_index_for_size: 63 minus the leading zeros of a 64-bit number, the floor of its logarithm. */
  function Log(n: nat): (k: nat)
    requires n > 0
  {
    if n == 1 then 0 else 1 + Log(n / 2)
  }

  lemma {:induction false} LogSpec(n: nat)
    requires n > 0
    ensures Pow(Log(n)) <= n < Pow(Log(n) + 1)
  {
    if n > 1 {
      LogSpec(n / 2);
    }
  }

  lemma {:induction false} PowMono(j: nat, k: nat)
    requires j <= k
    ensures Pow(j) <= Pow(k)
  {
    if j < k {
      PowMono(j, k - 1);
    }
  }

  lemma {:induction false} PowAdd(j: nat, k: nat)
    ensures Pow(j + k) == Pow(j) * Pow(k)
  {
    if k > 0 {
      PowAdd(j, k - 1);
    }
  }

  /** A size is on list k or beyond exactly when it reaches two to the k. */
  lemma LogAtLeast(n: nat, k: nat)
    requires n > 0
    ensures Log(n) >= k <==> n >= Pow(k)
  {
    LogSpec(n);
    if Log(n) >= k {
      PowMono(k, Log(n));
    } else {
      PowMono(Log(n) + 1, k);
    }
  }

  lemma PowDouble(k: nat, v: nat)
    requires Pow(k) == v
    ensures Pow(2 * k) == v * v
  {
    PowAdd(k, k);
  }

  lemma PowerLimit()
    ensures Pow(64) == LIMIT
  {
    assert Pow(4) == 16;
    PowDouble(4, 0x10);
    PowDouble(8, 0x100);
    PowDouble(16, 0x1_0000);
    PowDouble(32, 0x1_0000_0000);
  }

  lemma LogBound(n: nat)
    requires 0 < n < LIMIT
    ensures Log(n) < NUM_FREELISTS
  {
    LogAtLeast(n, 64);
    PowerLimit();
  }

  /** The source's test for powers of two, and the list on which every segment is large enough. */
  predicate IsPower(n: nat)
    requires n > 0
  {
    n == Pow(Log(n))
  }

  function FirstList(size: nat): nat
    requires size > 0
  {
    if IsPower(size) then Log(size) else Log(size) + 1
  }

  lemma FirstListFits(size: nat)
    requires size > 0
    ensures size <= Pow(FirstList(size)) < 2 * size
    ensures FirstList(size) > 0 ==> Pow(FirstList(size) - 1) < size
  {
    LogSpec(size);
  }

  // ---------------------------------------------------------------- lists of tags

  /** List k holds exactly the tags that `where` says, each once. */
  ghost predicate Filed(lists: seq<seq<nat>>, where: map<nat, nat>) {
    && (forall id :: id in where ==> where[id] < |lists|)
    && (forall k: nat {:trigger ListOk(lists, where, k)} :: k < |lists| ==> ListOk(lists, where, k))
  }

  ghost predicate ListOk(lists: seq<seq<nat>>, where: map<nat, nat>, k: nat)
    requires k < |lists|
  {
    && NoDup(lists[k])
    && (forall id :: id in lists[k] <==> id in where && where[id] == k)
  }

  lemma FileInsert(lists: seq<seq<nat>>, where: map<nat, nat>, id: nat, k: nat)
    requires Filed(lists, where) && id !in where && k < |lists|
    ensures Filed(lists[k := lists[k] + [id]], where[id := k])
    ensures Filed(lists[k := [id] + lists[k]], where[id := k])
  {
    assert ListOk(lists, where, k);
    NoDupPush(lists[k], id);
    var a, b, w := lists[k := lists[k] + [id]], lists[k := [id] + lists[k]], where[id := k];
    forall j: nat | j < |lists|
      ensures ListOk(a, w, j) && ListOk(b, w, j)
    {
      assert ListOk(lists, where, j);
    }
  }

  lemma FileRemove(lists: seq<seq<nat>>, where: map<nat, nat>, id: nat)
    requires Filed(lists, where) && id in where
    ensures var k := where[id]; Filed(lists[k := Without(lists[k], id)], where - {id})
  {
    var k := where[id];
    assert ListOk(lists, where, k);
    WithoutNoDup(lists[k], id);
    var a, w := lists[k := Without(lists[k], id)], where - {id};
    forall j: nat | j < |lists|
      ensures ListOk(a, w, j)
    {
      assert ListOk(lists, where, j);
    }
  }

  /** On every list the others are in the order they were in; `id` has left, or joined at the end. */
  ghost predicate Requeued(before: seq<seq<nat>>, after: seq<seq<nat>>, id: nat) {
    && |after| == |before|
    && forall j :: 0 <= j < |after| ==> after[j] == Without(before[j], id) || after[j] == Without(before[j], id) + [id]
  }

  lemma QueuedLast(lists: seq<seq<nat>>, where: map<nat, nat>, id: nat, k: nat)
    requires Filed(lists, where) && id !in where && k < |lists|
    ensures Requeued(lists, lists[k := lists[k] + [id]], id)
  {
    forall j: nat | j < |lists|
      ensures Without(lists[j], id) == lists[j]
    {
      assert ListOk(lists, where, j);
      WithoutAbsent(lists[j], id);
    }
  }

  lemma Unqueued(lists: seq<seq<nat>>, where: map<nat, nat>, id: nat)
    requires Filed(lists, where) && id in where
    ensures Requeued(lists, lists[where[id] := Without(lists[where[id]], id)], id)
  {
    forall j: nat | j < |lists| && j != where[id]
      ensures Without(lists[j], id) == lists[j]
    {
      assert ListOk(lists, where, j);
      WithoutAbsent(lists[j], id);
    }
  }

  /** One list when `y` takes over from `x`: `x` has left; `y` keeps its place unless its list is another one now. */
  ghost predicate Joined(before: seq<nat>, after: seq<nat>, x: nat, y: nat) {
    var rest := Without(before, x);
    if (y in before) == (y in after) then after == rest else after == if y in after then rest + [y] else Without(rest, y)
  }

  ghost predicate AllJoined(before: seq<seq<nat>>, after: seq<seq<nat>>, x: nat, y: nat) {
    |after| == |before| && forall j {:trigger Joined(before[j], after[j], x, y)} :: 0 <= j < |after| ==> Joined(before[j], after[j], x, y)
  }

  /** One merge after another, when the first segment was on no list. */
  lemma JoinedTwice(l0: seq<seq<nat>>, l1: seq<seq<nat>>, l2: seq<seq<nat>>, x: nat, y: nat, z: nat)
    requires AllJoined(l0, l1, x, y) && AllJoined(l1, l2, y, z) && y != z && forall j :: 0 <= j < |l0| ==> x !in l0[j]
    ensures AllJoined(l0, l2, y, z)
  {
    forall j | 0 <= j < |l0|
      ensures Joined(l0[j], l2[j], y, z)
    {
      assert Joined(l0[j], l1[j], x, y) && Joined(l1[j], l2[j], y, z);
      WithoutAbsent(l0[j], x);
      WithoutPush(l0[j], y, y);
      WithoutAbsent(Without(l0[j], y), y);
      assert Without(l1[j], y) == Without(l0[j], y);
      assert z in l1[j] <==> z in l0[j];
    }
  }

  // ---------------------------------------------------------------- tiling

  /** The segments follow one another from `base` to `end` without gap or overlap. */
  ghost predicate Tiles(tags: map<nat, Tag>, ids: seq<nat>, base: nat, end: nat) {
    if ids == [] then base == end
    else
      && ids[0] in tags && tags[ids[0]].base == base && tags[ids[0]].size > 0 && tags[ids[0]].kind != Span
      && Tiles(tags, ids[1..], tags[ids[0]].End(), end)
  }

  ghost function Reach(tags: map<nat, Tag>, ids: seq<nat>, base: nat): nat {
    if ids == [] || ids[0] !in tags then base else Reach(tags, ids[1..], tags[ids[0]].End())
  }

  lemma {:induction false} TilesConcat(tags: map<nat, Tag>, a: seq<nat>, b: seq<nat>, base: nat, end: nat)
    ensures Tiles(tags, a + b, base, end) ==>
              Tiles(tags, a, base, Reach(tags, a, base)) && Tiles(tags, b, Reach(tags, a, base), end)
    ensures forall mid :: Tiles(tags, a, base, mid) && Tiles(tags, b, mid, end) ==> Tiles(tags, a + b, base, end)
  {
    if a == [] {
      assert a + b == b;
    } else {
      assert (a + b)[1..] == a[1..] + b;
      if a[0] in tags {
        TilesConcat(tags, a[1..], b, tags[a[0]].End(), end);
      }
    }
  }

  lemma {:induction false} TilesFrame(tags: map<nat, Tag>, tags': map<nat, Tag>, ids: seq<nat>, base: nat, end: nat)
    requires Tiles(tags, ids, base, end)
    requires forall id :: id in ids && id in tags ==> id in tags' && tags'[id] == tags[id]
    ensures Tiles(tags', ids, base, end)
  {
    if ids != [] {
      assert ids[0] in ids;
      TilesFrame(tags, tags', ids[1..], tags[ids[0]].End(), end);
    }
  }

  /** Every segment of a tiling is a segment and lies between its ends; distinct ones are apart. */
  lemma {:induction false} TilesMember(tags: map<nat, Tag>, ids: seq<nat>, base: nat, end: nat, i: nat)
    requires Tiles(tags, ids, base, end) && i < |ids|
    ensures ids[i] in tags && base <= tags[ids[i]].base && tags[ids[i]].End() <= end && tags[ids[i]].size > 0 && tags[ids[i]].kind != Span
    ensures base <= end
  {
    if i > 0 {
      TilesMember(tags, ids[1..], tags[ids[0]].End(), end, i - 1);
    } else if |ids| > 1 {
      TilesMember(tags, ids[1..], tags[ids[0]].End(), end, 0);
    }
  }

  lemma {:induction false} TilesApart(tags: map<nat, Tag>, ids: seq<nat>, base: nat, end: nat, i: nat, j: nat)
    requires Tiles(tags, ids, base, end) && i < j < |ids|
    ensures ids[i] in tags && ids[j] in tags && tags[ids[i]].End() <= tags[ids[j]].base
  {
    if i == 0 {
      TilesMember(tags, ids[1..], tags[ids[0]].End(), end, j - 1);
    } else {
      TilesApart(tags, ids[1..], tags[ids[0]].End(), end, i - 1, j - 1);
    }
  }

  /** Every address of a tiled stretch is in a segment. */
  lemma {:induction false} TilesCover(tags: map<nat, Tag>, ids: seq<nat>, base: nat, end: nat, x: nat)
    requires Tiles(tags, ids, base, end) && base <= x < end
    ensures exists id :: id in ids && id in tags && tags[id].base <= x < tags[id].End()
  {
    var t := tags[ids[0]];
    if x < t.End() {
      assert ids[0] in ids;
    } else {
      TilesCover(tags, ids[1..], t.End(), end, x);
      var id :| id in ids[1..] && id in tags && tags[id].base <= x < tags[id].End();
      assert id in ids;
    }
  }

  /** A run of segments may be exchanged for another that fills the same stretch. */
  lemma TilesSplice(tags: map<nat, Tag>, tags': map<nat, Tag>, l: seq<nat>, mid: seq<nat>, mid': seq<nat>, r: seq<nat>, base: nat, end: nat)
    requires Tiles(tags, l + mid + r, base, end)
    requires forall id :: (id in l || id in r) && id in tags ==> id in tags' && tags'[id] == tags[id]
    requires var from := Reach(tags, l, base); Tiles(tags', mid', from, Reach(tags, mid, from))
    ensures Tiles(tags', l + mid' + r, base, end)
  {
    var from := Reach(tags, l, base);
    var to := Reach(tags, mid, from);
    assert l + mid + r == l + (mid + r) && l + mid' + r == l + (mid' + r);
    TilesConcat(tags, l, mid + r, base, end);
    TilesConcat(tags, mid, r, from, end);
    TilesFrame(tags, tags', l, base, from);
    TilesFrame(tags, tags', r, to, end);
    TilesConcat(tags', mid', r, from, end);
    TilesConcat(tags', l, mid' + r, base, end);
  }

  // ---------------------------------------------------------------- the invariant

  ghost function FreeWhere(tags: map<nat, Tag>): map<nat, nat> {
    map id | id in tags && tags[id].kind == Free && tags[id].size > 0 :: Log(tags[id].size)
  }

  /** Allocated segments are in the hash table, but for one that is being freed. */
  ghost function HashWhere(hash: nat -> nat, tags: map<nat, Tag>, limbo: Option<nat>): map<nat, nat> {
    map id | id in tags && tags[id].kind == Allocated && limbo != Some(id) :: hash(tags[id].base) % NUM_BUCKETS
  }

  ghost predicate PoolOk(a: Arena) {
    && NoDup(a.pool) && (forall id :: id in a.pool ==> id !in a.tags)
    && |a.pool| + |a.tags| == NUM_TAGS
  }

  /** `home` tells the span of every segment. */
  ghost predicate SpanOk(a: Arena, home: map<nat, nat>, s: nat) {
    && s in a.tags && a.tags[s].kind == Span && s in a.segments && a.tags[s].End() < LIMIT
    && Tiles(a.tags, a.segments[s], a.tags[s].base, a.tags[s].End())
    && NoDup(a.segments[s])
    && (forall id :: id in a.segments[s] <==> id in home && home[id] == s)
  }

  ghost predicate SpanIff(a: Arena, s: nat) {
    s in a.tags && a.tags[s].kind == Span <==> s in a.spans
  }

  ghost predicate SpansOk(a: Arena, home: map<nat, nat>) {
    && NoDup(a.spans) && (forall s: nat {:trigger SpanIff(a, s)} :: SpanIff(a, s))
    && a.segments.Keys == (set s | s in a.spans)
    && (forall s {:trigger SpanOk(a, home, s)} :: s in a.spans ==> SpanOk(a, home, s))
  }

  ghost predicate HomeAt(a: Arena, home: map<nat, nat>, id: nat) {
    (id in home <==> id in a.tags && a.tags[id].kind != Span) && (id in home ==> home[id] in a.spans)
  }

  ghost predicate HomeOk(a: Arena, home: map<nat, nat>) {
    forall id: nat {:trigger HomeAt(a, home, id)} :: HomeAt(a, home, id)
  }

  ghost predicate ApartSpans(a: Arena, s: nat, t: nat) {
    s in a.spans && t in a.spans && s != t && s in a.tags && t in a.tags ==>
      a.tags[s].End() <= a.tags[t].base || a.tags[t].End() <= a.tags[s].base
  }

  ghost predicate SpansApart(a: Arena) {
    forall s: nat, t: nat {:trigger ApartSpans(a, s, t)} :: ApartSpans(a, s, t)
  }

  ghost predicate Core(a: Arena, home: map<nat, nat>, limbo: Option<nat>) {
    // as an equation, so that a proof obligation about it is one fact
    CoreClauses(a, home, limbo) == true
  }

  ghost predicate CoreClauses(a: Arena, home: map<nat, nat>, limbo: Option<nat>) {
    && PoolOk(a) && SpansOk(a, home) && HomeOk(a, home) && SpansApart(a)
    && |a.freelists| == NUM_FREELISTS && |a.buckets| == NUM_BUCKETS
    && Filed(a.freelists, FreeWhere(a.tags)) && Filed(a.buckets, HashWhere(a.hash, a.tags, limbo))
    && (limbo.Some? ==> limbo.value in a.tags && a.tags[limbo.value].kind == Allocated)
  }

  /** No two neighbouring segments are both free. */
  ghost predicate NoAdjacentFree(tags: map<nat, Tag>, ids: seq<nat>) {
    forall i, j {:trigger ids[i], ids[j]} :: 0 <= i < |ids| && j == i + 1 < |ids| && ids[i] in tags && ids[j] in tags ==>
      !(tags[ids[i]].kind == Free && tags[ids[j]].kind == Free)
  }

  ghost predicate Coalesced(a: Arena) {
    forall s {:trigger a.segments[s]} :: s in a.segments ==> NoAdjacentFree(a.tags, a.segments[s])
  }

  ghost predicate Inv(a: Arena, home: map<nat, nat>) {
    Core(a, home, None) && Coalesced(a)
  }

  /** What a client may rely on: the blocks it holds. */
  ghost function Blocks(a: Arena): set<(nat, nat)> {
    BlocksOf(a.tags)
  }

  ghost function BlocksOf(tags: map<nat, Tag>): set<(nat, nat)> {
    set id | id in tags && tags[id].kind == Allocated :: (tags[id].base, tags[id].size)
  }

  /** Two segments of the arena never overlap, whatever spans they are in. */
  lemma SegmentsApart(a: Arena, home: map<nat, nat>, limbo: Option<nat>, x: nat, y: nat)
    requires Core(a, home, limbo) && x in a.tags && y in a.tags && x != y && a.tags[x].kind != Span && a.tags[y].kind != Span
    ensures a.tags[x].End() <= a.tags[y].base || a.tags[y].End() <= a.tags[x].base
    ensures a.tags[x].size > 0 && a.tags[y].size > 0
  {
    assert HomeAt(a, home, x) && HomeAt(a, home, y);
    var s, t := home[x], home[y];
    assert SpanOk(a, home, s) && SpanOk(a, home, t) && ApartSpans(a, s, t);
    var i :| 0 <= i < |a.segments[s]| && a.segments[s][i] == x;
    var j :| 0 <= j < |a.segments[t]| && a.segments[t][j] == y;
    TilesMember(a.tags, a.segments[s], a.tags[s].base, a.tags[s].End(), i);
    TilesMember(a.tags, a.segments[t], a.tags[t].base, a.tags[t].End(), j);
    if s == t {
      if i < j {
        TilesApart(a.tags, a.segments[s], a.tags[s].base, a.tags[s].End(), i, j);
      } else {
        TilesApart(a.tags, a.segments[s], a.tags[s].base, a.tags[s].End(), j, i);
      }
    }
  }

  /** Live blocks are disjoint. */
  lemma BlocksDisjoint(a: Arena, home: map<nat, nat>, b: (nat, nat), c: (nat, nat))
    requires Inv(a, home) && b in Blocks(a) && c in Blocks(a) && b != c
    ensures b.0 + b.1 <= c.0 || c.0 + c.1 <= b.0
  {
    var x :| x in a.tags && a.tags[x].kind == Allocated && (a.tags[x].base, a.tags[x].size) == b;
    var y :| y in a.tags && a.tags[y].kind == Allocated && (a.tags[y].base, a.tags[y].size) == c;
    SegmentsApart(a, home, None, x, y);
  }

  /** Every address of a span is in a segment of that span, and by the lemma above in no other. */
  lemma SpanCovered(a: Arena, home: map<nat, nat>, s: nat, x: nat)
    requires Inv(a, home) && s in a.spans && s in a.tags && a.tags[s].base <= x < a.tags[s].End()
    ensures exists id :: id in home && home[id] == s && id in a.tags && a.tags[id].base <= x < a.tags[id].End()
  {
    assert SpanOk(a, home, s);
    TilesCover(a.tags, a.segments[s], a.tags[s].base, a.tags[s].End(), x);
    var id :| id in a.segments[s] && id in a.tags && a.tags[id].base <= x < a.tags[id].End();
    assert id in home && home[id] == s;
  }

  lemma SegmentSize(a: Arena, home: map<nat, nat>, limbo: Option<nat>, id: nat)
    requires Core(a, home, limbo) && id in a.tags && a.tags[id].kind != Span
    ensures id in home && home[id] in a.spans && home[id] in a.tags && home[id] in a.segments && id in a.segments[home[id]]
    ensures 0 < a.tags[id].size < LIMIT && Log(a.tags[id].size) < NUM_FREELISTS && a.tags[id].End() <= a.tags[home[id]].End() < LIMIT
  {
    assert HomeAt(a, home, id);
    var s := home[id];
    assert SpanOk(a, home, s);
    var i :| 0 <= i < |a.segments[s]| && a.segments[s][i] == id;
    TilesMember(a.tags, a.segments[s], a.tags[s].base, a.tags[s].End(), i);
    LogBound(a.tags[id].size);
  }
}
