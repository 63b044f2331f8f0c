/** The operations of the vmem arena: add, xalloc and xfree with coalescing. */
module VmemOps {
  import opened Common
  import opened Vmem

  // ---------------------------------------------------------------- exchanging a run of segments

  lemma NoDupParts(l: seq<nat>, m: seq<nat>, r: seq<nat>)
    requires NoDup(l + m + r)
    ensures NoDup(l) && NoDup(m) && NoDup(r)
    ensures (forall x :: x in l ==> x !in m && x !in r) && (forall x :: x in m ==> x !in r)
  {
    var s := l + m + r;
    forall i, j | 0 <= i < j < |l| ensures l[i] != l[j] { assert s[i] == l[i] && s[j] == l[j]; }
    forall i, j | 0 <= i < j < |m| ensures m[i] != m[j] { assert s[|l| + i] == m[i] && s[|l| + j] == m[j]; }
    forall i, j | 0 <= i < j < |r| ensures r[i] != r[j] { assert s[|l| + |m| + i] == r[i] && s[|l| + |m| + j] == r[j]; }
    forall i, j | 0 <= i < |l| && 0 <= j < |m| ensures l[i] != m[j] { assert s[i] == l[i] && s[|l| + j] == m[j]; }
    forall i, j | 0 <= i < |l| && 0 <= j < |r| ensures l[i] != r[j] { assert s[i] == l[i] && s[|l| + |m| + j] == r[j]; }
    forall i, j | 0 <= i < |m| && 0 <= j < |r| ensures m[i] != r[j] { assert s[|l| + i] == m[i] && s[|l| + |m| + j] == r[j]; }
  }

  lemma NoDupJoin(l: seq<nat>, m: seq<nat>)
    requires NoDup(l) && NoDup(m) && forall x :: x in l ==> x !in m
    ensures NoDup(l + m)
  {
    var s := l + m;
    forall i, j | 0 <= i < j < |s|
      ensures s[i] != s[j]
    {
      if i < |l| && j >= |l| {
        assert l[i] in l && m[j - |l|] in m;
      }
    }
  }

  /** What becomes of one tag: it is in the new run, or has gone with the old one, or is as it was. */
  ghost predicate TagAfter(a: Arena, b: Arena, mid: seq<nat>, mid': seq<nat>, x: nat) {
    if x in mid' then x in b.tags && b.tags[x].kind != Span && (x in mid || x !in a.tags)
    else if x in mid then x !in b.tags
    else (x in b.tags <==> x in a.tags) && (x in a.tags && x in b.tags ==> b.tags[x] == a.tags[x])
  }

  /** Arena `b` differs from `a` only in that the run `mid` of span `s` has become the run `mid'`. */
  ghost predicate Exchanged(a: Arena, b: Arena, s: nat, l: seq<nat>, mid: seq<nat>, mid': seq<nat>, r: seq<nat>) {
    && s in a.spans && s in a.segments && a.segments[s] == l + mid + r
    && b.spans == a.spans && b.segments == a.segments[s := l + mid' + r] && b.hash == a.hash
    && NoDup(mid')
    && (forall x: nat {:trigger TagAfter(a, b, mid, mid', x)} :: TagAfter(a, b, mid, mid', x))
    && s in a.tags && var from := Reach(a.tags, l, a.tags[s].base); Tiles(b.tags, mid', from, Reach(a.tags, mid, from))
  }

  ghost function Rehomed(home: map<nat, nat>, s: nat, mid: seq<nat>, mid': seq<nat>): map<nat, nat> {
    (map x | x in home && x !in mid :: home[x]) + (map x | x in mid' :: s)
  }

  /** The segments that stay are not in the run that is exchanged. */
  lemma ExchangeFacts(a: Arena, home: map<nat, nat>, b: Arena, s: nat, l: seq<nat>, mid: seq<nat>, mid': seq<nat>, r: seq<nat>)
    requires SpansOk(a, home) && HomeOk(a, home) && Exchanged(a, b, s, l, mid, mid', r)
    ensures forall x :: x in l || x in r ==> x in a.tags && x !in mid && x !in mid' && x in b.tags && b.tags[x] == a.tags[x]
    ensures forall x :: x in mid ==> x in home && home[x] == s
    ensures NoDup(l + mid' + r)
  {
    assert SpanOk(a, home, s);
    NoDupParts(l, mid, r);
    forall x | x in l || x in mid || x in r
      ensures x in home && home[x] == s && x in a.tags
      ensures x !in mid ==> x !in mid' && x in b.tags && b.tags[x] == a.tags[x]
    {
      assert x in a.segments[s];
      assert HomeAt(a, home, x) && TagAfter(a, b, mid, mid', x);
    }
    NoDupJoin(l, mid');
    NoDupJoin(l + mid', r);
  }

  lemma ExchangeSpan(a: Arena, home: map<nat, nat>, b: Arena, s: nat, l: seq<nat>, mid: seq<nat>, mid': seq<nat>, r: seq<nat>)
    requires SpansOk(a, home) && HomeOk(a, home) && Exchanged(a, b, s, l, mid, mid', r)
    ensures SpanOk(b, Rehomed(home, s, mid, mid'), s)
  {
    var home' := Rehomed(home, s, mid, mid');
    assert SpanOk(a, home, s);
    ExchangeFacts(a, home, b, s, l, mid, mid', r);
    TilesSplice(a.tags, b.tags, l, mid, mid', r, a.tags[s].base, a.tags[s].End());
    SpanKept(a, home, b, s, l, mid, mid', r, s);
    forall x
      ensures x in l + mid' + r <==> x in home' && home'[x] == s
    {
      assert x in l + mid + r <==> x in home && home[x] == s;
    }
  }

  /** Span tags are not touched. */
  lemma SpanKept(a: Arena, home: map<nat, nat>, b: Arena, s: nat, l: seq<nat>, mid: seq<nat>, mid': seq<nat>, r: seq<nat>, t: nat)
    requires SpansOk(a, home) && HomeOk(a, home) && Exchanged(a, b, s, l, mid, mid', r) && t in a.spans
    ensures t in a.tags && t in b.tags && b.tags[t] == a.tags[t] && a.tags[t].kind == Span && t !in home && t !in mid && t !in mid'
  {
    ExchangeFacts(a, home, b, s, l, mid, mid', r);
    assert SpanIff(a, t) && HomeAt(a, home, t) && TagAfter(a, b, mid, mid', t);
  }

  lemma ExchangeOther(a: Arena, home: map<nat, nat>, b: Arena, s: nat, l: seq<nat>, mid: seq<nat>, mid': seq<nat>, r: seq<nat>, t: nat)
    requires SpansOk(a, home) && HomeOk(a, home) && Exchanged(a, b, s, l, mid, mid', r) && t in a.spans && t != s
    ensures SpanOk(b, Rehomed(home, s, mid, mid'), t)
    ensures forall x :: x in a.segments[t] ==> x in a.tags && x in b.tags && b.tags[x] == a.tags[x]
  {
    var home' := Rehomed(home, s, mid, mid');
    assert SpanOk(a, home, t);
    ExchangeFacts(a, home, b, s, l, mid, mid', r);
    SpanKept(a, home, b, s, l, mid, mid', r, t);
    forall x
      ensures x in a.segments[t] ==> x in a.tags && x in b.tags && b.tags[x] == a.tags[x]
      ensures x in a.segments[t] <==> x in home' && home'[x] == t
    {
      assert x in a.segments[t] <==> x in home && home[x] == t;
      if x in a.segments[t] {
        assert HomeAt(a, home, x) && TagAfter(a, b, mid, mid', x);
      }
    }
    TilesFrame(a.tags, b.tags, a.segments[t], a.tags[t].base, a.tags[t].End());
  }

  /** Everything about spans and segments survives the exchange. */
  lemma ExchangeOk(a: Arena, home: map<nat, nat>, b: Arena, s: nat, l: seq<nat>, mid: seq<nat>, mid': seq<nat>, r: seq<nat>)
    requires SpansOk(a, home) && HomeOk(a, home) && SpansApart(a) && Exchanged(a, b, s, l, mid, mid', r)
    ensures var home' := Rehomed(home, s, mid, mid'); SpansOk(b, home') && HomeOk(b, home') && SpansApart(b)
  {
    var home' := Rehomed(home, s, mid, mid');
    forall t | t in a.spans
      ensures SpanOk(b, home', t)
    {
      if t == s {
        ExchangeSpan(a, home, b, s, l, mid, mid', r);
      } else {
        ExchangeOther(a, home, b, s, l, mid, mid', r, t);
      }
    }
    ExchangeFacts(a, home, b, s, l, mid, mid', r);
    forall x: nat
      ensures SpanIff(b, x) && HomeAt(b, home', x)
    {
      assert SpanIff(a, x) && HomeAt(a, home, x) && TagAfter(a, b, mid, mid', x);
    }
    forall t: nat, u: nat
      ensures ApartSpans(b, t, u)
    {
      assert ApartSpans(a, t, u);
      if t in a.spans && u in a.spans {
        SpanKept(a, home, b, s, l, mid, mid', r, t);
        SpanKept(a, home, b, s, l, mid, mid', r, u);
      }
    }
  }

  // ---------------------------------------------------------------- neighbours

  ghost function Frees(tags: map<nat, Tag>, ids: seq<nat>): seq<bool> {
    seq(|ids|, i requires 0 <= i < |ids| => ids[i] in tags && tags[ids[i]].kind == Free)
  }

  ghost predicate Alternating(s: seq<bool>) {
    forall i, j {:trigger s[i], s[j]} :: 0 <= i && j == i + 1 < |s| ==> !(s[i] && s[j])
  }

  lemma FreesMean(tags: map<nat, Tag>, ids: seq<nat>)
    requires forall id :: id in ids ==> id in tags
    ensures NoAdjacentFree(tags, ids) <==> Alternating(Frees(tags, ids))
  {
    var f := Frees(tags, ids);
    forall i | 0 <= i < |ids|
      ensures f[i] <==> ids[i] in tags && tags[ids[i]].kind == Free
    {
    }
    forall i | 0 <= i < |ids|
      ensures ids[i] in tags
    {
      assert ids[i] in ids;
    }
  }

  /** A free segment is alone exactly when neither neighbour is free. */
  lemma AlternatingAround(x: seq<bool>, y: seq<bool>, m: bool)
    ensures Alternating(x + [m] + y) <==>
            && Alternating(x) && Alternating(y)
            && (m ==> (x == [] || !x[|x| - 1]) && (y == [] || !y[0]))
  {
    var s, n := x + [m] + y, |x|;
    if Alternating(s) {
      forall i, j | 0 <= i && j == i + 1 < |x| ensures !(x[i] && x[j]) { assert s[i] == x[i] && s[j] == x[j]; }
      forall i, j | 0 <= i && j == i + 1 < |y| ensures !(y[i] && y[j]) { assert s[n + 1 + i] == y[i] && s[n + 1 + j] == y[j]; }
      if m && x != [] { assert s[n - 1] == x[n - 1] && s[n] == m; }
      if m && y != [] { assert s[n] == m && s[n + 1] == y[0]; }
    }
  }

  lemma FreesConcat(tags: map<nat, Tag>, tags': map<nat, Tag>, l: seq<nat>, m: nat, r: seq<nat>)
    requires forall x :: x in l || x in r ==> x in tags && x in tags' && tags'[x] == tags[x]
    ensures Frees(tags', l + [m] + r) == Frees(tags, l) + [m in tags' && tags'[m].kind == Free] + Frees(tags, r)
  {
    var a, b := Frees(tags', l + [m] + r), Frees(tags, l) + [m in tags' && tags'[m].kind == Free] + Frees(tags, r);
    forall i | 0 <= i < |a|
      ensures a[i] == b[i]
    {
      if i < |l| {
        assert l[i] in l;
      } else if i > |l| {
        assert r[i - |l| - 1] in r;
      }
    }
  }

  lemma CoalescedElsewhere(a: Arena, home: map<nat, nat>, b: Arena, s: nat, l: seq<nat>, mid: seq<nat>, mid': seq<nat>, r: seq<nat>)
    requires SpansOk(a, home) && HomeOk(a, home) && Exchanged(a, b, s, l, mid, mid', r)
    requires forall t :: t in a.segments && t != s ==> NoAdjacentFree(a.tags, a.segments[t])
    requires NoAdjacentFree(b.tags, l + mid' + r)
    ensures Coalesced(b)
  {
    forall t | t in b.segments
      ensures NoAdjacentFree(b.tags, b.segments[t])
    {
      if t != s {
        ExchangeOther(a, home, b, s, l, mid, mid', r, t);
      }
    }
  }

  // ---------------------------------------------------------------- the steps

  /** A free segment is handed out whole. */
  ghost function Taken(a: Arena, id: nat): Arena
    requires id in a.tags && a.tags[id].size > 0 && Log(a.tags[id].size) < |a.freelists| && |a.buckets| == NUM_BUCKETS
  {
    var t := a.tags[id];
    var k, b := Log(t.size), a.hash(t.base) % NUM_BUCKETS;
    a.(tags := a.tags[id := t.(kind := Allocated)],
       freelists := a.freelists[k := Without(a.freelists[k], id)],
       buckets := a.buckets[b := [id] + a.buckets[b]])
  }

  lemma Located(a: Arena, home: map<nat, nat>, limbo: Option<nat>, s: nat, l: seq<nat>, id: nat, r: seq<nat>)
    requires Core(a, home, limbo) && s in a.spans && s in a.segments && a.segments[s] == l + [id] + r
    ensures s in a.tags && id in a.tags && a.tags[id].kind != Span && a.tags[id].size > 0 && id !in l && id !in r
    ensures Reach(a.tags, l, a.tags[s].base) == a.tags[id].base
    ensures forall x :: x in l || x in r ==> x in a.tags
    ensures id in home && home[id] == s && s != id && Log(a.tags[id].size) < NUM_FREELISTS
  {
    assert SpanOk(a, home, s);
    assert a.segments[s][|l|] == id;
    assert id in a.segments[s];
    assert HomeAt(a, home, id);
    SegmentSize(a, home, limbo, id);
    NoDupParts(l, [id], r);
    assert l + [id] + r == l + ([id] + r);
    TilesConcat(a.tags, l, [id] + r, a.tags[s].base, a.tags[s].End());
    forall x | x in l || x in r
      ensures x in a.tags
    {
      assert x in a.segments[s];
      assert HomeAt(a, home, x);
    }
  }

  /** A change to one segment in place. */
  lemma RetaggedExchange(a: Arena, home: map<nat, nat>, limbo: Option<nat>, b: Arena, s: nat, l: seq<nat>, id: nat, r: seq<nat>, kind: Kind)
    requires Core(a, home, limbo) && s in a.spans && s in a.segments && a.segments[s] == l + [id] + r && id in a.tags && kind != Span
    requires b.tags == a.tags[id := a.tags[id].(kind := kind)] && b.spans == a.spans && b.segments == a.segments && b.hash == a.hash
    ensures Exchanged(a, b, s, l, [id], [id], r) && Rehomed(home, s, [id], [id]) == home
  {
    Located(a, home, limbo, s, l, id, r);
    assert a.segments[s := l + [id] + r] == a.segments;
    OneTile(a.tags, id);
    OneTile(b.tags, id);
    forall x: nat
      ensures TagAfter(a, b, [id], [id], x)
    {
    }
  }

  lemma OneTile(tags: map<nat, Tag>, id: nat)
    requires id in tags && tags[id].kind != Span && tags[id].size > 0
    ensures Tiles(tags, [id], tags[id].base, tags[id].End()) && Reach(tags, [id], tags[id].base) == tags[id].End()
  {
    assert [id][1..] == [];
  }

  lemma TakenCore(a: Arena, home: map<nat, nat>, s: nat, l: seq<nat>, id: nat, r: seq<nat>)
    requires Inv(a, home) && s in a.spans && s in a.segments && a.segments[s] == l + [id] + r && id in a.tags && a.tags[id].kind == Free
    ensures a.tags[id].size > 0 && Log(a.tags[id].size) < |a.freelists|
    ensures Inv(Taken(a, id), home)
  {
    Located(a, home, None, s, l, id, r);
    var b, t := Taken(a, id), a.tags[id];
    RetaggedExchange(a, home, None, b, s, l, id, r, Allocated);
    ExchangeOk(a, home, b, s, l, [id], [id], r);
    FileRemove(a.freelists, FreeWhere(a.tags), id);
    FileInsert(a.buckets, HashWhere(a.hash, a.tags, None), id, a.hash(t.base) % NUM_BUCKETS);
    TakenWhere(a.hash, a.tags, id);
    StillApart(a, b, s, l, id, r, false);
    CoalescedElsewhere(a, home, b, s, l, [id], [id], r);
  }

  lemma TakenWhere(hash: nat -> nat, tags: map<nat, Tag>, id: nat)
    requires id in tags && tags[id].kind == Free
    ensures var tags' := tags[id := tags[id].(kind := Allocated)];
            && FreeWhere(tags') == FreeWhere(tags) - {id}
            && HashWhere(hash, tags', None) == HashWhere(hash, tags, None)[id := hash(tags[id].base) % NUM_BUCKETS]
  {
  }

  /** Whether a segment that changed kind leaves its span without free neighbours. */
  lemma StillApart(a: Arena, b: Arena, s: nat, l: seq<nat>, id: nat, r: seq<nat>, free: bool)
    requires s in a.segments && a.segments[s] == l + [id] + r && NoAdjacentFree(a.tags, a.segments[s])
    requires forall x :: x in l || x in r ==> x in a.tags && x in b.tags && b.tags[x] == a.tags[x]
    requires id in a.tags && id in b.tags && (b.tags[id].kind == Free <==> free)
    requires free ==> (l == [] || a.tags[l[|l| - 1]].kind != Free) && (r == [] || a.tags[r[0]].kind != Free)
    ensures NoAdjacentFree(b.tags, l + [id] + r)
  {
    FreesMean(a.tags, l + [id] + r);
    FreesMean(b.tags, l + [id] + r);
    FreesConcat(a.tags, a.tags, l, id, r);
    FreesConcat(a.tags, b.tags, l, id, r);
    AlternatingAround(Frees(a.tags, l), Frees(a.tags, r), a.tags[id].kind == Free);
    AlternatingAround(Frees(a.tags, l), Frees(a.tags, r), free);
  }

  /** A free segment that is too large: the front becomes a segment of its own, with a tag from the pool. */
  ghost function Carved(a: Arena, s: nat, l: seq<nat>, id: nat, r: seq<nat>, n: nat): Arena
    requires id in a.tags && 0 < n < a.tags[id].size && Log(a.tags[id].size) < |a.freelists| && Log(a.tags[id].size - n) < |a.freelists|
    requires |a.buckets| == NUM_BUCKETS && a.pool != []
  {
    var t, front := a.tags[id], a.pool[0];
    var k, b := Log(t.size), a.hash(t.base) % NUM_BUCKETS;
    var without := a.freelists[k := Without(a.freelists[k], id)];
    var k' := Log(t.size - n);
    a.(tags := a.tags[front := Tag(t.base, n, Allocated)][id := Tag(t.base + n, t.size - n, Free)],
       segments := a.segments[s := l + [front, id] + r],
       freelists := without[k' := without[k'] + [id]],
       buckets := a.buckets[b := [front] + a.buckets[b]],
       pool := a.pool[1..])
  }

  lemma CarvedExchange(a: Arena, home: map<nat, nat>, s: nat, l: seq<nat>, id: nat, r: seq<nat>, n: nat)
    requires Core(a, home, None) && s in a.spans && s in a.segments && a.segments[s] == l + [id] + r && id in a.tags && a.tags[id].kind == Free
    requires 0 < n < a.tags[id].size && a.pool != []
    requires Log(a.tags[id].size) < |a.freelists| && Log(a.tags[id].size - n) < |a.freelists|
    ensures Exchanged(a, Carved(a, s, l, id, r, n), s, l, [id], [a.pool[0], id], r)
  {
    var b, front := Carved(a, s, l, id, r, n), a.pool[0];
    Located(a, home, None, s, l, id, r);
    assert front in a.pool;
    OneTile(a.tags, id);
    OneTile(b.tags, id);
    assert [front, id][1..] == [id];
    forall x: nat
      ensures TagAfter(a, b, [id], [front, id], x)
    {
    }
  }

  lemma CarvedApart(a: Arena, home: map<nat, nat>, b: Arena, s: nat, l: seq<nat>, id: nat, r: seq<nat>, front: nat)
    requires s in a.segments && a.segments[s] == l + [id] + r && NoAdjacentFree(a.tags, a.segments[s])
    requires id in a.tags && a.tags[id].kind == Free && id in b.tags && b.tags[id].kind == Free && front in b.tags && b.tags[front].kind == Allocated
    requires forall x :: x in l || x in r ==> x in a.tags && x in b.tags && b.tags[x] == a.tags[x]
    ensures NoAdjacentFree(b.tags, l + [front, id] + r)
  {
    assert l + [front, id] + r == (l + [front]) + [id] + r;
    FreesMean(a.tags, l + [id] + r);
    FreesMean(b.tags, (l + [front]) + [id] + r);
    FreesConcat(a.tags, a.tags, l, id, r);
    FreesConcat(b.tags, b.tags, l + [front], id, r);
    AlternatingAround(Frees(a.tags, l), Frees(a.tags, r), true);
    AlternatingAround(Frees(b.tags, l + [front]), Frees(b.tags, r), true);
    FreesConcat(a.tags, b.tags, l, front, []);
    assert l + [front] + [] == l + [front];
    AlternatingAround(Frees(a.tags, l), Frees(a.tags, []), false);
    assert Frees(b.tags, r) == Frees(a.tags, r) by {
      forall i | 0 <= i < |r| ensures Frees(b.tags, r)[i] == Frees(a.tags, r)[i] { assert r[i] in r; }
    }
  }

  lemma CarvedInv(a: Arena, home: map<nat, nat>, s: nat, l: seq<nat>, id: nat, r: seq<nat>, n: nat)
    requires Inv(a, home) && s in a.spans && s in a.segments && a.segments[s] == l + [id] + r && id in a.tags && a.tags[id].kind == Free
    requires 0 < n < a.tags[id].size && a.pool != []
    ensures Log(a.tags[id].size) < |a.freelists| && Log(a.tags[id].size - n) < |a.freelists|
    ensures Inv(Carved(a, s, l, id, r, n), Rehomed(home, s, [id], [a.pool[0], id]))
  {
    Located(a, home, None, s, l, id, r);
    SegmentSize(a, home, None, id);
    LogBound(a.tags[id].size - n);
    var b, t, front := Carved(a, s, l, id, r, n), a.tags[id], a.pool[0];
    assert front in a.pool;
    CarvedExchange(a, home, s, l, id, r, n);
    ExchangeOk(a, home, b, s, l, [id], [front, id], r);
    ExchangeFacts(a, home, b, s, l, [id], [front, id], r);
    CarvedFiled(a, s, l, id, r, n);
    NoDupPop(a.pool);
    CarvedApart(a, home, b, s, l, id, r, front);
    CoalescedElsewhere(a, home, b, s, l, [id], [front, id], r);
  }

  /** A tag moves from its list to the end of another. */
  function Moved(lists: seq<seq<nat>>, id: nat, k: nat, k': nat): seq<seq<nat>>
    requires k < |lists| && k' < |lists|
  {
    var without := lists[k := Without(lists[k], id)];
    without[k' := without[k'] + [id]]
  }

  lemma FileMoved(lists: seq<seq<nat>>, where: map<nat, nat>, id: nat, k': nat)
    requires Filed(lists, where) && id in where && k' < |lists|
    ensures Filed(Moved(lists, id, where[id], k'), where[id := k'])
  {
    FileRemove(lists, where, id);
    FileInsert(lists[where[id] := Without(lists[where[id]], id)], where - {id}, id, k');
    assert (where - {id})[id := k'] == where[id := k'];
  }

  lemma CarvedFiled(a: Arena, s: nat, l: seq<nat>, id: nat, r: seq<nat>, n: nat)
    requires Filed(a.freelists, FreeWhere(a.tags)) && Filed(a.buckets, HashWhere(a.hash, a.tags, None))
    requires id in a.tags && a.tags[id].kind == Free && 0 < n < a.tags[id].size && a.pool != [] && a.pool[0] !in a.tags
    requires Log(a.tags[id].size) < |a.freelists| && Log(a.tags[id].size - n) < |a.freelists| && |a.buckets| == NUM_BUCKETS
    ensures var b := Carved(a, s, l, id, r, n);
            Filed(b.freelists, FreeWhere(b.tags)) && Filed(b.buckets, HashWhere(b.hash, b.tags, None))
  {
    var c, t, front := Carved(a, s, l, id, r, n), a.tags[id], a.pool[0];
    CarvedLists(a.freelists, a.tags, id, front, n);
    CarvedBuckets(a.hash, a.buckets, a.tags, id, front, n);
    assert c.freelists == Moved(a.freelists, id, Log(t.size), Log(t.size - n)) && c.hash == a.hash;
    assert c.tags == a.tags[front := Tag(t.base, n, Allocated)][id := Tag(t.base + n, t.size - n, Free)];
  }

  lemma CarvedLists(lists: seq<seq<nat>>, tags: map<nat, Tag>, id: nat, front: nat, n: nat)
    requires Filed(lists, FreeWhere(tags)) && id in tags && tags[id].kind == Free && 0 < n < tags[id].size && front !in tags
    requires Log(tags[id].size) < |lists| && Log(tags[id].size - n) < |lists|
    ensures var t := tags[id];
            Filed(Moved(lists, id, Log(t.size), Log(t.size - n)), FreeWhere(tags[front := Tag(t.base, n, Allocated)][id := Tag(t.base + n, t.size - n, Free)]))
  {
    FileMoved(lists, FreeWhere(tags), id, Log(tags[id].size - n));
    CarvedFree(tags, id, front, n);
  }

  lemma CarvedBuckets(hash: nat -> nat, buckets: seq<seq<nat>>, tags: map<nat, Tag>, id: nat, front: nat, n: nat)
    requires Filed(buckets, HashWhere(hash, tags, None)) && id in tags && tags[id].kind == Free && 0 < n < tags[id].size && front !in tags
    requires |buckets| == NUM_BUCKETS
    ensures var t := tags[id];
            var b := hash(t.base) % NUM_BUCKETS;
            Filed(buckets[b := [front] + buckets[b]],
                  HashWhere(hash, tags[front := Tag(t.base, n, Allocated)][id := Tag(t.base + n, t.size - n, Free)], None))
  {
    FileInsert(buckets, HashWhere(hash, tags, None), front, hash(tags[id].base) % NUM_BUCKETS);
    CarvedHash(hash, tags, id, front, n);
  }

  lemma CarvedFree(tags: map<nat, Tag>, id: nat, front: nat, n: nat)
    requires id in tags && tags[id].kind == Free && 0 < n < tags[id].size && front !in tags
    ensures var t := tags[id];
            FreeWhere(tags[front := Tag(t.base, n, Allocated)][id := Tag(t.base + n, t.size - n, Free)]) == FreeWhere(tags)[id := Log(t.size - n)]
  {
  }

  lemma CarvedHash(hash: nat -> nat, tags: map<nat, Tag>, id: nat, front: nat, n: nat)
    requires id in tags && tags[id].kind == Free && 0 < n < tags[id].size && front !in tags
    ensures var t := tags[id];
            HashWhere(hash, tags[front := Tag(t.base, n, Allocated)][id := Tag(t.base + n, t.size - n, Free)], None) ==
            HashWhere(hash, tags, None)[front := hash(t.base) % NUM_BUCKETS]
  {
  }

  // ---------------------------------------------------------------- freeing

  /** The segment leaves the hash table. */
  ghost function Unhashed(a: Arena, id: nat): Arena
    requires id in a.tags && |a.buckets| == NUM_BUCKETS
  {
    var b := a.hash(a.tags[id].base) % NUM_BUCKETS;
    a.(buckets := a.buckets[b := Without(a.buckets[b], id)])
  }

  lemma UnhashedCore(a: Arena, home: map<nat, nat>, id: nat)
    requires Core(a, home, None) && id in a.tags && a.tags[id].kind == Allocated
    ensures Core(Unhashed(a, id), home, Some(id))
  {
    var b := Unhashed(a, id);
    FileRemove(a.buckets, HashWhere(a.hash, a.tags, None), id);
    assert HashWhere(b.hash, b.tags, Some(id)) == HashWhere(a.hash, a.tags, None) - {id};
    SameSegments(a, home, b);
  }

  lemma SameSegments(a: Arena, home: map<nat, nat>, b: Arena)
    requires SpansOk(a, home) && HomeOk(a, home) && SpansApart(a)
    requires b.tags == a.tags && b.spans == a.spans && b.segments == a.segments
    ensures SpansOk(b, home) && HomeOk(b, home) && SpansApart(b)
  {
    forall s: nat | s in b.spans
      ensures SpanOk(b, home, s)
    {
      assert SpanOk(a, home, s);
    }
    forall x: nat
      ensures SpanIff(b, x) && HomeAt(b, home, x)
    {
      assert SpanIff(a, x) && HomeAt(a, home, x);
    }
    forall s: nat, t: nat
      ensures ApartSpans(b, s, t)
    {
      assert ApartSpans(a, s, t);
    }
  }

  /** With no free neighbour the segment itself becomes free. */
  ghost function Released(a: Arena, id: nat): Arena
    requires id in a.tags && a.tags[id].size > 0 && Log(a.tags[id].size) < |a.freelists|
  {
    var k := Log(a.tags[id].size);
    a.(tags := a.tags[id := a.tags[id].(kind := Free)], freelists := a.freelists[k := a.freelists[k] + [id]])
  }

  lemma ReleasedCore(a: Arena, home: map<nat, nat>, s: nat, l: seq<nat>, id: nat, r: seq<nat>)
    requires Core(a, home, Some(id)) && s in a.spans && s in a.segments && a.segments[s] == l + [id] + r
    ensures id in a.tags && a.tags[id].size > 0 && Log(a.tags[id].size) < |a.freelists|
    ensures Core(Released(a, id), home, None) && Exchanged(a, Released(a, id), s, l, [id], [id], r)
  {
    Located(a, home, Some(id), s, l, id, r);
    var b, k := Released(a, id), Log(a.tags[id].size);
    RetaggedExchange(a, home, Some(id), b, s, l, id, r, Free);
    ExchangeOk(a, home, b, s, l, [id], [id], r);
    FileInsert(a.freelists, FreeWhere(a.tags), id, k);
    assert FreeWhere(b.tags) == FreeWhere(a.tags)[id := k];
    assert HashWhere(b.hash, b.tags, None) == HashWhere(a.hash, a.tags, Some(id));
  }

  ghost predicate CanAbsorb(a: Arena, x: nat, y: nat) {
    && x in a.tags && y in a.tags && x != y && a.tags[y].size > 0 && a.tags[x].size > 0 && a.tags[y].kind == Free
    && Log(a.tags[y].size) < |a.freelists| && Log(a.tags[x].size) < |a.freelists| && Log(a.tags[x].size + a.tags[y].size) < |a.freelists|
  }

  /** Segment `x`, which is being freed or is free, is swallowed by its free neighbour `y`. */
  ghost function Absorbed(a: Arena, s: nat, l: seq<nat>, x: nat, y: nat, r: seq<nat>): Arena
    requires CanAbsorb(a, x, y)
  {
    var tx, ty := a.tags[x], a.tags[y];
    var lists := Expanded(a.freelists, y, Log(ty.size), Log(tx.size + ty.size));
    a.(tags := (a.tags - {x})[y := Tag(if tx.base < ty.base then tx.base else ty.base, tx.size + ty.size, Free)],
       segments := a.segments[s := l + [y] + r],
       freelists := if tx.kind == Free then lists[Log(tx.size) := Without(lists[Log(tx.size)], x)] else lists,
       pool := a.pool + [x])
  }

  /** expand_free_segment leaves the tag where it is unless its list changes. */
  function Expanded(lists: seq<seq<nat>>, y: nat, k: nat, k': nat): seq<seq<nat>>
    requires k < |lists| && k' < |lists|
  {
    if k' != k then Moved(lists, y, k, k') else lists
  }

  lemma AbsorbedFiled(a: Arena, limbo: Option<nat>, s: nat, l: seq<nat>, x: nat, y: nat, r: seq<nat>)
    requires Filed(a.freelists, FreeWhere(a.tags)) && Filed(a.buckets, HashWhere(a.hash, a.tags, limbo))
    requires CanAbsorb(a, x, y)
    requires limbo == Some(x) || (limbo == None && a.tags[x].kind == Free)
    requires limbo == Some(x) ==> a.tags[x].kind == Allocated
    ensures var b := Absorbed(a, s, l, x, y, r);
            Filed(b.freelists, FreeWhere(b.tags)) && Filed(b.buckets, HashWhere(b.hash, b.tags, None))
  {
    var b, tx, ty := Absorbed(a, s, l, x, y, r), a.tags[x], a.tags[y];
    var where, k' := FreeWhere(a.tags), Log(tx.size + ty.size);
    var lists := Expanded(a.freelists, y, Log(ty.size), k');
    ExpandedFiled(a.freelists, where, y, k');
    AbsorbedWhere(a.tags, b.tags, x, y);
    if tx.kind == Free {
      FileRemove(lists, where[y := k'], x);
    }
    AbsorbedHash(a.hash, a.tags, b.tags, limbo, x, y);
  }

  lemma AbsorbedHash(hash: nat -> nat, tags: map<nat, Tag>, tags': map<nat, Tag>, limbo: Option<nat>, x: nat, y: nat)
    requires x in tags && y in tags && x != y && tags[y].kind == Free
    requires limbo == Some(x) || (limbo == None && tags[x].kind == Free)
    requires y in tags' && tags'[y].kind == Free && tags' == (tags - {x})[y := tags'[y]]
    ensures HashWhere(hash, tags', None) == HashWhere(hash, tags, limbo)
  {
  }

  lemma ExpandedFiled(lists: seq<seq<nat>>, where: map<nat, nat>, y: nat, k': nat)
    requires Filed(lists, where) && y in where && k' < |lists|
    ensures Filed(Expanded(lists, y, where[y], k'), where[y := k'])
  {
    if k' != where[y] {
      FileMoved(lists, where, y, k');
    } else {
      assert where[y := k'] == where;
    }
  }

  lemma AbsorbedWhere(tags: map<nat, Tag>, tags': map<nat, Tag>, x: nat, y: nat)
    requires x in tags && y in tags && x != y && tags[x].size > 0 && tags[y].size > 0 && tags[y].kind == Free
    requires y in tags' && tags' == (tags - {x})[y := Tag(tags'[y].base, tags[x].size + tags[y].size, Free)]
    ensures FreeWhere(tags') == if tags[x].kind == Free then FreeWhere(tags)[y := Log(tags[x].size + tags[y].size)] - {x}
                                else FreeWhere(tags)[y := Log(tags[x].size + tags[y].size)]
  {
  }

  /** The two segments in their order in the tag list. */
  function Pair(x: nat, y: nat, xFirst: bool): seq<nat> {
    if xFirst then [x, y] else [y, x]
  }

  lemma TwoTiles(tags: map<nat, Tag>, ids: seq<nat>, base: nat, end: nat)
    requires |ids| == 2 && Tiles(tags, ids, base, end)
    ensures ids[0] in tags && ids[1] in tags && tags[ids[0]].base == base && tags[ids[1]].base == tags[ids[0]].End() && end == tags[ids[1]].End()
    ensures tags[ids[0]].size > 0 && tags[ids[1]].size > 0 && Reach(tags, ids, base) == end
  {
    var t := ids[1..];
    assert Tiles(tags, t, tags[ids[0]].End(), end) && t[1..] == [];
    assert Tiles(tags, t[1..], tags[t[0]].End(), end);
    assert Reach(tags, t, tags[ids[0]].End()) == Reach(tags, t[1..], tags[t[0]].End());
  }

  lemma AbsorbedExchange(a: Arena, home: map<nat, nat>, limbo: Option<nat>, s: nat, l: seq<nat>, x: nat, y: nat, xFirst: bool, r: seq<nat>)
    requires Core(a, home, limbo) && s in a.spans && s in a.segments && a.segments[s] == l + Pair(x, y, xFirst) + r
    requires x in a.tags && y in a.tags && a.tags[y].kind == Free
    ensures CanAbsorb(a, x, y)
    ensures Exchanged(a, Absorbed(a, s, l, x, y, r), s, l, Pair(x, y, xFirst), [y], r)
  {
    var mid := Pair(x, y, xFirst);
    assert SpanOk(a, home, s);
    NoDupParts(l, mid, r);
    assert mid[0] != mid[1];
    assert l + mid + r == l + (mid + r);
    TilesConcat(a.tags, l, mid + r, a.tags[s].base, a.tags[s].End());
    var from := Reach(a.tags, l, a.tags[s].base);
    TilesConcat(a.tags, mid, r, from, a.tags[s].End());
    TwoTiles(a.tags, mid, from, Reach(a.tags, mid, from));
    assert x in a.segments[s] && y in a.segments[s];
    assert HomeAt(a, home, x) && HomeAt(a, home, y);
    SegmentSize(a, home, limbo, x);
    SegmentSize(a, home, limbo, y);
    LogBound(a.tags[x].size + a.tags[y].size);
    var b := Absorbed(a, s, l, x, y, r);
    OneTile(b.tags, y);
    forall z: nat
      ensures TagAfter(a, b, mid, [y], z)
    {
    }
  }

  lemma AbsorbedCore(a: Arena, home: map<nat, nat>, limbo: Option<nat>, s: nat, l: seq<nat>, x: nat, y: nat, xFirst: bool, r: seq<nat>)
    requires Core(a, home, limbo) && s in a.spans && s in a.segments && a.segments[s] == l + Pair(x, y, xFirst) + r
    requires x in a.tags && y in a.tags && a.tags[y].kind == Free
    requires limbo == Some(x) || (limbo == None && a.tags[x].kind == Free)
    ensures CanAbsorb(a, x, y)
    ensures Exchanged(a, Absorbed(a, s, l, x, y, r), s, l, Pair(x, y, xFirst), [y], r)
    ensures Core(Absorbed(a, s, l, x, y, r), Rehomed(home, s, Pair(x, y, xFirst), [y]), None)
  {
    AbsorbedExchange(a, home, limbo, s, l, x, y, xFirst, r);
    var b := Absorbed(a, s, l, x, y, r);
    ExchangeOk(a, home, b, s, l, Pair(x, y, xFirst), [y], r);
    AbsorbedFiled(a, limbo, s, l, x, y, r);
    assert x !in a.pool;
    NoDupPush(a.pool, x);
    assert |b.tags| == |a.tags| - 1 by {
      assert b.tags.Keys == a.tags.Keys - {x};
      assert |b.tags.Keys| == |a.tags.Keys| - 1;
    }
  }
}
