/** Open file descriptions: reference counts over the descriptor tables and file mappings of all processes, and the ends of pipes. */
module Files {

  const O_ACCMODE: bv32 := 3
  const O_RDONLY: bv32 := 0
  const O_WRONLY: bv32 := 1
  const O_RDWR: bv32 := 2
  const SETFL_MASK: bv32 := 0x46C00   // O_APPEND | O_ASYNC | O_DIRECT | O_NOATIME | O_NONBLOCK

  datatype Description = Description(refCount: nat, vnode: nat, flags: bv32) {
    predicate CanRead() { flags & O_ACCMODE == O_RDONLY || flags & O_ACCMODE == O_RDWR }
    predicate CanWrite() { flags & O_ACCMODE == O_WRONLY || flags & O_ACCMODE == O_RDWR }
  }

  datatype PipeEnds = PipeEnds(readers: nat, writers: nat)

  /** All descriptions, and the counters of those vnodes that are pipes. */
  datatype Files = Files(descriptions: map<nat, Description>, pipes: map<nat, PipeEnds>, freshId: nat)

  // ---------------------------------------------------------------- the invariant

  ghost function ReaderSet(ds: map<nat, Description>, v: nat): set<nat> {
    set d | d in ds && ds[d].vnode == v && ds[d].CanRead()
  }

  ghost function WriterSet(ds: map<nat, Description>, v: nat): set<nat> {
    set d | d in ds && ds[d].vnode == v && ds[d].CanWrite()
  }

  /** A description exists exactly as long as it is named, and its count is the number of times it is. */
  ghost predicate CountOk(f: Files, refs: multiset<nat>, d: nat) {
    refs[d] == (if d in f.descriptions then f.descriptions[d].refCount else 0)
    && (d in f.descriptions ==> f.descriptions[d].refCount > 0 && d < f.freshId && f.descriptions[d].vnode < f.freshId)
  }

  ghost predicate PipeOk(f: Files, v: nat)
    requires v in f.pipes
  {
    v < f.freshId && f.pipes[v] == PipeEnds(|ReaderSet(f.descriptions, v)|, |WriterSet(f.descriptions, v)|)
  }

  ghost predicate FilesOk(f: Files, refs: multiset<nat>) {
    && (forall d: nat {:trigger CountOk(f, refs, d)} :: CountOk(f, refs, d))
    && (forall v: nat {:trigger PipeOk(f, v)} :: v in f.pipes ==> PipeOk(f, v))
  }

  lemma NamedExists(f: Files, refs: multiset<nat>, d: nat)
    requires FilesOk(f, refs)
    ensures d in refs <==> d in f.descriptions
  {
    assert CountOk(f, refs, d);
  }

  /** The reader and writer sets when a description comes or goes. */
  lemma SetsAfter(ds: map<nat, Description>, d: nat, x: Description, v: nat)
    requires d !in ds
    ensures var ds' := ds[d := x];
            && |ReaderSet(ds', v)| == |ReaderSet(ds, v)| + (if x.vnode == v && x.CanRead() then 1 else 0)
            && |WriterSet(ds', v)| == |WriterSet(ds, v)| + (if x.vnode == v && x.CanWrite() then 1 else 0)
  {
    var ds' := ds[d := x];
    if x.vnode == v && x.CanRead() {
      assert ReaderSet(ds', v) == ReaderSet(ds, v) + {d};
    } else {
      assert ReaderSet(ds', v) == ReaderSet(ds, v);
    }
    if x.vnode == v && x.CanWrite() {
      assert WriterSet(ds', v) == WriterSet(ds, v) + {d};
    } else {
      assert WriterSet(ds', v) == WriterSet(ds, v);
    }
  }

  /** Neither the count nor the settable flags matter to the ends of a pipe. */
  lemma SetsSame(ds: map<nat, Description>, ds': map<nat, Description>, v: nat)
    requires ds'.Keys == ds.Keys
    requires forall d :: d in ds ==> ds'[d].vnode == ds[d].vnode && ds'[d].flags & O_ACCMODE == ds[d].flags & O_ACCMODE
    ensures ReaderSet(ds', v) == ReaderSet(ds, v) && WriterSet(ds', v) == WriterSet(ds, v)
  {
  }

  /** Access mode 0 reads, 1 writes, 2 does both, 3 neither. */
  lemma AccessModes(ds: map<nat, Description>, d: nat, v: nat)
    requires d in ds && ds[d].vnode == v
    ensures ds[d].flags & 3 == 0 ==> d in ReaderSet(ds, v) && d !in WriterSet(ds, v)
    ensures ds[d].flags & 3 == 1 ==> d !in ReaderSet(ds, v) && d in WriterSet(ds, v)
    ensures ds[d].flags & 3 == 2 ==> d in ReaderSet(ds, v) && d in WriterSet(ds, v)
    ensures ds[d].flags & 3 == 3 ==> d !in ReaderSet(ds, v) && d !in WriterSet(ds, v)
  {
  }

  /** The ends of a pipe with and without a description of these flags. */
  predicate OneMore(without: PipeEnds, with: PipeEnds, flags: bv32) {
    && with.readers == without.readers + (if flags & 3 == 0 || flags & 3 == 2 then 1 else 0)
    && with.writers == without.writers + (if flags & 3 == 1 || flags & 3 == 2 then 1 else 0)
  }

  /** Only the counters of vnode `v`, if it is a pipe, have changed: by what a description of these flags adds. */
  ghost predicate PipesRaised(low: map<nat, PipeEnds>, high: map<nat, PipeEnds>, v: nat, flags: bv32) {
    && high.Keys == low.Keys
    && forall w :: w in low ==> if w == v then OneMore(low[w], high[w], flags) else high[w] == low[w]
  }

  // ---------------------------------------------------------------- reference counts

  /** Nothing is new, and the descriptions that are left are for the same vnodes with the same flags. */
  ghost predicate Settled(f0: Files, f: Files) {
    && f.freshId == f0.freshId && f.pipes.Keys == f0.pipes.Keys
    && forall d {:trigger d in f.descriptions} :: d in f.descriptions ==>
         d in f0.descriptions && f.descriptions[d].vnode == f0.descriptions[d].vnode && f.descriptions[d].flags == f0.descriptions[d].flags
  }

  method Increment(f0: Files, d: nat, ghost refs: multiset<nat>) returns (f: Files)
    requires FilesOk(f0, refs) && d in refs
    ensures FilesOk(f, refs + multiset{d}) && Settled(f0, f) && f.pipes == f0.pipes
    ensures f.descriptions.Keys == f0.descriptions.Keys
  {
    NamedExists(f0, refs, d);
    var x := f0.descriptions[d];
    f := f0.(descriptions := f0.descriptions[d := x.(refCount := x.refCount + 1)]);
    forall e | e in f0.descriptions
      ensures f.descriptions[e].refCount == (refs + multiset{d})[e] > 0
    {
      assert CountOk(f0, refs, e);
    }
    Recounted(f0, f, refs, refs + multiset{d});
  }

  lemma Recounted(f0: Files, f: Files, refs: multiset<nat>, refs': multiset<nat>)
    requires FilesOk(f0, refs) && f.freshId == f0.freshId && f.pipes == f0.pipes
    requires f.descriptions.Keys == f0.descriptions.Keys
    requires forall d :: d in f0.descriptions ==>
               && f.descriptions[d].vnode == f0.descriptions[d].vnode
               && f.descriptions[d].flags & O_ACCMODE == f0.descriptions[d].flags & O_ACCMODE
               && f.descriptions[d].refCount == refs'[d] > 0
    requires forall d :: d !in f0.descriptions ==> refs'[d] == refs[d]
    ensures FilesOk(f, refs')
  {
    forall d: nat
      ensures CountOk(f, refs', d)
    {
      assert CountOk(f0, refs, d);
    }
    forall v: nat | v in f.pipes
      ensures PipeOk(f, v)
    {
      assert PipeOk(f0, v);
      SetsSame(f0.descriptions, f.descriptions, v);
    }
  }

  /** The destructor of a description tells its vnode, which for a pipe lowers the counters. */
  method Destroy(f0: Files, d: nat, ghost refs: multiset<nat>) returns (f: Files)
    requires FilesOk(f0, refs) && refs[d] == 1
    ensures FilesOk(f, refs - multiset{d}) && Settled(f0, f) && d in f0.descriptions && f.descriptions == f0.descriptions - {d}
    ensures PipesRaised(f.pipes, f0.pipes, f0.descriptions[d].vnode, f0.descriptions[d].flags)
  {
    NamedExists(f0, refs, d);
    var x := f0.descriptions[d];
    assert CountOk(f0, refs, d);
    ghost var rest := f0.descriptions - {d};
    assert rest[d := x] == f0.descriptions;
    SetsAfter(rest, d, x, x.vnode);
    f := f0;
    if x.vnode in f.pipes {
      assert PipeOk(f0, x.vnode);
      var pipe := f.pipes[x.vnode];
      if x.CanRead() {
        pipe := pipe.(readers := pipe.readers - 1);
      }
      if x.CanWrite() {
        pipe := pipe.(writers := pipe.writers - 1);
      }
      f := f.(pipes := f.pipes[x.vnode := pipe]);
    }
    f := f.(descriptions := f.descriptions - {d});
    forall e: nat
      ensures CountOk(f, refs - multiset{d}, e)
    {
      assert CountOk(f0, refs, e);
    }
    forall v: nat | v in f.pipes
      ensures PipeOk(f, v)
    {
      assert PipeOk(f0, v);
      SetsAfter(rest, d, x, v);
    }
  }

  /** decrement_ref_count: the description is destroyed exactly when nothing names it any more. */
  method Decrement(f0: Files, d: nat, ghost refs: multiset<nat>) returns (f: Files)
    requires FilesOk(f0, refs) && d in refs
    ensures FilesOk(f, refs - multiset{d}) && Settled(f0, f)
    ensures d in f.descriptions <==> refs[d] > 1
    ensures d in f0.descriptions && f0.descriptions[d].refCount == refs[d]
    ensures if refs[d] > 1 then f.pipes == f0.pipes else PipesRaised(f.pipes, f0.pipes, f0.descriptions[d].vnode, f0.descriptions[d].flags)
  {
    NamedExists(f0, refs, d);
    assert CountOk(f0, refs, d);
    var x := f0.descriptions[d];
    if x.refCount - 1 == 0 {
      f := Destroy(f0, d, refs);
    } else {
      f := f0.(descriptions := f0.descriptions[d := x.(refCount := x.refCount - 1)]);
      forall e | e in f0.descriptions
        ensures f.descriptions[e].refCount == (refs - multiset{d})[e] > 0
      {
        assert CountOk(f0, refs, e);
      }
      Recounted(f0, f, refs, refs - multiset{d});
    }
  }

  /** new FileDescription, followed by the vnode's open. The one reference is the caller's. */
  method Create(f0: Files, vnode: nat, flags: bv32, ghost refs: multiset<nat>) returns (d: nat, f: Files)
    requires FilesOk(f0, refs) && vnode < f0.freshId
    ensures FilesOk(f, refs + multiset{d}) && d !in f0.descriptions && f.freshId == f0.freshId + 1
    ensures f.descriptions == f0.descriptions[d := Description(1, vnode, flags)] && PipesRaised(f0.pipes, f.pipes, vnode, flags)
  {
    d := f0.freshId;
    assert CountOk(f0, refs, d);
    var x := Description(1, vnode, flags);
    f := f0.(descriptions := f0.descriptions[d := x], freshId := d + 1);
    if vnode in f.pipes {
      var pipe := f.pipes[vnode];
      if x.CanRead() {
        pipe := pipe.(readers := pipe.readers + 1);
      }
      if x.CanWrite() {
        pipe := pipe.(writers := pipe.writers + 1);
      }
      f := f.(pipes := f.pipes[vnode := pipe]);
    }
    forall e: nat
      ensures CountOk(f, refs + multiset{d}, e)
    {
      assert CountOk(f0, refs, e);
    }
    forall v: nat | v in f.pipes
      ensures PipeOk(f, v)
    {
      assert PipeOk(f0, v);
      SetsAfter(f0.descriptions, d, x, v);
    }
  }

  /** F_SETFL cannot change the access mode, so the ends of a pipe stay counted right. */
  lemma SetflKeepsAccess(flags: bv32, arg: bv32)
    ensures ((flags & !SETFL_MASK) | (arg & SETFL_MASK)) & O_ACCMODE == flags & O_ACCMODE
    ensures ((flags & !SETFL_MASK) | (arg & SETFL_MASK)) & SETFL_MASK == arg & SETFL_MASK
  {
  }

  method SetFlags(f0: Files, d: nat, arg: bv32, ghost refs: multiset<nat>) returns (f: Files)
    requires FilesOk(f0, refs) && d in refs
    ensures FilesOk(f, refs) && d in f0.descriptions && d in f.descriptions
    ensures f == f0.(descriptions := f0.descriptions[d := f0.descriptions[d].(flags := f.descriptions[d].flags)])
    ensures f.descriptions[d].flags & SETFL_MASK == arg & SETFL_MASK
    ensures f.descriptions[d].flags & !SETFL_MASK == f0.descriptions[d].flags & !SETFL_MASK
    ensures f.descriptions[d].CanRead() == f0.descriptions[d].CanRead() && f.descriptions[d].CanWrite() == f0.descriptions[d].CanWrite()
  {
    NamedExists(f0, refs, d);
    var x := f0.descriptions[d];
    SetflKeepsAccess(x.flags, arg);
    f := f0.(descriptions := f0.descriptions[d := x.(flags := (x.flags & !SETFL_MASK) | (arg & SETFL_MASK))]);
    forall e | e in f0.descriptions
      ensures f.descriptions[e].refCount == refs[e] > 0
    {
      assert CountOk(f0, refs, e);
    }
    Recounted(f0, f, refs, refs);
  }

  method NewPipe(f0: Files, ghost refs: multiset<nat>) returns (v: nat, f: Files)
    requires FilesOk(f0, refs)
    ensures FilesOk(f, refs) && f.freshId == f0.freshId + 1 && v == f0.freshId && v !in f0.pipes
    ensures f.descriptions == f0.descriptions && f.pipes == f0.pipes[v := PipeEnds(0, 0)]
  {
    v := f0.freshId;
    f := f0.(pipes := f0.pipes[v := PipeEnds(0, 0)], freshId := v + 1);
    forall d: nat
      ensures CountOk(f, refs, d)
    {
      assert CountOk(f0, refs, d);
    }
    assert v in f0.pipes ==> PipeOk(f0, v);
    forall w: nat | w in f.pipes
      ensures PipeOk(f, w)
    {
      if w in f0.pipes {
        assert PipeOk(f0, w);
      } else {
        forall d | d in f0.descriptions
          ensures f0.descriptions[d].vnode != w
        {
          assert CountOk(f0, refs, d);
        }
        assert ReaderSet(f.descriptions, w) == {} && WriterSet(f.descriptions, w) == {};
      }
    }
  }
}
