/**
  Signal delivery: the frame that dispatch builds on the user stack and what sigreturn restores
  from it, for handlers nested to any depth. User memory is read and written in 8-byte words.
 */
module Signal {
  import opened Common

  type word = x: nat | x < 0x1_0000_0000_0000_0000

  datatype Regs = Regs(
    r8: word, r9: word, r10: word, r11: word, r12: word, r13: word, r14: word, r15: word,
    rdi: word, rsi: word, rbp: word, rbx: word, rdx: word, rax: word, rcx: word,
    rsp: word, rip: word, rflags: word)

  /** A word of memory, kept as the value that was stored: a number, or a signal mask as the set of blocked signals. */
  datatype Value = Int(n: word) | Signals(blocked: set<nat>)

  /** User memory; words never written read as zero. */
  type Mem = map<nat, Value>

  datatype Thread = Thread(regs: Regs, extended: seq<Value>, mask: set<nat>, mem: Mem)

  /** What sigaction installed, for a handler on the ordinary stack, and how the dispatch is to be done. */
  datatype Action = Action(
    signal: nat,
    handler: word,
    restorer: word,
    mask: set<nat>,
    nodefer: bool,
    restart: Option<word>)     // the number of the interrupted system call, when it is to be restarted

  // ---------------------------------------------------------------- the layout of the frame, in words

  const RESTORER: nat := 0
  const MCONTEXT: nat := 6         // behind the restorer, uc_flags, uc_link and uc_stack
  const FPSTATE: nat := 29         // the pointer to the extended state
  const SIGMASK: nat := 38
  const SIGINFO: nat := 39
  const FRAME_WORDS: nat := 55
  const FRAME_SIZE: nat := 440

  /** sigcontext: the registers in the order of the x86-64 ABI of Linux. */
  function ToWords(r: Regs): (w: seq<Value>)
    ensures |w| == 18
  {
    [Int(r.r8), Int(r.r9), Int(r.r10), Int(r.r11), Int(r.r12), Int(r.r13), Int(r.r14), Int(r.r15),
     Int(r.rdi), Int(r.rsi), Int(r.rbp), Int(r.rbx), Int(r.rdx), Int(r.rax), Int(r.rcx), Int(r.rsp), Int(r.rip), Int(r.rflags)]
  }

  function Num(v: Value): word {
    if v.Int? then v.n else 0
  }

  function FromWords(w: seq<Value>): Regs
    requires |w| == 18
  {
    Regs(Num(w[0]), Num(w[1]), Num(w[2]), Num(w[3]), Num(w[4]), Num(w[5]), Num(w[6]), Num(w[7]), Num(w[8]), Num(w[9]),
         Num(w[10]), Num(w[11]), Num(w[12]), Num(w[13]), Num(w[14]), Num(w[15]), Num(w[16]), Num(w[17]))
  }

  lemma RegsRoundTrip(r: Regs)
    ensures FromWords(ToWords(r)) == r
  {
  }

  /** The frame: zeroes but for the restorer, the saved context, the mask and the signal number. */
  function FrameWords(regs: Regs, fpstate: word, mask: set<nat>, restorer: word, signal: word): (w: seq<Value>)
    ensures |w| == FRAME_WORDS
  {
    [Int(restorer)] + Zeroes(5) + ToWords(regs) + Zeroes(5) + [Int(fpstate)] + Zeroes(8) + [Signals(mask)] + [Int(signal)] + Zeroes(15)
  }

  function Zeroes(n: nat): (w: seq<Value>)
    ensures |w| == n
  {
    seq(n, _ => Int(0))
  }

  lemma FrameFields(regs: Regs, fpstate: word, mask: set<nat>, restorer: word, signal: word)
    ensures var w := FrameWords(regs, fpstate, mask, restorer, signal);
            && w[RESTORER] == Int(restorer) && w[MCONTEXT..MCONTEXT + 18] == ToWords(regs)
            && w[FPSTATE] == Int(fpstate) && w[SIGMASK] == Signals(mask) && w[SIGINFO] == Int(signal)
  {
  }

  // ---------------------------------------------------------------- memory

  function Get(mem: Mem, a: nat): Value {
    if a in mem then mem[a] else Int(0)
  }

  function Put(mem: Mem, a: nat, ws: seq<Value>): Mem
    decreases |ws|
  {
    if ws == [] then mem else Put(mem[a := ws[0]], a + 8, ws[1..])
  }

  function Load(mem: Mem, a: nat, n: nat): (ws: seq<Value>)
    ensures |ws| == n
  {
    seq(n, i requires 0 <= i => Get(mem, a + 8 * i))
  }

  lemma {:induction false} GetPutOther(mem: Mem, a: nat, ws: seq<Value>, b: nat)
    requires b < a || b >= a + 8 * |ws|
    ensures Get(Put(mem, a, ws), b) == Get(mem, b)
    decreases |ws|
  {
    if ws != [] {
      GetPutOther(mem[a := ws[0]], a + 8, ws[1..], b);
    }
  }

  lemma {:induction false} GetPut(mem: Mem, a: nat, ws: seq<Value>, i: nat)
    requires i < |ws|
    ensures Get(Put(mem, a, ws), a + 8 * i) == ws[i]
    decreases |ws|
  {
    if i == 0 {
      GetPutOther(mem[a := ws[0]], a + 8, ws[1..], a);
    } else {
      GetPut(mem[a := ws[0]], a + 8, ws[1..], i - 1);
      assert a + 8 + 8 * (i - 1) == a + 8 * i;
    }
  }

  lemma LoadPut(mem: Mem, a: nat, ws: seq<Value>)
    ensures Load(Put(mem, a, ws), a, |ws|) == ws
  {
    forall i | 0 <= i < |ws|
      ensures Load(Put(mem, a, ws), a, |ws|)[i] == ws[i]
    {
      GetPut(mem, a, ws, i);
    }
  }

  // ---------------------------------------------------------------- where the frame goes

  /** The red zone of the interrupted function. */
  const RED_ZONE: nat := 128

  /** The successive values of rsp in dispatch, for an extended state of `size` bytes. */
  function FrameAddress(rsp: nat, size: nat): int
    requires rsp >= RED_ZONE + size
  {
    var below := AlignDown(rsp - RED_ZONE - size, 64) - FRAME_SIZE;
    if below >= 0 then AlignDown(below, 16) - 8 else -8
  }

  function FpAddress(frame: nat): nat {
    AlignUp(frame + FRAME_SIZE, 64)
  }

  /** There is stack enough. */
  predicate HasStack(rsp: nat, size: nat) {
    rsp >= RED_ZONE + size + 64 + FRAME_SIZE + 16 + 8
  }

  /**
    The frame and the extended state are disjoint and both lie below the red zone; on entry the
    stack is aligned as a call leaves it (section 3.2.2 of the System V AMD64 psABI).
   */
  lemma LayoutOk(rsp: nat, size: nat)
    requires HasStack(rsp, size)
    ensures var frame := FrameAddress(rsp, size);
            && frame >= 0 && frame % 8 == 0 && (frame + 8) % 16 == 0
            && FpAddress(frame) % 64 == 0 && frame + FRAME_SIZE <= FpAddress(frame)
            && FpAddress(frame) + size <= rsp - 128
  {
  }

  /** They are as high up as the two alignments allow. */
  lemma LayoutTight(rsp: nat, size: nat)
    requires HasStack(rsp, size)
    ensures rsp - 128 - size - (63 + 440 + 15 + 8) <= FrameAddress(rsp, size)
  {
    var top := rsp - 128 - size;
    assert AlignDown(top, 64) == top - top % 64;
    var below := top - top % 64 - 440;
    assert AlignDown(below, 16) == below - below % 16;
  }

  // ---------------------------------------------------------------- dispatch and return

  /** The context that is saved: the interrupted one, set back to the system call when that is to be restarted. */
  function Saved(regs: Regs, act: Action): Regs {
    match act.restart
    case Some(number) => regs.(rip := if regs.rip >= 2 then regs.rip - 2 else regs.rip + 0xFFFF_FFFF_FFFF_FFFE, rax := number)
    case None => regs
  }

  /** The trap, direction and resume flags are cleared for the handler. */
  function HandlerFlags(rflags: word): word {
    var a := if rflags / 0x100 % 2 == 1 then rflags - 0x100 else rflags;
    var b := if a / 0x400 % 2 == 1 then a - 0x400 else a;
    if b / 0x1_0000 % 2 == 1 then b - 0x1_0000 else b
  }

  predicate CanDispatch(t: Thread, act: Action) {
    HasStack(t.regs.rsp, 8 * |t.extended|) && 1 <= act.signal <= 64
  }

  function FrameOf(t: Thread): int
    requires HasStack(t.regs.rsp, 8 * |t.extended|)
  {
    FrameAddress(t.regs.rsp, 8 * |t.extended|)
  }

  function Blocked(v: Value): set<nat> {
    if v.Signals? then v.blocked else {}
  }

  /** The stack pointer of the handler, step by step. */
  method PlaceFrame(oldRsp: nat, size: nat) returns (frame: nat, fpstate: nat)
    requires HasStack(oldRsp, size)
    ensures frame == FrameAddress(oldRsp, size) && fpstate == FpAddress(frame) && fpstate <= oldRsp
  {
    LayoutOk(oldRsp, size);
    var rsp := oldRsp - RED_ZONE;
    rsp := rsp - size;
    rsp := AlignDown(rsp, 64);
    rsp := rsp - FRAME_SIZE;
    rsp := AlignDown(rsp, 16) - 8;
    return rsp, AlignUp(rsp + FRAME_SIZE, 64);
  }

  /** The registers as the handler finds them in the saved context, in the order of the ABI; `rip` and `rax` may have been set back. */
  predicate SavedAs(w: seq<Value>, r: Regs, rip: word, rax: word) {
    w == [Int(r.r8), Int(r.r9), Int(r.r10), Int(r.r11), Int(r.r12), Int(r.r13), Int(r.r14), Int(r.r15), Int(r.rdi), Int(r.rsi),
          Int(r.rbp), Int(r.rbx), Int(r.rdx), Int(rax), Int(r.rcx), Int(r.rsp), Int(rip), Int(r.rflags)]
  }

  /**
    dispatch_pending_signal, from the choice of the stack on. The handler is entered with the signal
    number, its siginfo and the saved context as arguments, and returns to the restorer.
   */
  method Dispatch(t0: Thread, act: Action) returns (t: Thread)
    requires CanDispatch(t0, act)
    ensures t == Dispatched(t0, act)
    ensures t.regs.rip == act.handler && t.regs.rdi == act.signal && Get(t.mem, t.regs.rsi) == Int(act.signal)
    ensures t.regs.rdx == t.regs.rsp + 8 && Get(t.mem, t.regs.rsp) == Int(act.restorer)
    ensures var context := Load(t.mem, t.regs.rdx + 40, 18);
            match act.restart
            case None => SavedAs(context, t0.regs, t0.regs.rip, t0.regs.rax)
            case Some(number) => SavedAs(context, t0.regs, (t0.regs.rip + 0xFFFF_FFFF_FFFF_FFFE) % 0x1_0000_0000_0000_0000, number)
    ensures Get(t.mem, t.regs.rdx + 296) == Signals(t0.mask)
    ensures var fp := Get(t.mem, t.regs.rdx + 224); fp.Int? && Load(t.mem, fp.n, |t0.extended|) == t0.extended
    ensures t.regs.rax == 0 && OtherBitsKept(t0.regs.rflags, t.regs.rflags)
    ensures t.regs == t0.regs.(rip := t.regs.rip, rdi := t.regs.rdi, rsi := t.regs.rsi, rdx := t.regs.rdx, rax := t.regs.rax,
                               rsp := t.regs.rsp, rflags := t.regs.rflags)
    ensures t.extended == t0.extended
    ensures forall x :: x in t.mask <==> x in t0.mask || x in act.mask || (x == act.signal && !act.nodefer)
  {
    DispatchEntry(t0, act);
    LayoutOk(t0.regs.rsp, 8 * |t0.extended|);
    var state := Saved(t0.regs, act);
    var frame, fpstate := PlaceFrame(state.rsp, 8 * |t0.extended|);
    var mem := Put(t0.mem, fpstate, t0.extended);
    mem := Put(mem, frame, FrameWords(state, fpstate, t0.mask, act.restorer, act.signal));
    state := state.(rsp := frame, rip := act.handler, rdi := act.signal, rsi := frame + 8 * SIGINFO, rdx := frame + 8, rax := 0,
                    rflags := HandlerFlags(state.rflags));
    var mask := t0.mask + act.mask;
    if !act.nodefer {
      mask := mask + {act.signal};
    }
    t := Thread(state, t0.extended, mask, mem);
  }

  /** Bits 8, 10 and 16, where they are set, are taken off; all others are as before. */
  predicate OtherBitsKept(before: word, after: word) {
    after == before - before / 0x100 % 2 * 0x100 - before / 0x400 % 2 * 0x400 - before / 0x1_0000 % 2 * 0x1_0000
  }

  function Dispatched(t: Thread, act: Action): Thread
    requires CanDispatch(t, act)
  {
    LayoutOk(t.regs.rsp, 8 * |t.extended|);
    var frame, saved := FrameOf(t), Saved(t.regs, act);
    var fpstate := FpAddress(frame);
    var mem := Put(Put(t.mem, fpstate, t.extended), frame, FrameWords(saved, fpstate, t.mask, act.restorer, act.signal));
    Thread(saved.(rsp := frame, rip := act.handler, rdi := act.signal, rsi := frame + 8 * SIGINFO, rdx := frame + 8, rax := 0,
                  rflags := HandlerFlags(saved.rflags)),
           t.extended, t.mask + act.mask + (if act.nodefer then {} else {act.signal}), mem)
  }

  /** rt_sigreturn and return_from_signal, with no mask saved by poll. The handler's return has popped the restorer's address. */
  method Sigreturn(t0: Thread) returns (t: Thread)
    requires t0.regs.rsp >= 8
    ensures t == Returned(t0)
  {
    var frame := t0.regs.rsp - 8;
    var fpstate := Num(Get(t0.mem, frame + 8 * FPSTATE));
    var regs := FromWords(Load(t0.mem, frame + 8 * MCONTEXT, 18));
    var extended := Load(t0.mem, fpstate, |t0.extended|);
    var mask := Blocked(Get(t0.mem, frame + 8 * SIGMASK));
    t := Thread(regs, extended, mask, t0.mem);
  }

  function Returned(t: Thread): Thread
    requires t.regs.rsp >= 8
  {
    var frame := t.regs.rsp - 8;
    Thread(FromWords(Load(t.mem, frame + 8 * MCONTEXT, 18)),
           Load(t.mem, Num(Get(t.mem, frame + 8 * FPSTATE)), |t.extended|),
           Blocked(Get(t.mem, frame + 8 * SIGMASK)), t.mem)
  }

  // ---------------------------------------------------------------- what the handler must leave alone

  datatype Region = Region(lo: nat, hi: nat) {
    predicate Has(a: nat) { lo <= a < hi }
  }

  ghost predicate Kept(mem: Mem, mem': Mem, region: Region) {
    forall a: nat {:trigger Get(mem', a)} :: region.Has(a) ==> Get(mem', a) == Get(mem, a)
  }

  ghost predicate AllKept(mem: Mem, mem': Mem, regions: seq<Region>) {
    forall i {:trigger regions[i]} :: 0 <= i < |regions| ==> Kept(mem, mem', regions[i])
  }

  /** What dispatch has written: from the frame up to the red zone. */
  function Area(t: Thread): Region
    requires HasStack(t.regs.rsp, 8 * |t.extended|)
  {
    LayoutOk(t.regs.rsp, 8 * |t.extended|);
    Region(FrameOf(t), t.regs.rsp - RED_ZONE)
  }

  lemma DispatchOutside(t: Thread, act: Action, a: nat)
    requires CanDispatch(t, act) && !Area(t).Has(a)
    ensures Get(Dispatched(t, act).mem, a) == Get(t.mem, a)
  {
    LayoutOk(t.regs.rsp, 8 * |t.extended|);
    var frame, saved := FrameOf(t), Saved(t.regs, act);
    var fpstate := FpAddress(frame);
    var words := FrameWords(saved, fpstate, t.mask, act.restorer, act.signal);
    GetPutOther(t.mem, fpstate, t.extended, a);
    GetPutOther(Put(t.mem, fpstate, t.extended), frame, words, a);
  }

  /** A context saved in memory, as sigreturn finds it. */
  ghost predicate Holds(mem: Mem, frame: nat, fpstate: word, regs: Regs, extended: seq<Value>, mask: set<nat>) {
    && Load(mem, frame + 8 * MCONTEXT, 18) == ToWords(regs)
    && Get(mem, frame + 8 * FPSTATE) == Int(fpstate)
    && Get(mem, frame + 8 * SIGMASK) == Signals(mask)
    && Load(mem, fpstate, |extended|) == extended
  }

  lemma ReturnedIs(u: Thread, frame: nat, fpstate: word, regs: Regs, extended: seq<Value>, mask: set<nat>)
    requires Holds(u.mem, frame, fpstate, regs, extended, mask) && u.regs.rsp == frame + 8 && |u.extended| == |extended|
    ensures Returned(u) == Thread(regs, extended, mask, u.mem)
  {
    RegsRoundTrip(regs);
  }

  lemma FramePut(mem: Mem, frame: nat, fpstate: word, regs: Regs, extended: seq<Value>, mask: set<nat>, restorer: word, signal: word)
    requires frame + FRAME_SIZE <= fpstate
    ensures Holds(Put(Put(mem, fpstate, extended), frame, FrameWords(regs, fpstate, mask, restorer, signal)), frame, fpstate, regs, extended, mask)
  {
    var inner, words := Put(mem, fpstate, extended), FrameWords(regs, fpstate, mask, restorer, signal);
    var outer := Put(inner, frame, words);
    FrameFields(regs, fpstate, mask, restorer, signal);
    GetPut(inner, frame, words, FPSTATE);
    GetPut(inner, frame, words, SIGMASK);
    LoadPutPart(inner, frame, words, MCONTEXT, 18);
    LoadPut(mem, fpstate, extended);
    forall i | 0 <= i < |extended|
      ensures Load(outer, fpstate, |extended|)[i] == Load(inner, fpstate, |extended|)[i]
    {
      GetPutOther(inner, frame, words, fpstate + 8 * i);
    }
  }

  lemma LoadPutPart(mem: Mem, a: nat, ws: seq<Value>, from: nat, n: nat)
    requires from + n <= |ws|
    ensures Load(Put(mem, a, ws), a + 8 * from, n) == ws[from..from + n]
  {
    var loaded, part := Load(Put(mem, a, ws), a + 8 * from, n), ws[from..from + n];
    forall i | 0 <= i < n
      ensures loaded[i] == part[i]
    {
      GetPut(mem, a, ws, from + i);
      assert a + 8 * from + 8 * i == a + 8 * (from + i);
    }
  }

  /** The frame as it lies in memory after dispatch; the handler returns to the restorer. */
  lemma FrameInMemory(t: Thread, act: Action)
    requires CanDispatch(t, act)
    ensures var frame := FrameOf(t);
            && frame >= 0 && FpAddress(frame) <= t.regs.rsp
            && Holds(Dispatched(t, act).mem, frame, FpAddress(frame), Saved(t.regs, act), t.extended, t.mask)
            && Get(Dispatched(t, act).mem, Dispatched(t, act).regs.rsp) == Int(act.restorer)
  {
    LayoutOk(t.regs.rsp, 8 * |t.extended|);
    var frame := FrameOf(t);
    var words := FrameWords(Saved(t.regs, act), FpAddress(frame), t.mask, act.restorer, act.signal);
    FramePut(t.mem, frame, FpAddress(frame), Saved(t.regs, act), t.extended, t.mask, act.restorer, act.signal);
    GetPut(Put(t.mem, FpAddress(frame), t.extended), frame, words, RESTORER);
  }

  lemma ClearTrap(n: nat)
    ensures var m := if n / 0x100 % 2 == 1 then n - 0x100 else n;
            n >= 0x100 * (n / 0x100 % 2) && m / 0x200 == n / 0x200
  {
    if n / 0x100 % 2 == 1 {
      assert (n - 0x100) / 0x100 == n / 0x100 - 1;
    }
  }

  lemma ClearDirection(n: nat)
    ensures var m := if n / 0x400 % 2 == 1 then n - 0x400 else n;
            n >= 0x400 * (n / 0x400 % 2) && m / 0x800 == n / 0x800
  {
    if n / 0x400 % 2 == 1 {
      assert (n - 0x400) / 0x400 == n / 0x400 - 1;
    }
  }

  lemma Halves(m: nat, n: nat)
    ensures m / 0x200 == n / 0x200 ==> m / 0x400 == n / 0x400 && m / 0x800 == n / 0x800
    ensures m / 0x800 == n / 0x800 ==> m / 0x1_0000 == n / 0x1_0000
  {
    assert m / 0x400 == m / 0x200 / 2 && n / 0x400 == n / 0x200 / 2;
    assert m / 0x800 == m / 0x200 / 4 && n / 0x800 == n / 0x200 / 4;
    assert m / 0x1_0000 == m / 0x800 / 0x20 && n / 0x1_0000 == n / 0x800 / 0x20;
  }

  lemma FlagsCleared(rflags: word)
    ensures OtherBitsKept(rflags, HandlerFlags(rflags))
  {
    var a := if rflags / 0x100 % 2 == 1 then rflags - 0x100 else rflags;
    var b := if a / 0x400 % 2 == 1 then a - 0x400 else a;
    ClearTrap(rflags);
    ClearDirection(a);
    Halves(a, rflags);
    Halves(b, a);
  }

  /** What the handler finds. */
  lemma DispatchEntry(t: Thread, act: Action)
    requires CanDispatch(t, act)
    ensures var u := Dispatched(t, act);
            && Get(u.mem, u.regs.rsi) == Int(act.signal) && Get(u.mem, u.regs.rsp) == Int(act.restorer)
            && Load(u.mem, u.regs.rdx + 40, 18) == ToWords(Saved(t.regs, act))
            && Get(u.mem, u.regs.rdx + 296) == Signals(t.mask)
            && (var fp := Get(u.mem, u.regs.rdx + 224); fp.Int? && Load(u.mem, fp.n, |t.extended|) == t.extended)
            && OtherBitsKept(t.regs.rflags, u.regs.rflags)
  {
    LayoutOk(t.regs.rsp, 8 * |t.extended|);
    FrameInMemory(t, act);
    FlagsCleared(t.regs.rflags);
    var frame := FrameOf(t);
    var words := FrameWords(Saved(t.regs, act), FpAddress(frame), t.mask, act.restorer, act.signal);
    FrameFields(Saved(t.regs, act), FpAddress(frame), t.mask, act.restorer, act.signal);
    GetPut(Put(t.mem, FpAddress(frame), t.extended), frame, words, SIGINFO);
  }

  lemma HoldsKept(mem: Mem, mem': Mem, region: Region, frame: nat, fpstate: word, regs: Regs, extended: seq<Value>, mask: set<nat>)
    requires Kept(mem, mem', region) && Holds(mem, frame, fpstate, regs, extended, mask)
    requires region.lo <= frame && frame + FRAME_SIZE <= fpstate && fpstate + 8 * |extended| <= region.hi
    ensures Holds(mem', frame, fpstate, regs, extended, mask)
  {
    LoadKept(mem, mem', region, frame + 8 * MCONTEXT, 18);
    LoadKept(mem, mem', region, fpstate, |extended|);
    assert Get(mem', frame + 8 * FPSTATE) == Get(mem, frame + 8 * FPSTATE);
    assert Get(mem', frame + 8 * SIGMASK) == Get(mem, frame + 8 * SIGMASK);
  }

  /** Whatever the handler has done, if it left the area alone sigreturn brings back the interrupted context. */
  lemma ReturnRestores(t: Thread, act: Action, u: Thread)
    requires CanDispatch(t, act) && u.regs.rsp == FrameOf(t) + 8 && |u.extended| == |t.extended|
    requires Kept(Dispatched(t, act).mem, u.mem, Area(t))
    ensures u.regs.rsp >= 8 && Returned(u) == Thread(Saved(t.regs, act), t.extended, t.mask, u.mem)
    ensures BackAt(t.regs, act.restart, Returned(u).regs)
  {
    SetBack(t.regs, act);
    LayoutOk(t.regs.rsp, 8 * |t.extended|);
    FrameInMemory(t, act);
    var frame := FrameOf(t);
    HoldsKept(Dispatched(t, act).mem, u.mem, Area(t), frame, FpAddress(frame), Saved(t.regs, act), t.extended, t.mask);
    ReturnedIs(u, frame, FpAddress(frame), Saved(t.regs, act), t.extended, t.mask);
  }

  /** The interrupted registers; of a system call that is to be restarted, those two bytes before, with its number. */
  predicate BackAt(r: Regs, restart: Option<word>, back: Regs) {
    match restart
    case None => back == r
    case Some(number) => back == r.(rip := (r.rip + 0xFFFF_FFFF_FFFF_FFFE) % 0x1_0000_0000_0000_0000, rax := number)
  }

  lemma SetBack(r: Regs, act: Action)
    ensures BackAt(r, act.restart, Saved(r, act))
  {
  }

  lemma LoadKept(mem: Mem, mem': Mem, region: Region, a: nat, n: nat)
    requires Kept(mem, mem', region) && region.lo <= a && a + 8 * n <= region.hi
    ensures Load(mem', a, n) == Load(mem, a, n)
  {
    forall i | 0 <= i < n
      ensures Load(mem', a, n)[i] == Load(mem, a, n)[i]
    {
      assert Get(mem', a + 8 * i) == Get(mem, a + 8 * i);
    }
  }

  // ---------------------------------------------------------------- nested handlers

  datatype Write = Write(address: nat, words: seq<Value>)

  /** What happens in user mode: the program computes and stores, or a signal interrupts it and its handler runs. */
  datatype Step =
    | Compute(regs: Regs, extended: seq<Value>, mask: set<nat>, writes: seq<Write>)
    | Interrupt(act: Action, body: seq<Step>)

  function Stored(mem: Mem, writes: seq<Write>): Mem
    decreases |writes|
  {
    if writes == [] then mem else Stored(Put(mem, writes[0].address, writes[0].words), writes[1..])
  }

  /** A run of steps; None when the stack is too small or a handler returns with a wrong stack pointer. */
  function Exec(t: Thread, steps: seq<Step>): Option<Thread>
    decreases steps
  {
    if steps == [] then Some(t)
    else
      match steps[0]
      case Compute(regs, extended, mask, writes) =>
        if |extended| != |t.extended| then None
        else Exec(Thread(regs, extended, mask, Stored(t.mem, writes)), steps[1..])
      case Interrupt(act, body) =>
        if !CanDispatch(t, act) then None
        else
          var u := Exec(Dispatched(t, act), body);
          if u.None? || u.value.regs.rsp != FrameOf(t) + 8 || u.value.regs.rsp < 8 then None
          else Exec(Returned(u.value), steps[1..])
  }

  ghost predicate Avoids(w: Write, regions: seq<Region>) {
    forall i {:trigger regions[i]} :: 0 <= i < |regions| ==>
      w.address + 8 * |w.words| <= regions[i].lo || regions[i].hi <= w.address
  }

  /** A new frame goes below everything that is saved already. */
  ghost predicate Below(area: Region, regions: seq<Region>) {
    forall i {:trigger regions[i]} :: 0 <= i < |regions| ==> area.hi <= regions[i].lo
  }

  /** The program keeps its hands off the saved contexts, and runs its handlers on the stack below them. */
  ghost predicate Obeys(t: Thread, steps: seq<Step>, regions: seq<Region>)
    decreases steps
  {
    steps == [] ||
    match steps[0]
    case Compute(regs, extended, mask, writes) =>
      && |extended| == |t.extended| && (forall w :: w in writes ==> Avoids(w, regions))
      && Obeys(Thread(regs, extended, mask, Stored(t.mem, writes)), steps[1..], regions)
    case Interrupt(act, body) =>
      && CanDispatch(t, act) && Below(Area(t), regions)
      && Obeys(Dispatched(t, act), body, [Area(t)] + regions)
      && var u := Exec(Dispatched(t, act), body);
         u.Some? && u.value.regs.rsp == FrameOf(t) + 8 && u.value.regs.rsp >= 8 && Obeys(Returned(u.value), steps[1..], regions)
  }

  lemma {:induction false} StoredKeeps(mem: Mem, writes: seq<Write>, regions: seq<Region>, i: nat)
    requires i < |regions| && forall w :: w in writes ==> Avoids(w, regions)
    ensures Kept(mem, Stored(mem, writes), regions[i])
    decreases |writes|
  {
    if writes != [] {
      var w := writes[0];
      assert w in writes && Avoids(w, regions);
      var mem1 := Put(mem, w.address, w.words);
      StoredKeeps(mem1, writes[1..], regions, i);
      forall a: nat | regions[i].Has(a)
        ensures Get(Stored(mem, writes), a) == Get(mem, a)
      {
        GetPutOther(mem, w.address, w.words, a);
      }
    }
  }

  lemma DispatchKeeps(t: Thread, act: Action, regions: seq<Region>, i: nat)
    requires CanDispatch(t, act) && Below(Area(t), regions) && i < |regions|
    ensures Kept(t.mem, Dispatched(t, act).mem, regions[i])
  {
    forall a: nat | regions[i].Has(a)
      ensures Get(Dispatched(t, act).mem, a) == Get(t.mem, a)
    {
      assert !Area(t).Has(a);
      DispatchOutside(t, act, a);
    }
  }

  /** A program that obeys leaves every saved context as it was, through any number of nested handlers. */
  lemma {:induction false} ExecKeeps(t: Thread, steps: seq<Step>, regions: seq<Region>)
    requires Obeys(t, steps, regions)
    ensures Exec(t, steps).Some? && |Exec(t, steps).value.extended| == |t.extended|
    ensures AllKept(t.mem, Exec(t, steps).value.mem, regions)
    decreases steps, 0
  {
    if steps != [] {
      match steps[0]
      case Compute(regs, extended, mask, writes) =>
        var t1 := Thread(regs, extended, mask, Stored(t.mem, writes));
        ExecKeeps(t1, steps[1..], regions);
        forall i: nat | i < |regions|
          ensures Kept(t.mem, t1.mem, regions[i])
        {
          StoredKeeps(t.mem, writes, regions, i);
        }
        KeptTrans(t.mem, t1.mem, Exec(t1, steps[1..]).value.mem, regions);
      case Interrupt(act, body) =>
        InterruptKeeps(t, act, body, regions);
        var t1 := Returned(Exec(Dispatched(t, act), body).value);
        ExecKeeps(t1, steps[1..], regions);
        KeptTrans(t.mem, t1.mem, Exec(t1, steps[1..]).value.mem, regions);
    }
  }

  lemma KeptTrans(mem: Mem, mem': Mem, mem'': Mem, regions: seq<Region>)
    requires AllKept(mem, mem', regions) && AllKept(mem', mem'', regions)
    ensures AllKept(mem, mem'', regions)
  {
    forall i | 0 <= i < |regions|
      ensures Kept(mem, mem'', regions[i])
    {
      forall a: nat | regions[i].Has(a)
        ensures Get(mem'', a) == Get(mem, a)
      {
        assert Get(mem', a) == Get(mem, a);
      }
    }
  }

  lemma {:induction false} InterruptKeeps(t: Thread, act: Action, body: seq<Step>, regions: seq<Region>)
    requires CanDispatch(t, act) && Below(Area(t), regions) && Obeys(Dispatched(t, act), body, [Area(t)] + regions)
    ensures var u := Exec(Dispatched(t, act), body);
            && u.Some? && |u.value.extended| == |t.extended|
            && Kept(Dispatched(t, act).mem, u.value.mem, Area(t)) && AllKept(t.mem, u.value.mem, regions)
    decreases body, 1
  {
    var d := Dispatched(t, act);
    ExecKeeps(d, body, [Area(t)] + regions);
    var u := Exec(d, body).value;
    assert ([Area(t)] + regions)[0] == Area(t);
    forall i | 0 <= i < |regions|
      ensures Kept(t.mem, u.mem, regions[i])
    {
      assert ([Area(t)] + regions)[i + 1] == regions[i];
      DispatchKeeps(t, act, regions, i);
    }
  }

  /**
    A signal is transparent: when its handler, with all the handlers nested in it, has returned, the
    registers, the extended state and the signal mask are those of the interrupted context.
   */
  lemma SignalTransparent(t: Thread, act: Action, body: seq<Step>, regions: seq<Region>)
    requires Obeys(t, [Interrupt(act, body)], regions)
    ensures var u := Exec(t, [Interrupt(act, body)]);
            && u.Some? && u.value.regs == Saved(t.regs, act) && u.value.extended == t.extended && u.value.mask == t.mask
            && AllKept(t.mem, u.value.mem, regions)
  {
    var steps := [Interrupt(act, body)];
    assert steps[1..] == [];
    InterruptKeeps(t, act, body, regions);
    ReturnRestores(t, act, Exec(Dispatched(t, act), body).value);
    ExecKeeps(t, steps, regions);
  }
}
