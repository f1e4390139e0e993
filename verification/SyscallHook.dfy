/** The system call hook: a rewritten `call *%rax` lands in a page of nops at address
    zero, slides to a generated jump and reaches the assembly handler, which calls the
    hook under the function calling convention and returns to the caller. */
module SyscallHook {
  import opened Common
  import opened Bytes

  type Word = x: int | 0 <= x < 0x1_0000_0000_0000_0000

  // ----- memory: eight-byte little-endian accesses to a byte memory -----

  type Memory = int -> Byte

  function Store(m: Memory, at: int, v: Word): Memory {
    var bytes := Encode(v, 8);
    (a: int) => if at <= a < at + 8 then bytes[a - at] else m(a)
  }

  function Load(m: Memory, at: int): Word {
    var bytes := seq(8, i => m(at + i));
    DecodeBound(bytes);
    Powers();
    Decode(bytes)
  }

  lemma {:induction false} LoadStored(m: Memory, at: int, v: Word)
    ensures Load(Store(m, at, v), at) == v
  {
    var m' := Store(m, at, v);
    assert seq(8, i => m'(at + i)) == Encode(v, 8);
    Powers();
    DecodeEncode(v, 8);
  }

  lemma {:induction false} LoadApart(m: Memory, at: int, v: Word, b: int)
    requires b + 8 <= at || at + 8 <= b
    ensures Load(Store(m, at, v), b) == Load(m, b)
  {
    var m' := Store(m, at, v);
    assert seq(8, i => m'(b + i)) == seq(8, i => m(b + i));
  }

  lemma {:induction false} LoadSame(m: Memory, m': Memory, b: int)
    requires forall a | b <= a < b + 8 :: m(a) == m'(a)
    ensures Load(m, b) == Load(m', b)
  {
    assert seq(8, i => m'(b + i)) == seq(8, i => m(b + i));
  }

  /** Memory after pushing the values in order onto a stack whose top is `top`. */
  function Pushed(m: Memory, top: int, vals: seq<Word>): Memory {
    if vals == [] then m
    else Store(Pushed(m, top, vals[..|vals| - 1]), top - 8 * |vals|, vals[|vals| - 1])
  }

  lemma {:induction false} PushedSlot(m: Memory, top: int, vals: seq<Word>, i: nat)
    requires i < |vals|
    ensures Load(Pushed(m, top, vals), top - 8 * (i + 1)) == vals[i]
  {
    var init, last := vals[..|vals| - 1], vals[|vals| - 1];
    var m' := Pushed(m, top, init);
    if i == |vals| - 1 {
      LoadStored(m', top - 8 * |vals|, last);
    } else {
      PushedSlot(m, top, init, i);
      LoadApart(m', top - 8 * |vals|, last, top - 8 * (i + 1));
    }
  }

  lemma {:induction false} PushedAbove(m: Memory, top: int, vals: seq<Word>, a: int)
    requires top <= a
    ensures Pushed(m, top, vals)(a) == m(a)
  {
    if vals != [] {
      PushedAbove(m, top, vals[..|vals| - 1], a);
    }
  }

  lemma {:induction false} PushOne(m: Memory, top: int, vals: seq<Word>, v: Word)
    ensures Store(Pushed(m, top, vals), top - 8 * (|vals| + 1), v) == Pushed(m, top, vals + [v])
  {
    assert (vals + [v])[..|vals|] == vals;
  }

  // ----- the processor -----

  datatype Reg = RAX | RCX | RDX | RBP | RSP | RSI | RDI | R8 | R9 | R10

  /** The registers the hook code names, the callee-saved ones it never names, memory and the zero flag. */
  datatype Cpu = Cpu(
    rax: Word, rcx: Word, rdx: Word, rbp: Word, rsp: Word, rsi: Word, rdi: Word, r8: Word, r9: Word, r10: Word,
    saved: seq<Word>,  // rbx, r12, r13, r14, r15
    mem: Memory, zero: bool)

  function Get(c: Cpu, r: Reg): Word {
    match r
    case RAX => c.rax case RCX => c.rcx case RDX => c.rdx case RBP => c.rbp case RSP => c.rsp
    case RSI => c.rsi case RDI => c.rdi case R8 => c.r8 case R9 => c.r9 case R10 => c.r10
  }

  function Set(c: Cpu, r: Reg, v: Word): Cpu {
    match r
    case RAX => c.(rax := v) case RCX => c.(rcx := v) case RDX => c.(rdx := v) case RBP => c.(rbp := v)
    case RSP => c.(rsp := v) case RSI => c.(rsi := v) case RDI => c.(rdi := v) case R8 => c.(r8 := v)
    case R9 => c.(r9 := v) case R10 => c.(r10 := v)
  }

  datatype Insn =
    | Pop(r: Reg) | Push(r: Reg) | PushTop
    | CmpImm(r: Reg, imm: Word) | Je
    | MovFrom(off: nat, r: Reg)  // movq off(%rsp), r
    | Mov(src: Reg, r: Reg)
    | AlignStack                 // andq $-16, %rsp
    | Call | Syscall | Leave | Ret

  /** Where a stretch of code stops; `Fault` is a stack pointer leaving the address space. */
  datatype Stop =
    | Fault
    | Branched(c: Cpu)
    | AtCall(c: Cpu, rest: seq<Insn>)
    | AtSyscall(c: Cpu, rest: seq<Insn>)
    | Returned(c: Cpu, to: Word)

  function PushValue(c: Cpu, v: Word): Option<Cpu> {
    if c.rsp < 8 then None else Some(c.(rsp := c.rsp - 8, mem := Store(c.mem, c.rsp - 8, v)))
  }

  const TOP: int := 0x1_0000_0000_0000_0000

  /** One instruction that does not transfer control. */
  function Step(i: Insn, c: Cpu): Option<Cpu> {
    match i
    case Pop(r) =>
      if c.rsp + 8 >= TOP then None else Some(Set(c.(rsp := c.rsp + 8), r, Load(c.mem, c.rsp)))
    case Push(r) => PushValue(c, Get(c, r))
    case PushTop => PushValue(c, Load(c.mem, c.rsp))
    case CmpImm(r, imm) => Some(c.(zero := Get(c, r) == imm))
    case MovFrom(off, r) => Some(Set(c, r, Load(c.mem, c.rsp + off)))
    case Mov(src, r) => Some(Set(c, r, Get(c, src)))
    case AlignStack => Some(c.(rsp := c.rsp - c.rsp % 16))
    case Leave =>
      if c.rbp + 8 >= TOP then None else Some(c.(rsp := c.rbp + 8, rbp := Load(c.mem, c.rbp)))
    case _ => None
  }

  function Exec(code: seq<Insn>, c: Cpu): Stop
    decreases |code|
  {
    if code == [] then Fault
    else
      match code[0]
      case Je => if c.zero then Branched(c) else Exec(code[1..], c)
      case Call => AtCall(c, code[1..])
      case Syscall => AtSyscall(c, code[1..])
      case Ret => if c.rsp + 8 >= TOP then Fault else Returned(c.(rsp := c.rsp + 8), Load(c.mem, c.rsp))
      case _ =>
        match Step(code[0], c)
        case None => Fault
        case Some(c') => Exec(code[1..], c')
  }

  /** `syscall_hooker_asm`, in stretches between transfers of control. */
  const ENTER: seq<Insn> := [Pop(RAX), CmpImm(RAX, 15)]
  const FRAME: seq<Insn> := [MovFrom(0, RCX), Push(RBP), Mov(RSP, RBP), AlignStack]
  const SPILL: seq<Insn> := [Push(RAX), Push(RDI), Push(RSI), Push(RDX), Push(R10), Push(R8), Push(R9)]
  const REFILL_LOW: seq<Insn> := [MovFrom(48, RDI), MovFrom(40, RSI), MovFrom(32, RDX)]
  const REFILL_HIGH: seq<Insn> := [MovFrom(24, RCX), MovFrom(16, R8), MovFrom(8, R9), PushTop]
  const REFILL: seq<Insn> := REFILL_LOW + REFILL_HIGH
  const LEAVE: seq<Insn> := [Leave, Ret]
  const BODY: seq<Insn> := FRAME + (SPILL + (REFILL + ([Call] + LEAVE)))
  const HANDLER: seq<Insn> := ENTER + ([Je] + BODY)

  /** `call_orig_syscall`. */
  const UNSHUFFLE_LOW: seq<Insn> := [Mov(RDI, RAX), Mov(RSI, RDI), Mov(RDX, RSI), Mov(RCX, RDX)]
  const UNSHUFFLE_HIGH: seq<Insn> := [Mov(R8, R10), Mov(R9, R8), MovFrom(8, R9)]
  const ORIGINAL: seq<Insn> := UNSHUFFLE_LOW + (UNSHUFFLE_HIGH + [Syscall, Ret])

  /** `cs` are the states of a straight stretch: each instruction takes one to the next. */
  ghost predicate Trace(code: seq<Insn>, cs: seq<Cpu>) {
    && |cs| == |code| + 1
    && forall k | 0 <= k < |code| :: Step(code[k], cs[k]) == Some(cs[k + 1])
  }

  lemma {:induction false} ExecTrace(code: seq<Insn>, cs: seq<Cpu>, rest: seq<Insn>)
    requires Trace(code, cs)
    ensures Exec(code + rest, cs[0]) == Exec(rest, cs[|code|])
    decreases |code|
  {
    if code == [] {
      assert code + rest == rest;
    } else {
      assert Step(code[0], cs[0]) == Some(cs[1]);
      assert (code + rest)[0] == code[0] && (code + rest)[1..] == code[1..] + rest;
      assert forall k | 0 <= k < |code[1..]| :: code[1..][k] == code[k + 1] && cs[1..][k] == cs[k + 1];
      ExecTrace(code[1..], cs[1..], rest);
    }
  }

  // ----- the handler up to the hook call -----

  lemma {:induction false} Entering(c: Cpu, rest: seq<Insn>) returns (c': Cpu)
    requires c.rsp + 8 < TOP
    ensures Exec(ENTER + rest, c) == Exec(rest, c')
    ensures c' == c.(rsp := c.rsp + 8, rax := Load(c.mem, c.rsp), zero := Load(c.mem, c.rsp) == 15)
  {
    var c1 := c.(rsp := c.rsp + 8, rax := Load(c.mem, c.rsp));
    c' := c1.(zero := c1.rax == 15);
    ExecTrace(ENTER, [c, c1, c'], rest);
  }

  lemma {:induction false} Framing(c: Cpu, rest: seq<Insn>) returns (c': Cpu)
    requires 8 <= c.rsp
    ensures Exec(FRAME + rest, c) == Exec(rest, c')
    ensures var top := c.rsp - 8;
            c' == c.(rcx := Load(c.mem, c.rsp), rbp := top, rsp := top - top % 16, mem := Store(c.mem, top, c.rbp))
  {
    var top := c.rsp - 8;
    var c1 := c.(rcx := Load(c.mem, c.rsp));
    var c2 := c1.(rsp := top, mem := Store(c.mem, top, c.rbp));
    var c3 := c2.(rbp := top);
    c' := c3.(rsp := top - top % 16);
    ExecTrace(FRAME, [c, c1, c2, c3, c'], rest);
  }

  /** The seven values spilled, in push order. */
  function Arguments(c: Cpu): seq<Word> {
    [c.rax, c.rdi, c.rsi, c.rdx, c.r10, c.r8, c.r9]
  }

  function Spilled(c: Cpu, n: nat): Cpu
    requires n <= 7 && 8 * n <= c.rsp
  {
    c.(rsp := c.rsp - 8 * n, mem := Pushed(c.mem, c.rsp, Arguments(c)[..n]))
  }

  lemma {:induction false} SpillStep(c: Cpu, n: nat)
    requires n < 7 && 8 * (n + 1) <= c.rsp
    ensures Step(SPILL[n], Spilled(c, n)) == Some(Spilled(c, n + 1))
  {
    var a := Arguments(c);
    PushOne(c.mem, c.rsp, a[..n], a[n]);
    assert a[..n + 1] == a[..n] + [a[n]];
    assert Get(Spilled(c, n), SPILL[n].r) == a[n];
  }

  lemma {:induction false} Spilling(c: Cpu, rest: seq<Insn>)
    requires 56 <= c.rsp
    ensures Exec(SPILL + rest, c) == Exec(rest, c.(rsp := c.rsp - 56, mem := Pushed(c.mem, c.rsp, Arguments(c))))
  {
    var cs := seq(8, n requires 0 <= n < 8 => Spilled(c, n));
    forall n | 0 <= n < 7
      ensures Step(SPILL[n], cs[n]) == Some(cs[n + 1])
    {
      SpillStep(c, n);
    }
    ExecTrace(SPILL, cs, rest);
    assert Arguments(c)[..7] == Arguments(c) && cs[0] == c;
  }

  lemma {:induction false} Refilling(c: Cpu, rest: seq<Insn>, m: Memory, top: int, a: seq<Word>) returns (c': Cpu)
    requires |a| == 7 && c.rsp == top - 56 && 8 <= c.rsp && c.mem == Pushed(m, top, a)
    ensures Exec(REFILL + rest, c) == Exec(rest, c')
    ensures c' == c.(rdi := a[0], rsi := a[1], rdx := a[2], rcx := a[3], r8 := a[4], r9 := a[5],
                     rsp := c.rsp - 8, mem := Store(c.mem, c.rsp - 8, a[6]))
  {
    forall i: nat | i < 7
      ensures Load(c.mem, top - 8 * (i + 1)) == a[i]
    {
      PushedSlot(m, top, a, i);
    }
    c' := Shuffled(c, rest, a);
  }

  lemma {:induction false} Shuffled(c: Cpu, rest: seq<Insn>, a: seq<Word>) returns (c': Cpu)
    requires |a| == 7 && 8 <= c.rsp
    requires Load(c.mem, c.rsp + 48) == a[0] && Load(c.mem, c.rsp + 40) == a[1] && Load(c.mem, c.rsp + 32) == a[2]
    requires Load(c.mem, c.rsp + 24) == a[3] && Load(c.mem, c.rsp + 16) == a[4] && Load(c.mem, c.rsp + 8) == a[5]
    requires Load(c.mem, c.rsp) == a[6]
    ensures Exec(REFILL + rest, c) == Exec(rest, c')
    ensures c' == c.(rdi := a[0], rsi := a[1], rdx := a[2], rcx := a[3], r8 := a[4], r9 := a[5],
                     rsp := c.rsp - 8, mem := Store(c.mem, c.rsp - 8, a[6]))
  {
    var low := c.(rdi := a[0], rsi := a[1], rdx := a[2]);
    ShuffledLow(c, REFILL_HIGH + rest, a);
    c' := low.(rcx := a[3], r8 := a[4], r9 := a[5], rsp := c.rsp - 8, mem := Store(c.mem, c.rsp - 8, a[6]));
    ShuffledHigh(low, rest, a);
    assert REFILL + rest == REFILL_LOW + (REFILL_HIGH + rest);
  }

  lemma {:induction false} ShuffledLow(c: Cpu, rest: seq<Insn>, a: seq<Word>)
    requires |a| == 7
    requires Load(c.mem, c.rsp + 48) == a[0] && Load(c.mem, c.rsp + 40) == a[1] && Load(c.mem, c.rsp + 32) == a[2]
    ensures Exec(REFILL_LOW + rest, c) == Exec(rest, c.(rdi := a[0], rsi := a[1], rdx := a[2]))
  {
    var c1 := c.(rdi := a[0]);
    var c2 := c1.(rsi := a[1]);
    ExecTrace(REFILL_LOW, [c, c1, c2, c2.(rdx := a[2])], rest);
  }

  lemma {:induction false} ShuffledHigh(c: Cpu, rest: seq<Insn>, a: seq<Word>)
    requires |a| == 7 && 8 <= c.rsp
    requires Load(c.mem, c.rsp + 24) == a[3] && Load(c.mem, c.rsp + 16) == a[4] && Load(c.mem, c.rsp + 8) == a[5]
    requires Load(c.mem, c.rsp) == a[6]
    ensures Exec(REFILL_HIGH + rest, c)
         == Exec(rest, c.(rcx := a[3], r8 := a[4], r9 := a[5], rsp := c.rsp - 8, mem := Store(c.mem, c.rsp - 8, a[6])))
  {
    var c1 := c.(rcx := a[3]);
    var c2 := c1.(r8 := a[4]);
    var c3 := c2.(r9 := a[5]);
    ExecTrace(REFILL_HIGH, [c, c1, c2, c3, c3.(rsp := c.rsp - 8, mem := Store(c.mem, c.rsp - 8, a[6]))], rest);
  }

  /** State at the handler's call, from the state in which the jump reaches it. */
  function AtHook(c: Cpu): Cpu
    requires 128 <= c.rsp
  {
    var nr := Load(c.mem, c.rsp);
    var top := c.rsp - c.rsp % 16;
    var framed := Store(c.mem, c.rsp, c.rbp);
    var spilled := Pushed(framed, top, [nr, c.rdi, c.rsi, c.rdx, c.r10, c.r8, c.r9]);
    c.(rax := nr, zero := false, rbp := c.rsp, rsp := top - 64, mem := Store(spilled, top - 64, c.r9),
       rdi := nr, rsi := c.rdi, rdx := c.rsi, rcx := c.rdx, r8 := c.r10, r9 := c.r8)
  }

  /** From the spills on. */
  lemma {:induction false} SpillAndCall(c: Cpu) returns (c': Cpu)
    requires 64 <= c.rsp
    ensures Exec(SPILL + (REFILL + ([Call] + LEAVE)), c) == AtCall(c', LEAVE)
    ensures c' == c.(rsp := c.rsp - 64, mem := Store(Pushed(c.mem, c.rsp, Arguments(c)), c.rsp - 64, c.r9),
                     rdi := c.rax, rsi := c.rdi, rdx := c.rsi, rcx := c.rdx, r8 := c.r10, r9 := c.r8)
  {
    var t := [Call] + LEAVE;
    Spilling(c, REFILL + t);
    var c1 := c.(rsp := c.rsp - 56, mem := Pushed(c.mem, c.rsp, Arguments(c)));
    c' := Refilling(c1, t, c.mem, c.rsp, Arguments(c));
    assert t[0] == Call && t[1..] == LEAVE;
  }

  lemma {:induction false} NotTaken(c: Cpu, rest: seq<Insn>)
    requires !c.zero
    ensures Exec([Je] + rest, c) == Exec(rest, c)
  {
    assert ([Je] + rest)[1..] == rest;
  }

  /** State at the call, from the state after the number has been popped. */
  function Framed(c: Cpu, top: int): Cpu
    requires 136 <= c.rsp && top == c.rsp - 8 - (c.rsp - 8) % 16
  {
    c.(rbp := c.rsp - 8, rsp := top - 64,
       mem := Store(Pushed(Store(c.mem, c.rsp - 8, c.rbp), top, Arguments(c)), top - 64, c.r9),
       rdi := c.rax, rsi := c.rdi, rdx := c.rsi, rcx := c.rdx, r8 := c.r10, r9 := c.r8)
  }

  lemma {:induction false} FrameThenCall(c: Cpu, top: int)
    requires 136 <= c.rsp && top == c.rsp - 8 - (c.rsp - 8) % 16
    ensures Exec(BODY, c) == AtCall(Framed(c, top), LEAVE)
  {
    var c2 := c.(rcx := Load(c.mem, c.rsp), rbp := c.rsp - 8, rsp := top, mem := Store(c.mem, c.rsp - 8, c.rbp));
    var c3 := SpillAndCall(c2);
    SpilledIsFramed(c, c2, c3, top);
    FrameThen(c, c2, SPILL + (REFILL + ([Call] + LEAVE)), AtCall(c3, LEAVE));
  }

  /** A stretch after the frame, whatever it does. */
  lemma {:induction false} FrameThen(c: Cpu, c': Cpu, rest: seq<Insn>, end: Stop)
    requires 8 <= c.rsp && Exec(rest, c') == end
    requires var top := c.rsp - 8;
             c' == c.(rcx := Load(c.mem, c.rsp), rbp := top, rsp := top - top % 16, mem := Store(c.mem, top, c.rbp))
    ensures Exec(FRAME + rest, c) == end
  {
    var framed := Framing(c, rest);
  }

  lemma {:induction false} SpilledIsFramed(c: Cpu, c2: Cpu, c3: Cpu, top: int)
    requires 136 <= c.rsp && top == c.rsp - 8 - (c.rsp - 8) % 16
    requires c2 == c.(rcx := Load(c.mem, c.rsp), rbp := c.rsp - 8, rsp := top, mem := Store(c.mem, c.rsp - 8, c.rbp))
    requires c3 == c2.(rsp := top - 64, mem := Store(Pushed(c2.mem, top, Arguments(c2)), top - 64, c2.r9),
                       rdi := c2.rax, rsi := c2.rdi, rdx := c2.rsi, rcx := c2.rdx, r8 := c2.r10, r9 := c2.r8)
    ensures c3 == Framed(c, top)
  {
    assert Arguments(c2) == Arguments(c);
  }

  /** A stretch after the number has been popped, whatever it does. */
  lemma {:induction false} EnterThen(c: Cpu, rest: seq<Insn>, end: Stop)
    requires c.rsp + 8 < TOP && Load(c.mem, c.rsp) != 15
    requires Exec(rest, c.(rsp := c.rsp + 8, rax := Load(c.mem, c.rsp), zero := false)) == end
    ensures Exec(ENTER + ([Je] + rest), c) == end
  {
    var c1 := Entering(c, [Je] + rest);
    NotTaken(c1, rest);
  }

  lemma {:induction false} HandlerCalls(c: Cpu)
    requires 128 <= c.rsp && c.rsp + 16 < TOP && Load(c.mem, c.rsp) != 15
    ensures Exec(HANDLER, c) == AtCall(AtHook(c), LEAVE)
  {
    var c1 := c.(rsp := c.rsp + 8, rax := Load(c.mem, c.rsp), zero := false);
    FrameThenCall(c1, c.rsp - c.rsp % 16);
    FramedIsAtHook(c, c1);
    EnterThen(c, BODY, AtCall(AtHook(c), LEAVE));
  }

  lemma {:induction false} FramedIsAtHook(c: Cpu, c1: Cpu)
    requires 128 <= c.rsp && c.rsp + 16 < TOP
    requires c1 == c.(rsp := c.rsp + 8, rax := Load(c.mem, c.rsp), zero := false)
    ensures Framed(c1, c.rsp - c.rsp % 16) == AtHook(c)
  {
    assert Arguments(c1) == [c1.rax, c.rdi, c.rsi, c.rdx, c.r10, c.r8, c.r9];
  }

  // ----- the return -----

  /** What the handler needs of the hook: the callee-saved registers, and its own frame of sixteen bytes,
      the saved frame pointer and the return address.  Any other memory may change. */
  ghost predicate PreservedByCall(c: Cpu, c': Cpu) {
    && c'.rbp == c.rbp && c'.saved == c.saved
    && forall a | c.rbp <= a < c.rbp + 16 :: c'.mem(a) == c.mem(a)
  }

  lemma {:induction false} FrameSurvives(c: Cpu, c': Cpu)
    requires 128 <= c.rsp && PreservedByCall(AtHook(c), c')
    ensures Load(c'.mem, c.rsp) == c.rbp && Load(c'.mem, c.rsp + 8) == Load(c.mem, c.rsp + 8)
  {
    var framed := Store(c.mem, c.rsp, c.rbp);
    var top := c.rsp - c.rsp % 16;
    forall a | c.rsp <= a < c.rsp + 16
      ensures c'.mem(a) == framed(a)
    {
      PushedAbove(framed, top, [Load(c.mem, c.rsp), c.rdi, c.rsi, c.rdx, c.r10, c.r8, c.r9], a);
      assert AtHook(c).mem(a) == framed(a);
    }
    LoadSame(c'.mem, framed, c.rsp);
    LoadSame(c'.mem, framed, c.rsp + 8);
    LoadStored(c.mem, c.rsp, c.rbp);
    LoadApart(c.mem, c.rsp, c.rbp, c.rsp + 8);
  }

  /** The handler's tail returns to the address above its slot, with both stack registers as they were. */
  lemma {:induction false} HandlerReturns(c: Cpu, c': Cpu)
    requires 128 <= c.rsp && c.rsp + 24 < TOP && PreservedByCall(AtHook(c), c')
    ensures Exec(LEAVE, c') == Returned(c'.(rsp := c.rsp + 16, rbp := c.rbp), Load(c.mem, c.rsp + 8))
  {
    FrameSurvives(c, c');
    Leaving(c', c.rsp, c.rbp, Load(c.mem, c.rsp + 8));
  }

  lemma {:induction false} Leaving(c: Cpu, at: Word, rbp: Word, back: Word)
    requires c.rbp == at && at + 24 < TOP && Load(c.mem, at) == rbp && Load(c.mem, at + 8) == back
    ensures Exec(LEAVE, c) == Returned(c.(rsp := at + 16, rbp := rbp), back)
  {
    var c1 := c.(rsp := at + 8, rbp := rbp);
    assert Step(Leave, c) == Some(c1);
    ExecTrace([Leave], [c, c1], [Ret]);
    assert LEAVE == [Leave] + [Ret];
  }

  // ----- the page at address zero -----

  const NR_SYSCALLS: nat := 512

  /** push %rax; movabs $handler, %rax; jmp *%rax */
  function JumpCode(handler: Word): (r: seq<Byte>)
    ensures |r| == 13
  {
    [0x50, 0x48, 0xb8] + Encode(handler, 8) + [0xff, 0xe0]
  }

  /** Nops up to the jump, the jump, and whatever the rest of the page holds. */
  ghost predicate IsPageZero(page: seq<Byte>, handler: Word) {
    && |page| >= NR_SYSCALLS + 13
    && (forall i | 0 <= i < NR_SYSCALLS :: page[i] == 0x90)
    && page[NR_SYSCALLS..NR_SYSCALLS + 13] == JumpCode(handler)
  }

  /** `v >> (8 * i)`. */
  function ShiftBytes(v: nat, i: nat): nat
    decreases i
  {
    if i == 0 then v else ShiftBytes(v / 256, i - 1)
  }

  lemma {:induction false} EncodeByte(v: nat, n: nat, i: nat)
    requires i < n
    ensures Encode(v, n)[i] == ShiftBytes(v, i) % 256
    decreases i
  {
    if i > 0 {
      EncodeByte(v / 256, n - 1, i - 1);
    }
  }

  /** `setup_syscall_tracer`: the fill loop, then the generated bytes copied after it. */
  method SetupPage(page: array<Byte>, handler: Word)
    requires page.Length == 0x1000
    modifies page
    ensures IsPageZero(page[..], handler)
    ensures forall i | 0 <= i < 512 :: page[i] == 0x90
    ensures page[512..515] == [0x50, 0x48, 0xb8] && Decode(page[515..523]) == handler && page[523..525] == [0xff, 0xe0]
    ensures forall i | 525 <= i < page.Length :: page[i] == old(page[i])
  {
    for i := 0 to NR_SYSCALLS
      invariant forall k | 0 <= k < i :: page[k] == 0x90
      invariant forall k | i <= k < page.Length :: page[k] == old(page[k])
    {
      page[i] := 0x90;
    }
    var codes: seq<Byte> := [0x50, 0x48, 0xb8];
    for i := 0 to 8
      invariant forall k | 0 <= k < NR_SYSCALLS :: page[k] == 0x90
      invariant forall k | NR_SYSCALLS <= k < page.Length :: page[k] == old(page[k])
      invariant codes == [0x50, 0x48, 0xb8] + Encode(handler, 8)[..i]
    {
      EncodeByte(handler, 8, i);
      codes := codes + [ShiftBytes(handler, i) % 256];
    }
    assert Encode(handler, 8)[..8] == Encode(handler, 8);
    codes := codes + [0xff, 0xe0];
    assert codes == JumpCode(handler);
    for i := 0 to 13
      invariant forall k | 0 <= k < NR_SYSCALLS :: page[k] == 0x90
      invariant page[NR_SYSCALLS..NR_SYSCALLS + i] == codes[..i]
      invariant forall k | NR_SYSCALLS + i <= k < page.Length :: page[k] == old(page[k])
    {
      page[NR_SYSCALLS + i] := codes[i];
    }
    assert codes[..13] == codes;
    JumpBytes(page[..], handler);
    assert page[..][512..515] == page[512..515] && page[..][515..523] == page[515..523];
    assert page[..][523..525] == page[523..525];
  }

  lemma {:induction false} JumpBytes(page: seq<Byte>, handler: Word)
    requires IsPageZero(page, handler)
    ensures page[512..515] == [0x50, 0x48, 0xb8] && Decode(page[515..523]) == handler && page[523..525] == [0xff, 0xe0]
  {
    var code := page[512..525];
    Powers();
    DecodeEncode(handler, 8);
    assert forall i | 512 <= i < 525 :: page[i] == code[i - 512];
    assert page[512..515] == code[..3];
    assert page[515..523] == code[3..11] == Encode(handler, 8);
    assert page[523..525] == code[11..];
  }

  datatype Landing = Lost | Landed(at: Word, c: Cpu)

  /** Executing the page's bytes from `rip` until control leaves it. */
  function Slide(page: seq<Byte>, rip: nat, c: Cpu): Landing
    decreases |page| - rip
  {
    if rip + 2 > |page| then Lost
    else if page[rip] == 0x90 then Slide(page, rip + 1, c)
    else if page[rip] == 0x50 then
      (match PushValue(c, c.rax) case None => Lost case Some(c') => Slide(page, rip + 1, c'))
    else if page[rip] == 0x48 && page[rip + 1] == 0xb8 && rip + 10 <= |page| then
      DecodeBound(page[rip + 2..rip + 10]);
      Powers();
      Slide(page, rip + 10, c.(rax := Decode(page[rip + 2..rip + 10])))
    else if page[rip] == 0xff && page[rip + 1] == 0xe0 then Landed(c.rax, c)
    else Lost
  }

  lemma {:induction false} JumpLands(page: seq<Byte>, handler: Word, c: Cpu)
    requires IsPageZero(page, handler) && 8 <= c.rsp
    ensures Slide(page, NR_SYSCALLS, c)
         == Landed(handler, c.(rsp := c.rsp - 8, mem := Store(c.mem, c.rsp - 8, c.rax), rax := handler))
  {
    var code := page[NR_SYSCALLS..NR_SYSCALLS + 13];
    assert page[512] == code[0] == 0x50;
    assert page[513] == code[1] == 0x48 && page[514] == code[2] == 0xb8;
    assert page[523] == code[11] == 0xff && page[524] == code[12] == 0xe0;
    assert code[3..11] == Encode(handler, 8);
    assert forall i | 515 <= i < 523 :: page[i] == code[i - 512];
    assert page[515..523] == code[3..11];
    Powers();
    DecodeEncode(handler, 8);
    var c1 := c.(rsp := c.rsp - 8, mem := Store(c.mem, c.rsp - 8, c.rax));
    var c2 := c1.(rax := handler);
    assert Slide(page, 523, c2) == Landed(handler, c2);
    assert Slide(page, 513, c1) == Slide(page, 523, c2);
  }

  /** From every system call number up to the sled's length, control reaches the handler with the
      number pushed and nothing else changed but rax. */
  lemma {:induction false} SledReachesHandler(page: seq<Byte>, handler: Word, c: Cpu, rip: nat)
    requires IsPageZero(page, handler) && 8 <= c.rsp && rip <= 512
    ensures Slide(page, rip, c)
         == Landed(handler, c.(rsp := c.rsp - 8, mem := Store(c.mem, c.rsp - 8, c.rax), rax := handler))
    decreases 512 - rip
  {
    if rip == NR_SYSCALLS {
      JumpLands(page, handler, c);
    } else {
      SledReachesHandler(page, handler, c, rip + 1);
    }
  }

  // ----- the whole path -----

  /** The six arguments and the number, where the system call convention puts them. */
  function SyscallArgs(c: Cpu): seq<Word> {
    [c.rax, c.rdi, c.rsi, c.rdx, c.r10, c.r8, c.r9]
  }

  /** The seven integer arguments at a function's entry (section 3.2.3 of the System V AMD64 ABI):
      six registers, then the slot above the return address. */
  function FunctionArgs(c: Cpu): seq<Word> {
    [c.rdi, c.rsi, c.rdx, c.rcx, c.r8, c.r9, Load(c.mem, c.rsp + 8)]
  }

  /** The state in which the jump enters the handler: return address, then the number, pushed. */
  function Arrived(c: Cpu, back: Word, handler: Word): Cpu
    requires 16 <= c.rsp
  {
    var m := Store(c.mem, c.rsp - 8, back);
    c.(rsp := c.rsp - 16, mem := Store(m, c.rsp - 16, c.rax), rax := handler)
  }

  lemma {:induction false} ArrivedStack(c: Cpu, back: Word, handler: Word)
    requires 16 <= c.rsp
    ensures var a := Arrived(c, back, handler);
            Load(a.mem, a.rsp) == c.rax && Load(a.mem, a.rsp + 8) == back
  {
    var m := Store(c.mem, c.rsp - 8, back);
    LoadStored(m, c.rsp - 16, c.rax);
    LoadApart(m, c.rsp - 16, c.rax, c.rsp - 8);
    LoadStored(c.mem, c.rsp - 8, back);
  }

  /** From every number in the sled the rewritten call arrives at the handler, whatever the registers hold. */
  lemma {:induction false} CallArrives(c: Cpu, back: Word, page: seq<Byte>, handler: Word)
    requires IsPageZero(page, handler) && c.rax < 512 && 256 <= c.rsp
    ensures Slide(page, c.rax, c.(rsp := c.rsp - 8, mem := Store(c.mem, c.rsp - 8, back)))
         == Landed(handler, Arrived(c, back, handler))
  {
    SledReachesHandler(page, handler, c.(rsp := c.rsp - 8, mem := Store(c.mem, c.rsp - 8, back)), c.rax);
  }

  /** For every number but 15 and every register and stack state, the handler calls the hook with
      the system call's seven values as function arguments, on an aligned stack. */
  lemma {:induction false} HookGetsTheCall(c: Cpu, back: Word, handler: Word, next: Word)
    requires c.rax != 15 && 256 <= c.rsp
    ensures var atCall := AtHook(Arrived(c, back, handler));
            && Exec(HANDLER, Arrived(c, back, handler)) == AtCall(atCall, LEAVE)
            && atCall.rsp % 16 == 0
            && FunctionArgs(Entered(atCall, next)) == SyscallArgs(c)
  {
    var a := Arrived(c, back, handler);
    ArrivedStack(c, back, handler);
    HandlerCalls(a);
    EnteredArgs(a, next);
    Aligned(a.rsp);
  }

  lemma {:induction false} Aligned(x: int)
    ensures (x - x % 16 - 64) % 16 == 0
  {
  }

  /** A call instruction pushes its return address. */
  function Entered(c: Cpu, next: Word): Cpu {
    if c.rsp < 8 then c else c.(rsp := c.rsp - 8, mem := Store(c.mem, c.rsp - 8, next))
  }

  lemma {:induction false} EnteredArgs(c: Cpu, next: Word)
    requires 128 <= c.rsp
    ensures FunctionArgs(Entered(AtHook(c), next))
         == [Load(c.mem, c.rsp), c.rdi, c.rsi, c.rdx, c.r10, c.r8, c.r9]
  {
    var h := AtHook(c);
    var top := c.rsp - c.rsp % 16;
    var spilled := Pushed(Store(c.mem, c.rsp, c.rbp), top,
                          [Load(c.mem, c.rsp), c.rdi, c.rsi, c.rdx, c.r10, c.r8, c.r9]);
    LoadApart(h.mem, h.rsp - 8, next, h.rsp);
    LoadStored(spilled, top - 64, c.r9);
  }

  /** The default hook's registers when it reaches its `syscall`. */
  function Unshuffled(c: Cpu): Cpu {
    c.(rax := c.rdi, rdi := c.rsi, rsi := c.rdx, rdx := c.rcx, r10 := c.r8, r8 := c.r9, r9 := Load(c.mem, c.rsp + 8))
  }

  /** The default hook puts the seven arguments back where the kernel expects them. */
  lemma {:induction false} OriginalReissues(c: Cpu)
    ensures Exec(ORIGINAL, c) == AtSyscall(Unshuffled(c), [Ret]) && SyscallArgs(Unshuffled(c)) == FunctionArgs(c)
  {
    UnshuffledLow(c, UNSHUFFLE_HIGH + [Syscall, Ret]);
    UnshuffledHigh(c.(rax := c.rdi, rdi := c.rsi, rsi := c.rdx, rdx := c.rcx), [Syscall, Ret]);
    assert [Syscall, Ret][1..] == [Ret];
  }

  lemma {:induction false} UnshuffledLow(c: Cpu, rest: seq<Insn>)
    ensures Exec(UNSHUFFLE_LOW + rest, c) == Exec(rest, c.(rax := c.rdi, rdi := c.rsi, rsi := c.rdx, rdx := c.rcx))
  {
    var c1 := c.(rax := c.rdi);
    var c2 := c1.(rdi := c.rsi);
    var c3 := c2.(rsi := c.rdx);
    ExecTrace(UNSHUFFLE_LOW, [c, c1, c2, c3, c3.(rdx := c.rcx)], rest);
  }

  lemma {:induction false} UnshuffledHigh(c: Cpu, rest: seq<Insn>)
    ensures Exec(UNSHUFFLE_HIGH + rest, c)
         == Exec(rest, c.(r10 := c.r8, r8 := c.r9, r9 := Load(c.mem, c.rsp + 8)))
  {
    var c1 := c.(r10 := c.r8);
    var c2 := c1.(r8 := c.r9);
    ExecTrace(UNSHUFFLE_HIGH, [c, c1, c2, c2.(r9 := Load(c.mem, c.rsp + 8))], rest);
  }

  /** Whatever hook ran, if it kept the callee-saved registers and the handler's frame the caller resumes
      after its call with its stack and frame pointers, the hook's result and the memory the hook left. */
  lemma {:induction false} CallerResumes(c: Cpu, back: Word, handler: Word, after: Cpu)
    requires 256 <= c.rsp && c.rsp + 8 < TOP
    requires PreservedByCall(AtHook(Arrived(c, back, handler)), after)
    ensures Exec(LEAVE, after) == Returned(after.(rsp := c.rsp, rbp := c.rbp), back) && after.saved == c.saved
  {
    ArrivedStack(c, back, handler);
    HandlerReturns(Arrived(c, back, handler), after);
  }

  /** The state in which the default hook asks the kernel. */
  function AtKernel(c: Cpu, back: Word, handler: Word, next: Word): Cpu
    requires 256 <= c.rsp
  {
    Unshuffled(Entered(AtHook(Arrived(c, back, handler)), next))
  }

  /** What the kernel keeps: the stack pointer, the callee-saved registers, the hook's return address and
      the handler's frame.  It may write any other memory, buffers on the caller's stack among it. */
  ghost predicate KernelKeeps(c: Cpu, k: Cpu) {
    && k.rsp == c.rsp && k.rbp == c.rbp && k.saved == c.saved
    && (forall a | c.rsp <= a < c.rsp + 8 :: k.mem(a) == c.mem(a))
    && (forall a | c.rbp <= a < c.rbp + 16 :: k.mem(a) == c.mem(a))
  }

  /** The hook's own return brings the kernel's result to the handler. */
  lemma {:induction false} HookReturns(c: Cpu, back: Word, handler: Word, next: Word, k: Cpu)
    requires 256 <= c.rsp && c.rsp + 8 < TOP && KernelKeeps(AtKernel(c, back, handler, next), k)
    ensures k.rsp + 8 < TOP && Exec([Ret], k) == Returned(k.(rsp := k.rsp + 8), next)
    ensures PreservedByCall(AtHook(Arrived(c, back, handler)), k.(rsp := k.rsp + 8))
  {
    var h := AtHook(Arrived(c, back, handler));
    LoadSame(k.mem, Entered(h, next).mem, h.rsp - 8);
    LoadStored(h.mem, h.rsp - 8, next);
  }

  /** End to end, with the default hook: from the rewritten call the kernel is asked for exactly the call the
      program made, and whatever it answers the program resumes after its call with that answer, the
      memory the kernel left, and its own stack pointer, frame pointer and callee-saved registers. */
  lemma {:induction false} SyscallRoundTrip(c: Cpu, back: Word, page: seq<Byte>, handler: Word, next: Word, k: Cpu)
    requires IsPageZero(page, handler) && c.rax < 512 && c.rax != 15 && 256 <= c.rsp && c.rsp + 8 < TOP
    requires KernelKeeps(AtKernel(c, back, handler, next), k)
    ensures Slide(page, c.rax, c.(rsp := c.rsp - 8, mem := Store(c.mem, c.rsp - 8, back)))
         == Landed(handler, Arrived(c, back, handler))
    ensures Exec(HANDLER, Arrived(c, back, handler)) == AtCall(AtHook(Arrived(c, back, handler)), LEAVE)
    ensures Exec(ORIGINAL, Entered(AtHook(Arrived(c, back, handler)), next))
         == AtSyscall(AtKernel(c, back, handler, next), [Ret])
    ensures SyscallArgs(AtKernel(c, back, handler, next)) == SyscallArgs(c)
    ensures k.rsp + 8 < TOP && Exec([Ret], k) == Returned(k.(rsp := k.rsp + 8), next)
    ensures Exec(LEAVE, k.(rsp := k.rsp + 8)) == Returned(k.(rsp := c.rsp, rbp := c.rbp), back) && k.saved == c.saved
  {
    CallArrives(c, back, page, handler);
    HookGetsTheCall(c, back, handler, next);
    OriginalReissues(Entered(AtHook(Arrived(c, back, handler)), next));
    HookReturns(c, back, handler, next, k);
    CallerResumes(c, back, handler, k.(rsp := k.rsp + 8));
  }

  /** The handler calls the hook for every number but that of rt_sigreturn. */
  lemma {:induction false} HookedIff(c: Cpu)
    requires 128 <= c.rsp && c.rsp + 16 < TOP
    ensures Exec(HANDLER, c).AtCall? <==> Load(c.mem, c.rsp) != 15
  {
    if Load(c.mem, c.rsp) != 15 {
      HandlerCalls(c);
    } else {
      var c1 := Entering(c, [Je] + BODY);
      assert Exec([Je] + BODY, c1) == Branched(c1);
    }
  }
}
