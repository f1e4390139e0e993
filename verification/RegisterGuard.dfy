/** The register-guard pass over PTX: it finds each function, collects the registers it
    declares, and inserts declarations, a save block and a restore block before each return.
    Lines are classified by the pass's own line patterns, which exclude one another. */
module RegisterGuard {
  import opened Common
  import opened Decimal

  datatype Line =
    | FuncHeader(text: string)
    | OpenBrace | CloseBrace
    | RegDecl(ty: string, base: string, count: Option<nat>)
    | LocalDecl(text: string)
    | Blank(text: string)            // empty, or a comment
    | Label(name: string)
    | Instr(text: string)            // anything else
    | Ret(pred: Option<string>)      // ret; or @%pN ret;

  /** The lines the pass writes. */
  datatype Guard =
    | DeclArea(size: nat)
    | DeclScratch(name: string)
    | Note(text: string)
    | MovBase
    | AddAddr(offset: nat)
    | StoreLocal(modifier: string, reg: string)
    | LoadLocal(modifier: string, reg: string)

  datatype Out = Orig(line: Line) | Added(guard: Guard)

  const BASE_REG := "%rd_ptx_instr_base"
  const ADDR_REG := "%rd_ptx_instr_addr"
  const INT_MAX: nat := 0x7fff_ffff

  // ----- registers -----

  function RegisterSize(ty: string): nat {
    if ty in {".b8", ".s8", ".u8"} then 1
    else if ty in {".b16", ".s16", ".u16", ".f16"} then 2
    else if ty in {".b32", ".s32", ".u32", ".f32"} then 4
    else if ty in {".b64", ".s64", ".u64", ".f64", ".f64x2"} then 8
    else if ty == ".pred" then 1
    else 0
  }

  function StorageModifier(ty: string, size: nat): string {
    if size == 1 then ".u8" else if size == 2 then ".u16" else if size == 4 then ".u32"
    else if size == 8 then ".u64" else ty
  }

  datatype RegInfo = RegInfo(base: string, count: nat, names: seq<string>, modifier: string)

  /** Declarations the pass never guards. */
  predicate Skipped(d: Line)
    requires d.RegDecl?
  {
    d.ty == ".pred" || d.base == "%SP" || d.base == "%SPL" || RegisterSize(d.ty) == 0
    || d.base == BASE_REG || d.base == ADDR_REG
  }

  predicate Clashes(r: RegInfo, d: Line)
    requires d.RegDecl?
  {
    r.base == d.base && d.count.Some? == (r.count > 1)
  }

  function Names(d: Line): seq<string>
    requires d.RegDecl?
  {
    if d.count.Some? && d.count.value <= INT_MAX then
      seq(d.count.value, k requires 0 <= k => d.base + Numeral(k))
    else [d.base]
  }

  function Describe(d: Line): RegInfo
    requires d.RegDecl?
  {
    RegInfo(d.base, if d.count.Some? && d.count.value <= INT_MAX then d.count.value else 1, Names(d),
            StorageModifier(d.ty, RegisterSize(d.ty)))
  }

  /** Whether line `l` adds a register entry to those found before it. */
  predicate Kept(regs: seq<RegInfo>, l: Line) {
    l.RegDecl? && !Skipped(l) && forall k | 0 <= k < |regs| :: !Clashes(regs[k], l)
  }

  function Collected(f: seq<Line>, n: nat): seq<RegInfo>
    requires n <= |f|
  {
    if n == 0 then []
    else
      var regs := Collected(f, n - 1);
      if Kept(regs, f[n - 1]) then regs + [Describe(f[n - 1])] else regs
  }

  method CollectRegisters(f: seq<Line>) returns (regs: seq<RegInfo>)
    ensures regs == Collected(f, |f|)
  {
    regs := [];
    for i := 0 to |f|
      invariant regs == Collected(f, i)
    {
      if f[i].RegDecl? && !Skipped(f[i]) {
        var conflict := false;
        for k := 0 to |regs|
          invariant conflict <==> exists j :: 0 <= j < k && Clashes(regs[j], f[i])
        {
          if Clashes(regs[k], f[i]) {
            conflict := true;
          }
        }
        if !conflict {
          regs := regs + [Describe(f[i])];
        }
      }
    }
  }

  // ----- slots -----

  /** One saved register: what to store and with which modifier. */
  datatype Slot = Slot(name: string, modifier: string)

  function SlotsOf(r: RegInfo): (s: seq<Slot>)
    ensures |s| == |r.names| && forall k | 0 <= k < |s| :: s[k] == Slot(r.names[k], r.modifier)
  {
    seq(|r.names|, k requires 0 <= k < |r.names| => Slot(r.names[k], r.modifier))
  }

  function Slots(regs: seq<RegInfo>, n: nat): seq<Slot>
    requires n <= |regs|
  {
    if n == 0 then [] else Slots(regs, n - 1) + SlotsOf(regs[n - 1])
  }

  lemma {:induction false} SlotsPrefix(regs: seq<RegInfo>, m: nat, n: nat)
    requires m <= n <= |regs|
    ensures Slots(regs, m) <= Slots(regs, n)
    decreases n
  {
    if m < n {
      SlotsPrefix(regs, m, n - 1);
    }
  }

  /** Where name `k` of entry `i` is in the slot list. */
  lemma {:induction false} SlotAt(regs: seq<RegInfo>, i: nat, k: nat)
    requires i < |regs| && k < |regs[i].names|
    ensures var at, all := |Slots(regs, i)| + k, Slots(regs, |regs|);
            at < |all| && all[at] == Slot(regs[i].names[k], regs[i].modifier)
  {
    SlotsPrefix(regs, i + 1, |regs|);
    var at := |Slots(regs, i)| + k;
    assert Slots(regs, i + 1)[at] == SlotsOf(regs[i])[k];
  }

  function SlotsIn(regs: seq<RegInfo>): seq<Slot> {
    Slots(regs, |regs|)
  }

  function AllSlots(f: seq<Line>): seq<Slot> {
    SlotsIn(Collected(f, |f|))
  }

  function AreaSize(total: nat): (size: nat)
    ensures size >= 8 && size >= total && size % 8 == 0
  {
    var size := if total < 8 then 8 else total;
    if size % 8 != 0 then (size + 7) / 8 * 8 else size
  }

  method TotalBytes(regs: seq<RegInfo>) returns (total: nat)
    ensures total == 8 * |SlotsIn(regs)|
  {
    total := 0;
    for i := 0 to |regs|
      invariant total == 8 * |Slots(regs, i)|
    {
      total := total + |regs[i].names| * 8;
    }
  }

  // ----- the inserted blocks -----

  function DeclBlock(total: nat): seq<Guard> {
    [DeclArea(AreaSize(total)), DeclScratch(BASE_REG), DeclScratch(ADDR_REG)]
  }

  function SaveSteps(slots: seq<Slot>, n: nat): (g: seq<Guard>)
    requires n <= |slots|
    ensures |g| == 2 * n
  {
    if n == 0 then []
    else SaveSteps(slots, n - 1) + [AddAddr(8 * (n - 1)), StoreLocal(slots[n - 1].modifier, slots[n - 1].name)]
  }

  /** The first `n` slots restored, the last of them first. */
  function RestoreSteps(slots: seq<Slot>, n: nat): (g: seq<Guard>)
    requires n <= |slots|
    ensures |g| == 2 * n
  {
    if n == 0 then []
    else [AddAddr(8 * (n - 1)), LoadLocal(slots[n - 1].modifier, slots[n - 1].name)] + RestoreSteps(slots, n - 1)
  }

  function SaveBlock(slots: seq<Slot>): seq<Guard> {
    [Note("// --- BEGIN REGISTER SAVING"), MovBase] + SaveSteps(slots, |slots|)
    + [Note("// --- END REGISTER SAVING")]
  }

  function RestoreBlock(slots: seq<Slot>): seq<Guard> {
    [Note(""), Note("// --- BEGIN REGISTER RESTORING"), MovBase] + RestoreSteps(slots, |slots|)
    + [Note("// --- END REGISTER RESTORING")]
  }

  lemma {:induction false} SaveStepsNext(slots: seq<Slot>, n: nat)
    requires n < |slots|
    ensures SaveSteps(slots, n + 1)
         == SaveSteps(slots, n) + [AddAddr(8 * n), StoreLocal(slots[n].modifier, slots[n].name)]
  {
  }

  lemma {:induction false} SaveNext(regs: seq<RegInfo>, i: nat, k: nat)
    requires i < |regs| && k < |regs[i].names|
    ensures var at, slots := |Slots(regs, i)| + k, Slots(regs, |regs|);
            && at < |slots|
            && SaveSteps(slots, at + 1)
            == SaveSteps(slots, at) + [AddAddr(8 * at), StoreLocal(regs[i].modifier, regs[i].names[k])]
  {
    SlotAt(regs, i, k);
    SaveStepsNext(Slots(regs, |regs|), |Slots(regs, i)| + k);
  }

  /** The inner loop: one add and one store for each name of a declaration. */
  method SaveNames(regs: seq<RegInfo>, i: nat, done: seq<Guard>, from: nat) returns (steps: seq<Guard>, offset: nat)
    requires i < |regs| && |Slots(regs, i)| + |regs[i].names| <= |Slots(regs, |regs|)|
    requires done == SaveSteps(Slots(regs, |regs|), |Slots(regs, i)|) && from == 8 * |Slots(regs, i)|
    ensures steps == SaveSteps(Slots(regs, |regs|), |Slots(regs, i)| + |regs[i].names|)
    ensures offset == 8 * (|Slots(regs, i)| + |regs[i].names|)
  {
    steps, offset := done, from;
    for k := 0 to |regs[i].names|
      invariant steps == SaveSteps(Slots(regs, |regs|), |Slots(regs, i)| + k)
      invariant offset == 8 * (|Slots(regs, i)| + k)
    {
      SaveNext(regs, i, k);
      steps := steps + [AddAddr(offset), StoreLocal(regs[i].modifier, regs[i].names[k])];
      offset := offset + 8;
    }
  }

  method BuildSave(regs: seq<RegInfo>) returns (g: seq<Guard>)
    ensures g == SaveBlock(SlotsIn(regs))
  {
    var steps := BuildSteps(regs);
    g := [Note("// --- BEGIN REGISTER SAVING"), MovBase] + steps + [Note("// --- END REGISTER SAVING")];
  }

  method BuildSteps(regs: seq<RegInfo>) returns (steps: seq<Guard>)
    ensures steps == SaveSteps(SlotsIn(regs), |SlotsIn(regs)|)
  {
    ghost var slots, at: nat := Slots(regs, |regs|), 0;
    steps := [];
    var offset: nat := 0;
    for i := 0 to |regs|
      invariant at == |Slots(regs, i)| <= |slots| && steps == SaveSteps(slots, at) && offset == 8 * at
    {
      SlotsCount(regs, i);
      steps, offset := SaveNames(regs, i, steps, offset);
      at := at + |regs[i].names|;
    }
  }

  lemma {:induction false} SlotsCount(regs: seq<RegInfo>, i: nat)
    requires i < |regs|
    ensures |Slots(regs, i + 1)| == |Slots(regs, i)| + |regs[i].names| <= |Slots(regs, |regs|)|
  {
    SlotsPrefix(regs, i + 1, |regs|);
  }

  lemma {:induction false} RestoreSnoc(slots: seq<Slot>, n: nat, done: seq<Guard>, step: seq<Guard>)
    requires 0 < n <= |slots| && done + RestoreSteps(slots, n) == RestoreSteps(slots, |slots|)
    requires step == [AddAddr(8 * (n - 1)), LoadLocal(slots[n - 1].modifier, slots[n - 1].name)]
    ensures done + step + RestoreSteps(slots, n - 1) == RestoreSteps(slots, |slots|)
  {
    assert done + step + RestoreSteps(slots, n - 1) == done + (step + RestoreSteps(slots, n - 1));
  }

  method BuildRestore(regs: seq<RegInfo>, total: nat) returns (g: seq<Guard>)
    requires total == 8 * |SlotsIn(regs)|
    ensures g == RestoreBlock(SlotsIn(regs))
  {
    var order: seq<Slot> := [];
    for i := 0 to |regs|
      invariant order == Slots(regs, i)
    {
      order := order + SlotsOf(regs[i]);
    }
    var steps: seq<Guard> := [];
    var offset: int := total - 8;
    var n: nat := |order|;
    while n > 0
      invariant n <= |order| && offset == 8 * n - 8
      invariant steps + RestoreSteps(order, n) == RestoreSteps(order, |order|)
    {
      var step := [AddAddr(offset), LoadLocal(order[n - 1].modifier, order[n - 1].name)];
      RestoreSnoc(order, n, steps, step);
      steps, offset, n := steps + step, offset - 8, n - 1;
    }
    g := [Note(""), Note("// --- BEGIN REGISTER RESTORING"), MovBase] + steps
         + [Note("// --- END REGISTER RESTORING")];
  }

  // ----- one function -----

  predicate Leading(l: Line) {
    l.Blank? || l.RegDecl? || l.LocalDecl?
  }

  /** The opening brace, if only declarations and comments come before it. */
  function BraceFrom(f: seq<Line>, i: nat): (r: Option<nat>)
    ensures r.Some? ==> i <= r.value < |f| && f[r.value].OpenBrace? && forall k | i <= k < r.value :: Leading(f[k])
    decreases |f| - i
  {
    if i >= |f| then None
    else if f[i].OpenBrace? then Some(i)
    else if Leading(f[i]) then BraceFrom(f, i + 1)
    else None
  }

  /** The end of the declarations that start at `i`. */
  function LeadEnd(f: seq<Line>, i: nat): (p: nat)
    requires i <= |f|
    ensures i <= p <= |f| && (forall k | i <= k < p :: Leading(f[k])) && (p < |f| ==> !Leading(f[p]))
    decreases |f| - i
  {
    if i < |f| && Leading(f[i]) then LeadEnd(f, i + 1) else i
  }

  function Copy(f: seq<Line>): (o: seq<Out>)
    ensures |o| == |f| && forall k | 0 <= k < |o| :: o[k] == Orig(f[k])
  {
    seq(|f|, k requires 0 <= k < |f| => Orig(f[k]))
  }

  function Block(g: seq<Guard>): (o: seq<Out>)
    ensures |o| == |g| && forall k | 0 <= k < |o| :: o[k] == Added(g[k])
  {
    seq(|g|, k requires 0 <= k < |g| => Added(g[k]))
  }

  /** The first `n` lines with the restore block before each return. */
  function Restoring(f: seq<Line>, restore: seq<Guard>, n: nat): seq<Out>
    requires n <= |f|
  {
    if n == 0 then []
    else Restoring(f, restore, n - 1) + ((if f[n - 1].Ret? then Block(restore) else []) + [Orig(f[n - 1])])
  }

  function Before(f: seq<Line>): seq<Guard> {
    var slots := AllSlots(f);
    if Collected(f, |f|) == [] then [] else DeclBlock(8 * |slots|) + (if slots == [] then [] else SaveBlock(slots))
  }

  function AtReturn(f: seq<Line>): seq<Guard> {
    var slots := AllSlots(f);
    if slots == [] then [] else RestoreBlock(slots)
  }

  /** Copied head, inserted block, and the rest with its returns guarded. */
  function Shape(f: seq<Line>, p: nat, before: seq<Guard>, restore: seq<Guard>): seq<Out>
    requires p <= |f|
  {
    Copy(f[..p]) + Block(before) + Restoring(f[p..], restore, |f| - p)
  }

  /** The guarded form of one function, header first and closing brace last. */
  function Guarded(f: seq<Line>): seq<Out> {
    GuardedWith(f, Before(f), AtReturn(f))
  }

  /** These blocks, in front of the first instruction and of every return. */
  function GuardedWith(f: seq<Line>, before: seq<Guard>, restore: seq<Guard>): seq<Out> {
    GuardedFrom(f, BraceFrom(f, 1), before, restore)
  }

  function GuardedFrom(f: seq<Line>, brace: Option<nat>, before: seq<Guard>, restore: seq<Guard>): seq<Out>
    requires brace.Some? ==> brace.value < |f|
  {
    if brace == None then Copy(f) else ShapeAfter(f, brace.value, before, restore)
  }

  /** Blocks inserted behind the declarations that follow the brace at line `b`. */
  function ShapeAfter(f: seq<Line>, b: nat, before: seq<Guard>, restore: seq<Guard>): seq<Out>
    requires b < |f|
  {
    Shape(f, LeadEnd(f, b + 1), before, restore)
  }

  method FindBrace(f: seq<Line>) returns (b: Option<nat>)
    requires |f| > 0
    ensures b == BraceFrom(f, 1)
  {
    b := None;
    var i := 1;
    while i < |f|
      invariant i <= |f| && b == None && BraceFrom(f, i) == BraceFrom(f, 1)
    {
      if f[i].OpenBrace? {
        b := Some(i);
        break;
      }
      if !Leading(f[i]) {
        break;
      }
      i := i + 1;
    }
  }

  method SkipLeading(f: seq<Line>, start: nat) returns (p: nat)
    requires start <= |f|
    ensures p == LeadEnd(f, start)
  {
    p := start;
    while p < |f| && Leading(f[p])
      invariant p <= |f| && LeadEnd(f, p) == LeadEnd(f, start)
    {
      p := p + 1;
    }
  }

  /** What the emission loop has written after `n` lines: `before` in front of line `p`, `restore`
      in front of each return. */
  function Emitted(f: seq<Line>, p: nat, before: seq<Guard>, restore: seq<Guard>, n: nat): seq<Out>
    requires n <= |f|
  {
    if n == 0 then []
    else
      Emitted(f, p, before, restore, n - 1) + (if n - 1 == p then Block(before) else [])
      + ((if f[n - 1].Ret? then Block(restore) else []) + [Orig(f[n - 1])])
  }

  lemma {:induction false} EmittedHead(f: seq<Line>, p: nat, before: seq<Guard>, restore: seq<Guard>, n: nat)
    requires n <= p <= |f| && forall k | 0 <= k < p :: !f[k].Ret?
    ensures Emitted(f, p, before, restore, n) == Copy(f[..n])
  {
    if n > 0 {
      EmittedHead(f, p, before, restore, n - 1);
      assert f[..n] == f[..n - 1] + [f[n - 1]];
    }
  }

  /** A line with its restore block, if it returns. */
  function GuardedLine(l: Line, restore: seq<Guard>): seq<Out> {
    (if l.Ret? then Block(restore) else []) + [Orig(l)]
  }

  lemma {:induction false} EmittedNext(f: seq<Line>, p: nat, before: seq<Guard>, restore: seq<Guard>, n: nat)
    requires n < |f|
    ensures Emitted(f, p, before, restore, n + 1)
         == Emitted(f, p, before, restore, n) + (if n == p then Block(before) else []) + GuardedLine(f[n], restore)
  {
  }

  lemma {:induction false} RestoringNext(f: seq<Line>, p: nat, restore: seq<Guard>, n: nat)
    requires p <= n < |f|
    ensures Restoring(f[p..], restore, n + 1 - p) == Restoring(f[p..], restore, n - p) + GuardedLine(f[n], restore)
  {
    assert f[p..][n - p] == f[n];
  }

  /** The loop's output in one piece: copied head, inserted block, and the rest with its returns guarded. */
  lemma {:induction false} EmittedShape(f: seq<Line>, p: nat, before: seq<Guard>, restore: seq<Guard>, n: nat)
    requires p < n <= |f| && forall k | 0 <= k < p :: !f[k].Ret?
    ensures Emitted(f, p, before, restore, n)
         == Copy(f[..p]) + Block(before) + Restoring(f[p..], restore, n - p)
  {
    EmittedNext(f, p, before, restore, n - 1);
    RestoringNext(f, p, restore, n - 1);
    if n - 1 == p {
      EmittedHead(f, p, before, restore, p);
    } else {
      EmittedShape(f, p, before, restore, n - 1);
    }
    Joined(Copy(f[..p]), Block(before), Restoring(f[p..], restore, n - 1 - p), GuardedLine(f[n - 1], restore),
           Emitted(f, p, before, restore, n - 1), n - 1 == p);
  }

  lemma {:induction false} Joined(a: seq<Out>, b: seq<Out>, c: seq<Out>, d: seq<Out>, e: seq<Out>, first: bool)
    requires if first then c == [] && e == a else e == a + b + c
    ensures e + (if first then b else []) + d == a + b + (c + d)
  {
  }

  method BuildBlocks(f: seq<Line>) returns (decls: seq<Guard>, save: seq<Guard>, restore: seq<Guard>)
    ensures decls + save == Before(f) && restore == AtReturn(f)
  {
    decls, save, restore := [], [], [];
    var regs := CollectRegisters(f);
    if regs != [] {
      var total := TotalBytes(regs);
      decls := DeclBlock(total);
      if total > 0 {
        save := BuildSave(regs);
        restore := BuildRestore(regs, total);
      }
    }
  }

  lemma {:induction false} BlockConcat(a: seq<Guard>, b: seq<Guard>)
    ensures Block(a + b) == Block(a) + Block(b)
  {
  }

  /** The emission loop; both insertion points are the same line. */
  method Emit(f: seq<Line>, declPoint: nat, savePoint: nat, decls: seq<Guard>, save: seq<Guard>, restore: seq<Guard>)
      returns (out: seq<Out>)
    requires declPoint == savePoint
    ensures out == Emitted(f, savePoint, decls + save, restore, |f|)
  {
    BlockConcat(decls, save);
    out := [];
    for i := 0 to |f|
      invariant out == Emitted(f, savePoint, decls + save, restore, i)
    {
      ghost var done := out;
      if i == declPoint {
        out := out + Block(decls);
      }
      if i == savePoint {
        out := out + Block(save);
        Regroup(done, Block(decls), Block(save));
      }
      ghost var mid := out;
      assert mid == done + if i == savePoint then Block(decls + save) else [];
      if f[i].Ret? {
        out := out + Block(restore);
      }
      Regroup(mid, if f[i].Ret? then Block(restore) else [], [Orig(f[i])]);
      out := out + [Orig(f[i])];
    }
  }

  lemma {:induction false} WithIsEmitted(f: seq<Line>, b: nat, p: nat, before: seq<Guard>, restore: seq<Guard>)
    requires |f| > 0 && f[0].FuncHeader? && f[|f| - 1].CloseBrace?
    requires BraceFrom(f, 1) == Some(b) && p == LeadEnd(f, b + 1)
    ensures GuardedWith(f, before, restore) == Emitted(f, p, before, restore, |f|)
  {
    WithIsShape(f, b, before, restore);
    EmittedIsShape(f, b, p, before, restore);
  }

  lemma {:induction false} GuardedIsShape(f: seq<Line>, b: nat)
    requires BraceFrom(f, 1) == Some(b)
    ensures Guarded(f) == Shape(f, LeadEnd(f, b + 1), Before(f), AtReturn(f))
  {
    WithIsShape(f, b, Before(f), AtReturn(f));
  }

  lemma {:induction false} WithIsShape(f: seq<Line>, b: nat, before: seq<Guard>, restore: seq<Guard>)
    requires BraceFrom(f, 1) == Some(b)
    ensures GuardedWith(f, before, restore) == Shape(f, LeadEnd(f, b + 1), before, restore)
  {
    FromIsShape(f, b, before, restore);
  }

  lemma {:induction false} FromIsShape(f: seq<Line>, b: nat, before: seq<Guard>, restore: seq<Guard>)
    requires b < |f|
    ensures GuardedFrom(f, Some(b), before, restore) == Shape(f, LeadEnd(f, b + 1), before, restore)
  {
  }

  lemma {:induction false} EmittedIsShape(f: seq<Line>, b: nat, p: nat, before: seq<Guard>, restore: seq<Guard>)
    requires 0 < b < p < |f| && f[0].FuncHeader? && f[b].OpenBrace?
    requires forall k | 1 <= k < p && k != b :: Leading(f[k])
    ensures Emitted(f, p, before, restore, |f|) == Shape(f, p, before, restore)
  {
    EmittedShape(f, p, before, restore, |f|);
  }

  /** One function; its closing brace is no declaration, so the insertion point is before the last line. */
  method GuardFunction(f: seq<Line>) returns (out: seq<Out>)
    requires |f| > 0 && f[0].FuncHeader? && f[|f| - 1].CloseBrace?
    ensures out == Guarded(f)
  {
    var decls, save, restore := BuildBlocks(f);
    var brace := FindBrace(f);
    if brace == None {
      return Copy(f);
    }
    var declPoint := SkipLeading(f, brace.value + 1);
    var savePoint := SkipLeading(f, declPoint);
    out := Emit(f, declPoint, savePoint, decls, save, restore);
    WithIsEmitted(f, brace.value, savePoint, Before(f), AtReturn(f));
  }

  // ----- the whole text -----

  /** The first line from `i` on that is a bare opening (or closing) brace. */
  function NextBrace(ls: seq<Line>, i: nat, open: bool): (r: Option<nat>)
    ensures r.Some? ==> i <= r.value < |ls| && if open then ls[r.value].OpenBrace? else ls[r.value].CloseBrace?
    decreases |ls| - i
  {
    if i >= |ls| then None
    else if (if open then ls[i].OpenBrace? else ls[i].CloseBrace?) then Some(i)
    else NextBrace(ls, i + 1, open)
  }

  /** One past the closing brace of the function that starts the text, if it is closed. */
  function FunctionEnd(ls: seq<Line>): (r: Option<nat>)
    ensures r.Some? ==> 2 < r.value <= |ls| && ls[r.value - 1].CloseBrace?
  {
    var o := NextBrace(ls, 1, true);
    if o == None then None
    else
      var c := NextBrace(ls, o.value + 1, false);
      if c == None then None else Some(c.value + 1)
  }

  /** Functions guarded one by one, everything between them and an unclosed last one copied. */
  function GuardAll(ls: seq<Line>): seq<Out>
    decreases |ls|
  {
    if ls == [] then []
    else if !ls[0].FuncHeader? then [Orig(ls[0])] + GuardAll(ls[1..])
    else match FunctionEnd(ls)
      case None => Copy(ls)
      case Some(e) => Guarded(ls[..e]) + GuardAll(ls[e..])
  }

  // ----- the pass over a text -----

  /** The lines gathered so far: none, a header still waiting for its brace, or an open body. */
  ghost predicate Gathering(cur: seq<Line>, inDefinition: bool, inBody: bool) {
    && !(inDefinition && inBody)
    && (!inDefinition && !inBody ==> cur == [])
    && (inDefinition ==> cur != [] && cur[0].FuncHeader? && NextBrace(cur, 1, true) == None)
    && (inBody ==> cur != [] && cur[0].FuncHeader? && NextBrace(cur, 1, true).Some?
                   && NextBrace(cur, NextBrace(cur, 1, true).value + 1, false) == None)
  }

  lemma {:induction false} NextBraceAppend(cur: seq<Line>, rest: seq<Line>, i: nat, open: bool)
    requires i <= |cur|
    ensures var r := NextBrace(cur, i, open);
            NextBrace(cur + rest, i, open) == if r.Some? then r else NextBrace(cur + rest, |cur|, open)
    decreases |cur| - i
  {
    if i < |cur| {
      assert (cur + rest)[i] == cur[i];
      NextBraceAppend(cur, rest, i + 1, open);
    }
  }

  /** A body that has just met its closing brace is a whole function. */
  lemma {:induction false} FunctionClosed(cur: seq<Line>, rest: seq<Line>)
    requires Gathering(cur, false, true) && rest != [] && rest[0].CloseBrace?
    ensures FunctionEnd(cur + rest) == Some(|cur| + 1)
  {
    NextBraceAppend(cur, rest, 1, true);
    NextBraceAppend(cur, rest, NextBrace(cur, 1, true).value + 1, false);
    assert (cur + rest)[|cur|] == rest[0];
  }

  lemma {:induction false} FunctionUnclosed(cur: seq<Line>, inDefinition: bool, inBody: bool)
    requires Gathering(cur, inDefinition, inBody)
    ensures GuardAll(cur) == Copy(cur)
  {
  }

  /** What is written plus what is still to come is the whole output. */
  ghost predicate Progress(out: seq<Out>, cur: seq<Line>, rest: seq<Line>, ls: seq<Line>) {
    out + GuardAll(cur + rest) == GuardAll(ls)
  }

  lemma {:induction false} CopyStep(out: seq<Out>, rest: seq<Line>, ls: seq<Line>)
    requires Progress(out, [], rest, ls) && rest != [] && !rest[0].FuncHeader?
    ensures Progress(out + [Orig(rest[0])], [], rest[1..], ls)
  {
    assert [] + rest == rest && [] + rest[1..] == rest[1..];
    Regroup(out, [Orig(rest[0])], GuardAll(rest[1..]));
  }

  lemma {:induction false} CloseStep(out: seq<Out>, cur: seq<Line>, rest: seq<Line>, ls: seq<Line>)
    requires Progress(out, cur, rest, ls) && Gathering(cur, false, true) && rest != [] && rest[0].CloseBrace?
    ensures Progress(out + Guarded(cur + [rest[0]]), [], rest[1..], ls)
  {
    GuardAllClosed(cur, rest);
    assert [] + rest[1..] == rest[1..];
    Regroup(out, Guarded(cur + [rest[0]]), GuardAll(rest[1..]));
  }

  lemma {:induction false} GuardAllClosed(cur: seq<Line>, rest: seq<Line>)
    requires Gathering(cur, false, true) && rest != [] && rest[0].CloseBrace?
    ensures GuardAll(cur + rest) == Guarded(cur + [rest[0]]) + GuardAll(rest[1..])
  {
    FunctionClosed(cur, rest);
    var all, e := cur + rest, |cur| + 1;
    assert all[..e] == cur + [rest[0]] && all[e..] == rest[1..] && all[0] == cur[0];
    GuardAllOne(all, e);
  }

  lemma {:induction false} GuardAllOne(ls: seq<Line>, e: nat)
    requires ls != [] && ls[0].FuncHeader? && e <= |ls| && FunctionEnd(ls) == Some(e)
    ensures GuardAll(ls) == Guarded(ls[..e]) + GuardAll(ls[e..])
  {
  }

  lemma {:induction false} GatherStep(out: seq<Out>, cur: seq<Line>, inDefinition: bool, inBody: bool, rest: seq<Line>,
                                      ls: seq<Line>)
    requires Progress(out, cur, rest, ls) && Gathering(cur, inDefinition, inBody) && rest != []
    requires if inDefinition || inBody then inBody ==> !rest[0].CloseBrace? else rest[0].FuncHeader?
    ensures Progress(out, cur + [rest[0]], rest[1..], ls)
    ensures var open := inBody || (inDefinition && rest[0].OpenBrace?);
            Gathering(cur + [rest[0]], !open, open)
  {
    assert cur + rest == cur + [rest[0]] + rest[1..];
    GatheringNext(cur, inDefinition, inBody, rest[0]);
  }

  lemma {:induction false} GatheringNext(cur: seq<Line>, inDefinition: bool, inBody: bool, l: Line)
    requires Gathering(cur, inDefinition, inBody)
    requires if inDefinition || inBody then inBody ==> !l.CloseBrace? else l.FuncHeader?
    ensures var open := inBody || (inDefinition && l.OpenBrace?); Gathering(cur + [l], !open, open)
  {
    if inDefinition || inBody {
      NextBraceAppend(cur, [l], 1, true);
    }
    if inBody {
      NextBraceAppend(cur, [l], NextBrace(cur, 1, true).value + 1, false);
    }
  }

  method GuardText(ls: seq<Line>) returns (out: seq<Out>)
    ensures out == GuardAll(ls)
  {
    out := [];
    var cur: seq<Line> := [];
    var inDefinition, inBody := false, false;
    NothingDone(ls);
    for i := 0 to |ls|
      invariant Gathering(cur, inDefinition, inBody)
      invariant Progress(out, cur, ls[i..], ls)
    {
      ghost var rest := ls[i..];
      assert rest[0] == ls[i] && rest[1..] == ls[i + 1..];
      if !inBody && !inDefinition {
        if ls[i].FuncHeader? {
          GatherStep(out, cur, false, false, rest, ls);
          inDefinition, cur := true, cur + [ls[i]];
        } else {
          CopyStep(out, rest, ls);
          out := out + [Orig(ls[i])];
        }
      } else if inDefinition {
        GatherStep(out, cur, true, false, rest, ls);
        cur := cur + [ls[i]];
        if ls[i].OpenBrace? {
          inBody, inDefinition := true, false;
        }
      } else {
        if ls[i].CloseBrace? {
          CloseStep(out, cur, rest, ls);
          var g := GuardFunction(cur + [ls[i]]);
          out, cur, inBody := out + g, [], false;
        } else {
          GatherStep(out, cur, false, true, rest, ls);
          cur := cur + [ls[i]];
        }
      }
    }
    AllDone(out, cur, inDefinition, inBody, ls);
    if inDefinition || inBody {
      out := out + Copy(cur);
    }
  }

  lemma {:induction false} NothingDone(ls: seq<Line>)
    ensures Progress([], [], ls[0..], ls)
  {
    assert [] + ls[0..] == ls && [] + GuardAll(ls) == GuardAll(ls);
  }

  lemma {:induction false} AllDone(out: seq<Out>, cur: seq<Line>, inDefinition: bool, inBody: bool, ls: seq<Line>)
    requires Gathering(cur, inDefinition, inBody) && Progress(out, cur, ls[|ls|..], ls)
    ensures GuardAll(ls) == if inDefinition || inBody then out + Copy(cur) else out
  {
    FunctionUnclosed(cur, inDefinition, inBody);
    assert cur + ls[|ls|..] == cur;
  }

  // ----- the pass only inserts -----

  /** A text without the lines the pass added. */
  function Erased(out: seq<Out>): seq<Line> {
    if out == [] then []
    else
      var init, last := Erased(out[..|out| - 1]), out[|out| - 1];
      if last.Orig? then init + [last.line] else init
  }

  lemma {:induction false} ErasedConcat(a: seq<Out>, b: seq<Out>)
    ensures Erased(a + b) == Erased(a) + Erased(b)
    decreases |b|
  {
    if b == [] {
      assert a + b == a;
    } else {
      var init := b[..|b| - 1];
      assert (a + b)[..|a + b| - 1] == a + init;
      ErasedConcat(a, init);
    }
  }

  lemma {:induction false} ErasedCopy(f: seq<Line>)
    ensures Erased(Copy(f)) == f
  {
    if f != [] {
      ErasedCopy(f[..|f| - 1]);
      assert Copy(f)[..|f| - 1] == Copy(f[..|f| - 1]);
    }
  }

  lemma {:induction false} ErasedBlock(g: seq<Guard>)
    ensures Erased(Block(g)) == []
  {
    if g != [] {
      ErasedBlock(g[..|g| - 1]);
      assert Block(g)[..|g| - 1] == Block(g[..|g| - 1]);
    }
  }

  lemma {:induction false} ErasedRestoring(f: seq<Line>, restore: seq<Guard>, n: nat)
    requires n <= |f|
    ensures Erased(Restoring(f, restore, n)) == f[..n]
  {
    if n > 0 {
      ErasedRestoring(f, restore, n - 1);
      ErasedBlock(restore);
      ErasedTail(Restoring(f, restore, n - 1), if f[n - 1].Ret? then Block(restore) else [], f[n - 1]);
    }
  }

  lemma {:induction false} ErasedTail(a: seq<Out>, block: seq<Out>, l: Line)
    requires Erased(block) == []
    ensures Erased(a + (block + [Orig(l)])) == Erased(a) + [l]
  {
    ErasedOne(l);
    ErasedJoin(block, [Orig(l)], [], [l]);
    ErasedJoin(a, block + [Orig(l)], Erased(a), [l]);
  }

  lemma {:induction false} ErasedShape(f: seq<Line>, p: nat, before: seq<Guard>, restore: seq<Guard>)
    requires p <= |f|
    ensures Erased(Shape(f, p, before, restore)) == f
  {
    var head, block, tail := Copy(f[..p]), Block(before), Restoring(f[p..], restore, |f| - p);
    ErasedCopy(f[..p]);
    ErasedBlock(before);
    ErasedRestoring(f[p..], restore, |f| - p);
    ErasedThree(head, block, tail, f[..p], f[p..][..|f| - p]);
    Halves(f, p);
  }

  lemma {:induction false} ErasedThree(a: seq<Out>, b: seq<Out>, c: seq<Out>, x: seq<Line>, y: seq<Line>)
    requires Erased(a) == x && Erased(b) == [] && Erased(c) == y
    ensures Erased(a + b + c) == x + y
  {
    ErasedConcat(a, b);
    ErasedConcat(a + b, c);
    assert x + [] == x;
  }

  lemma {:induction false} Halves<T>(s: seq<T>, n: nat)
    requires n <= |s|
    ensures s[..n] + s[n..] == s && s[n..][..|s| - n] == s[n..] && s[..n] + [] == s[..n]
  {
  }

  lemma {:induction false} ErasedGuarded(f: seq<Line>)
    ensures Erased(Guarded(f)) == f
  {
    match BraceFrom(f, 1)
    case None => ErasedCopy(f);
    case Some(b) =>
      GuardedIsShape(f, b);
      ErasedShape(f, LeadEnd(f, b + 1), Before(f), AtReturn(f));
  }

  lemma {:induction false} ErasedFunction(f: seq<Line>, rest: seq<Line>)
    requires Erased(GuardAll(rest)) == rest
    ensures Erased(Guarded(f) + GuardAll(rest)) == f + rest
  {
    ErasedGuarded(f);
    ErasedJoin(Guarded(f), GuardAll(rest), f, rest);
  }

  /** Deleting what the pass inserted gives back the text, whatever functions it holds. */
  lemma {:induction false} OnlyInserts(ls: seq<Line>)
    ensures Erased(GuardAll(ls)) == ls
    decreases |ls|
  {
    if ls == [] {
    } else if !ls[0].FuncHeader? {
      OnlyInserts(ls[1..]);
      ErasedLine(ls);
    } else if FunctionEnd(ls) == None {
      ErasedCopy(ls);
    } else {
      OnlyInserts(ls[FunctionEnd(ls).value..]);
      ErasedFirst(ls, FunctionEnd(ls).value);
    }
  }

  lemma {:induction false} ErasedLine(ls: seq<Line>)
    requires ls != [] && !ls[0].FuncHeader? && Erased(GuardAll(ls[1..])) == ls[1..]
    ensures Erased(GuardAll(ls)) == ls
  {
    ErasedOne(ls[0]);
    ErasedJoin([Orig(ls[0])], GuardAll(ls[1..]), [ls[0]], ls[1..]);
    assert ls == [ls[0]] + ls[1..];
  }

  lemma {:induction false} ErasedOne(l: Line)
    ensures Erased([Orig(l)]) == [l]
  {
    assert [Orig(l)][..0] == [];
  }

  lemma {:induction false} ErasedJoin(a: seq<Out>, b: seq<Out>, x: seq<Line>, y: seq<Line>)
    requires Erased(a) == x && Erased(b) == y
    ensures Erased(a + b) == x + y
  {
    ErasedConcat(a, b);
  }

  lemma {:induction false} ErasedFirst(ls: seq<Line>, e: nat)
    requires ls != [] && ls[0].FuncHeader? && FunctionEnd(ls) == Some(e) && Erased(GuardAll(ls[e..])) == ls[e..]
    ensures Erased(GuardAll(ls)) == ls
  {
    ErasedFunction(ls[..e], ls[e..]);
    Halves(ls, e);
  }

  // ----- slots and offsets -----

  /** Bytes a local store or load of this type moves; zero for none. */
  function Width(modifier: string): nat {
    if modifier == ".u8" then 1 else if modifier == ".u16" then 2 else if modifier == ".u32" then 4
    else if modifier == ".u64" then 8 else 0
  }

  /** A slot the pass may write: at most eight bytes wide and not one of its own two registers. */
  predicate Good(s: Slot) {
    1 <= Width(s.modifier) <= 8 && s.name != BASE_REG && s.name != ADDR_REG
  }

  lemma {:induction false} WidthIsSize(ty: string)
    ensures RegisterSize(ty) > 0 ==> Width(StorageModifier(ty, RegisterSize(ty))) == RegisterSize(ty)
  {
  }

  /** A numbered name ends in a digit, so it is neither scratch register. */
  lemma {:induction false} NumberedName(base: string, k: nat)
    ensures base + Numeral(k) != BASE_REG && base + Numeral(k) != ADDR_REG
  {
    var name := base + Numeral(k);
    assert Digit(name[|name| - 1]);
  }

  lemma {:induction false} NamesAreGood(d: Line, k: nat)
    requires d.RegDecl? && !Skipped(d) && k < |Names(d)|
    ensures Good(Slot(Names(d)[k], Describe(d).modifier))
  {
    WidthIsSize(d.ty);
    NumberedName(d.base, k);
  }

  ghost predicate AllGood(slots: seq<Slot>) {
    forall k | 0 <= k < |slots| :: Good(slots[k])
  }

  lemma {:induction false} DescribedAreGood(d: Line)
    requires d.RegDecl? && !Skipped(d)
    ensures AllGood(SlotsOf(Describe(d)))
  {
    forall k | 0 <= k < |Names(d)|
      ensures Good(Slot(Names(d)[k], Describe(d).modifier))
    {
      NamesAreGood(d, k);
    }
  }

  lemma {:induction false} SlotsAreGood(f: seq<Line>, n: nat)
    requires n <= |f|
    ensures AllGood(Slots(Collected(f, n), |Collected(f, n)|))
  {
    if n > 0 {
      SlotsAreGood(f, n - 1);
      var before := Collected(f, n - 1);
      if Kept(before, f[n - 1]) {
        SlotsSnoc(before, Describe(f[n - 1]));
        DescribedAreGood(f[n - 1]);
      }
    }
  }

  lemma {:induction false} SlotsSnoc(regs: seq<RegInfo>, r: RegInfo)
    ensures Slots(regs + [r], |regs| + 1) == Slots(regs, |regs|) + SlotsOf(r)
  {
    SlotsFrame(regs, [r], |regs|);
  }

  lemma {:induction false} SlotsFrame(regs: seq<RegInfo>, more: seq<RegInfo>, n: nat)
    requires n <= |regs|
    ensures Slots(regs + more, n) == Slots(regs, n)
  {
    if n > 0 {
      SlotsFrame(regs, more, n - 1);
    }
  }

  /** Slots do not overlap and end inside the declared area. */
  lemma {:induction false} SlotsDisjoint(f: seq<Line>, i: nat, j: nat)
    requires var slots := AllSlots(f); i < |slots| && j < |slots| && i != j
    ensures var slots := AllSlots(f);
            && (8 * i + Width(slots[i].modifier) <= 8 * j || 8 * j + Width(slots[j].modifier) <= 8 * i)
            && 8 * i + Width(slots[i].modifier) <= AreaSize(8 * |slots|)
  {
    SlotsAreGood(f, |f|);
    assert Good(AllSlots(f)[i]) && Good(AllSlots(f)[j]);
  }

  lemma {:induction false} SaveStepAt(slots: seq<Slot>, n: nat, k: nat)
    requires k < n <= |slots|
    ensures SaveSteps(slots, n)[2 * k] == AddAddr(8 * k)
    ensures SaveSteps(slots, n)[2 * k + 1] == StoreLocal(slots[k].modifier, slots[k].name)
    decreases n
  {
    if k < n - 1 {
      SaveStepAt(slots, n - 1, k);
    }
  }

  lemma {:induction false} RestoreStepAt(slots: seq<Slot>, n: nat, k: nat)
    requires k < n <= |slots|
    ensures RestoreSteps(slots, n)[2 * (n - 1 - k)] == AddAddr(8 * k)
    ensures RestoreSteps(slots, n)[2 * (n - 1 - k) + 1] == LoadLocal(slots[k].modifier, slots[k].name)
    decreases n
  {
    if k < n - 1 {
      RestoreStepAt(slots, n - 1, k);
    }
  }

  /** The reverse walk addresses each register where its save did, with the same type. */
  lemma {:induction false} RestoreMatchesSave(slots: seq<Slot>, k: nat)
    requires k < |slots|
    ensures var save, restore, s, r := SaveBlock(slots), RestoreBlock(slots), 2 + 2 * k, 3 + 2 * (|slots| - 1 - k);
            && s + 1 < |save| && r + 1 < |restore|
            && save[s] == restore[r] == AddAddr(8 * k)
            && save[s + 1] == StoreLocal(slots[k].modifier, slots[k].name)
            && restore[r + 1] == LoadLocal(slots[k].modifier, slots[k].name)
  {
    SaveStepAt(slots, |slots|, k);
    RestoreStepAt(slots, |slots|, k);
  }

  // ----- which registers are guarded -----

  predicate Guardable(l: Line) {
    l.RegDecl? && !Skipped(l)
  }

  /** No two guardable declarations share a base name. */
  ghost predicate DistinctBases(f: seq<Line>) {
    forall i, j | 0 <= i < j < |f| && Guardable(f[i]) && Guardable(f[j]) :: f[i].base != f[j].base
  }

  lemma {:induction false} EntryHasDeclaration(f: seq<Line>, n: nat, e: nat) returns (i: nat)
    requires n <= |f| && e < |Collected(f, n)|
    ensures i < n && Guardable(f[i]) && Collected(f, n)[e] == Describe(f[i])
    decreases n
  {
    if e < |Collected(f, n - 1)| {
      i := EntryHasDeclaration(f, n - 1, e);
    } else {
      i := n - 1;
    }
  }

  lemma {:induction false} DeclarationHasEntry(f: seq<Line>, n: nat, i: nat) returns (e: nat)
    requires i < n <= |f| && Guardable(f[i]) && DistinctBases(f)
    ensures e < |Collected(f, n)| && Collected(f, n)[e] == Describe(f[i])
    decreases n
  {
    if i < n - 1 {
      e := DeclarationHasEntry(f, n - 1, i);
    } else {
      var regs := Collected(f, i);
      e := |regs|;
      forall k | 0 <= k < |regs|
        ensures !Clashes(regs[k], f[i])
      {
        var j := EntryHasDeclaration(f, i, k);
      }
    }
  }

  /** The entry and position a slot comes from. */
  lemma {:induction false} SlotHasEntry(regs: seq<RegInfo>, n: nat, s: nat) returns (e: nat, k: nat)
    requires n <= |regs| && s < |Slots(regs, n)|
    ensures e < n && k < |regs[e].names| && Slots(regs, n)[s] == Slot(regs[e].names[k], regs[e].modifier)
    decreases n
  {
    var m := |Slots(regs, n - 1)|;
    if s < m {
      e, k := SlotHasEntry(regs, n - 1, s);
    } else {
      e, k := n - 1, s - m;
    }
  }

  ghost predicate IsSaved(f: seq<Line>, name: string) {
    var slots := AllSlots(f);
    exists s :: 0 <= s < |slots| && slots[s].name == name
  }

  ghost predicate IsDeclared(f: seq<Line>, name: string) {
    exists i :: 0 <= i < |f| && Guardable(f[i]) && name in Names(f[i])
  }

  /** Every guarded register is a declared one; with distinct bases the two are the same. */
  lemma {:induction false} GuardedRegisters(f: seq<Line>, name: string)
    ensures IsSaved(f, name) ==> IsDeclared(f, name)
    ensures DistinctBases(f) ==> (IsSaved(f, name) <==> IsDeclared(f, name))
  {
    var regs := Collected(f, |f|);
    var slots := Slots(regs, |regs|);
    if IsSaved(f, name) {
      var s :| 0 <= s < |slots| && slots[s].name == name;
      var e, k := SlotHasEntry(regs, |regs|, s);
      var i := EntryHasDeclaration(f, |f|, e);
      assert name == Names(f[i])[k];
    }
    if DistinctBases(f) && IsDeclared(f, name) {
      var i :| 0 <= i < |f| && Guardable(f[i]) && name in Names(f[i]);
      var k :| 0 <= k < |Names(f[i])| && Names(f[i])[k] == name;
      var e := DeclarationHasEntry(f, |f|, i);
      SlotAt(regs, e, k);
      assert slots[|Slots(regs, e)| + k].name == name;
    }
  }
}
