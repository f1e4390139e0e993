/** Where the guard stops: a predicated return, in front of which the restore block runs even when the
    return is not taken, and a register wider than its slot. */
module GuardLimits {
  import opened Common
  import opened Bytes
  import opened RegisterGuard
  import opened GuardMachine
  import EarlyReturns

  // ----- a predicated return -----

  /** After its declarations the function runs `x`, may return, runs `y` and returns; anything may follow. */
  ghost predicate ReturnsEarly(f: seq<Line>, b: nat, x: string, p: string, y: string) {
    && BraceFrom(f, 1) == Some(b)
    && var at := LeadEnd(f, b + 1);
       && at + 3 < |f| && f[at] == Instr(x) && f[at + 1] == Ret(Some(p)) && f[at + 2] == Instr(y)
       && f[at + 3] == Ret(None)
  }

  /** `x` sets the register, `y` stores it. */
  function SetThenStore(x: string, y: string, r: string): Sem {
    (text: string, e: Env) =>
      if text == x then Next(e.(regs := e.regs[r := 1]))
      else if text == y then Next(e.(mem := e.mem[0 := Get(e.regs, r)]))
      else Stuck
  }

  ghost predicate Means(sem: Sem, x: string, y: string, r: string) {
    forall e {:trigger sem(x, e)} {:trigger sem(y, e)} ::
      && sem(x, e) == Next(e.(regs := e.regs[r := 1]))
      && sem(y, e) == Next(e.(mem := e.mem[0 := Get(e.regs, r)]))
  }

  /** The unguarded body, from its first instruction. */
  lemma {:induction false} PlainRun(sem: Sem, code: seq<Out>, q: nat, x: string, p: string, y: string, r: string,
                                    s: State, origin: nat)
    requires Means(sem, x, y, r) && p != r && s.env == Env(map[], map[])
    requires q + 3 < |code| && code[q] == Orig(Instr(x)) && code[q + 1] == Orig(Ret(Some(p)))
    requires code[q + 2] == Orig(Instr(y)) && code[q + 3] == Orig(Ret(None))
    ensures Run(sem, code, origin, s, q, 4) == Halted(s.(env := Env(map[r := 1], map[0 := 1])))
  {
    var one := s.(env := Env(map[r := 1], map[]));
    var stored := s.(env := Env(map[r := 1], map[0 := 1]));
    assert sem(x, s.env) == Next(one.env) && sem(y, one.env) == Next(stored.env);
    RunGo(sem, code, origin, s, q, one, q + 1, 4);
    RunGo(sem, code, origin, one, q + 1, one, q + 2, 3);
    RunGo(sem, code, origin, one, q + 2, stored, q + 3, 2);
    RunReturn(sem, code, origin, stored, q + 3, 1);
  }

  /** The restore block in front of the return that is not taken resets the register. */
  lemma {:induction false} RestoredEarly(restore: seq<Guard>, slots: seq<Slot>, r: string, p: string, origin: nat,
                                         st: State, st': State) returns (last: State)
    requires Restores(restore, slots, map[], origin) && InStep(slots, map[], origin, st, st')
    requires First(slots, |slots|, r).Some? && First(slots, |slots|, p) == None && !Scratch(r) && !Scratch(p)
    requires Get(st.env.regs, p) == 0
    ensures ExecAll(restore, st', origin) == Some(last) && last.area == st'.area && last.env.mem == st.env.mem
    ensures Get(last.env.regs, r) == 0 && Get(last.env.regs, p) == 0
  {
    assert BringsBack(restore, slots, map[], origin, st, st');
    last := ExecAll(restore, st', origin).value;
    assert Get(last.env.regs, r) == Restored(slots, |slots|, map[], st.env.regs, r);
    assert Get(last.env.regs, p) == Restored(slots, |slots|, map[], st.env.regs, p);
  }

  /** From the save block to the first restore block, and past the return that is not taken. */
  lemma {:induction false} FirstHalf(sem: Sem, code: seq<Out>, a: nat, b: nat, c: nat, x: string, p: string, y: string,
                                     r: string, restore: seq<Guard>, slots: seq<Slot>, origin: nat, s: State,
                                     st': State, fuel: nat) returns (last: State)
    requires LineHere(code, a, b, [], Instr(x)) && LineHere(code, b, c, restore, Ret(Some(p)))
    requires Means(sem, x, y, r) && s.env == Env(map[], map[]) && InStep(slots, map[], origin, s, st')
    requires First(slots, |slots|, r).Some? && First(slots, |slots|, p) == None && !Scratch(r) && !Scratch(p)
    requires Restores(restore, slots, map[], origin) && fuel > |restore| + 2
    ensures Run(sem, code, origin, st', a, fuel) == Run(sem, code, origin, last, c, fuel - 2 - |restore|)
    ensures Get(last.env.regs, r) == 0 && last.env.mem == map[] && last.area == st'.area
  {
    var plain, one := s.(env := Env(map[r := 1], map[])), Set(st', r, 1);
    assert sem(x, st'.env) == Next(one.env);
    RunGo(sem, code, origin, st', a, one, b, fuel);
    last := RestoredEarly(restore, slots, r, p, origin, plain, one);
    RunBlock(sem, code, origin, one, b, restore, last, fuel - 1);
    RunGo(sem, code, origin, last, b + |restore|, last, c, fuel - 1 - |restore|);
  }

  /** The store sees the restored register, and the last return ends the run. */
  lemma {:induction false} SecondHalf(sem: Sem, code: seq<Out>, a: nat, b: nat, c: nat, x: string, y: string, r: string,
                                      restore: seq<Guard>, slots: seq<Slot>, origin: nat, st: State, fuel: nat)
      returns (last: State)
    requires LineHere(code, a, b, [], Instr(y)) && LineHere(code, b, c, restore, Ret(None))
    requires Means(sem, x, y, r) && Get(st.env.regs, r) == 0 && st.env.mem == map[]
    requires InStep(slots, map[], origin, st, st) && Restores(restore, slots, map[], origin) && fuel > |restore| + 1
    ensures Run(sem, code, origin, st, a, fuel) == Halted(last) && last.env.mem == map[0 := 0]
  {
    var stored := st.(env := st.env.(mem := map[0 := 0]));
    assert sem(y, st.env) == Next(stored.env);
    RunGo(sem, code, origin, st, a, stored, b, fuel);
    assert InStep(slots, map[], origin, stored, stored);
    assert BringsBack(restore, slots, map[], origin, stored, stored);
    last := ExecAll(restore, stored, origin).value;
    RunBlock(sem, code, origin, stored, b, restore, last, fuel - 1);
    RunReturn(sem, code, origin, last, b + |restore|, fuel - 1 - |restore|);
  }

  /** The four lines, where they stand in the guarded body. */
  lemma {:induction false} FourLines(code: seq<Out>, body: seq<Line>, q: nat, before: seq<Guard>, restore: seq<Guard>,
                                     at: seq<nat>, x: string, p: string, y: string)
    requires Mirrors(code, body, q, before, restore, at) && q + 3 < |body|
    requires body[q] == Instr(x) && body[q + 1] == Ret(Some(p)) && body[q + 2] == Instr(y) && body[q + 3] == Ret(None)
    ensures LineHere(code, at[q], at[q + 1], [], Instr(x))
    ensures LineHere(code, at[q + 1], at[q + 2], restore, Ret(Some(p)))
    ensures LineHere(code, at[q + 2], at[q + 3], [], Instr(y))
    ensures LineHere(code, at[q + 3], at[q + 4], restore, Ret(None))
  {
    var q1, q2, q3 := q + 1, q + 2, q + 3;
    assert LineHere(code, at[q], at[q + 1], Lead(body[q], restore), body[q]);
    assert LineHere(code, at[q1], at[q1 + 1], Lead(body[q1], restore), body[q1]);
    assert LineHere(code, at[q2], at[q2 + 1], Lead(body[q2], restore), body[q2]);
    assert LineHere(code, at[q3], at[q3 + 1], Lead(body[q3], restore), body[q3]);
  }

  lemma {:induction false} GuardedRun(sem: Sem, code: seq<Out>, body: seq<Line>, q: nat, before: seq<Guard>,
                                      restore: seq<Guard>, at: seq<nat>, slots: seq<Slot>, x: string, p: string,
                                      y: string, r: string, origin: nat, s: State, st': State) returns (last: State)
    requires Mirrors(code, body, q, before, restore, at) && q + 3 < |body| && Means(sem, x, y, r)
    requires body[q] == Instr(x) && body[q + 1] == Ret(Some(p)) && body[q + 2] == Instr(y) && body[q + 3] == Ret(None)
    requires s.env == Env(map[], map[]) && InStep(slots, map[], origin, s, st')
    requires First(slots, |slots|, r).Some? && First(slots, |slots|, p) == None && !Scratch(r) && !Scratch(p)
    requires Restores(restore, slots, map[], origin) && ExecAll(before, s, origin) == Some(st')
    ensures last.env.mem == map[0 := 0] && Ends(sem, code, origin, s, Halted(last))
  {
    FourLines(code, body, q, before, restore, at, x, p, y);
    last := GuardedTail(sem, code, at[q], at[q + 1], at[q + 2], at[q + 3], at[q + 4], restore, slots, x, p, y, r,
                        origin, s, st');
    EnterThenEnd(sem, code, body, q, before, restore, at, s, origin, st', 2 * |restore| + 10, Halted(last));
  }

  /** The lines in front of the first instruction, then a run from there that ends. */
  lemma {:induction false} EnterThenEnd(sem: Sem, code: seq<Out>, body: seq<Line>, q: nat, before: seq<Guard>,
                                        restore: seq<Guard>, at: seq<nat>, s: State, origin: nat, st': State,
                                        fuel: nat, r: Result)
    requires Mirrors(code, body, q, before, restore, at) && ExecAll(before, s, origin) == Some(st')
    requires fuel > 0 && r != OutOfFuel && Run(sem, code, origin, st', at[q], fuel) == r
    ensures Ends(sem, code, origin, s, r)
  {
    var n := q + |before|;
    Entered(sem, code, body, q, before, restore, at, s, origin, st', n + fuel);
    EndsLater(sem, code, origin, s, n, st', fuel, r);
  }

  /** The four lines from the first instruction on. */
  lemma {:induction false} GuardedTail(sem: Sem, code: seq<Out>, a0: nat, a1: nat, a2: nat, a3: nat, a4: nat,
                                       restore: seq<Guard>, slots: seq<Slot>, x: string, p: string, y: string,
                                       r: string, origin: nat, s: State, st': State) returns (last: State)
    requires LineHere(code, a0, a1, [], Instr(x)) && LineHere(code, a1, a2, restore, Ret(Some(p)))
    requires LineHere(code, a2, a3, [], Instr(y)) && LineHere(code, a3, a4, restore, Ret(None)) && Means(sem, x, y, r)
    requires s.env == Env(map[], map[]) && InStep(slots, map[], origin, s, st')
    requires First(slots, |slots|, r).Some? && First(slots, |slots|, p) == None && !Scratch(r) && !Scratch(p)
    requires Restores(restore, slots, map[], origin)
    ensures last.env.mem == map[0 := 0] && Run(sem, code, origin, st', a0, 2 * |restore| + 10) == Halted(last)
  {
    var m := |restore|;
    var mid := FirstHalf(sem, code, a0, a1, a2, x, p, y, r, restore, slots, origin, s, st', 2 * m + 10);
    last := SecondHalf(sem, code, a2, a3, a4, x, y, r, restore, slots, origin, mid, m + 8);
  }

  lemma {:induction false} EndsLater(sem: Sem, code: seq<Out>, origin: nat, s: State, n: nat, st': State, fuel: nat,
                                     r: Result)
    requires Reaches(sem, code, origin, s, n, st', n + fuel) && fuel > 0
    requires r != OutOfFuel && Run(sem, code, origin, st', n, fuel) == r
    ensures Ends(sem, code, origin, s, r)
  {
    EndsAt(sem, code, origin, s, n + fuel, r);
  }

  lemma {:induction false} EndsAt(sem: Sem, code: seq<Out>, origin: nat, s: State, fuel: nat, r: Result)
    requires r != OutOfFuel && Run(sem, code, origin, s, 0, fuel) == r
    ensures Ends(sem, code, origin, s, r)
  {
  }

  /** Every function of that shape, with any saved register `r`: under some meaning of its two instructions
      the original stores 1 and its guarded form stores the register's entry value. */
  lemma {:induction false} GuardBreaksEarlyReturn(f: seq<Line>, b: nat, x: string, p: string, y: string, r: string,
                                                  s: State, origin: nat)
    requires ReturnsEarly(f, b, x, p, y) && x != y && IsSaved(f, r) && !IsSaved(f, p) && !Scratch(p)
    requires s.env == Env(map[], map[])
    requires |s.area| == AreaSize(8 * |AllSlots(f)|) && origin + |s.area| <= ADDRESS_SPACE
    ensures b + 1 <= |Guarded(f)|
    ensures exists st, st' :: && Ends(SetThenStore(x, y, r), Copy(f[b + 1..]), origin, s, Halted(st))
                              && Ends(SetThenStore(x, y, r), Guarded(f)[b + 1..], origin, s, Halted(st'))
                              && st.env.mem == map[0 := 1] && st'.env.mem == map[0 := 0]
  {
    var sem, body := SetThenStore(x, y, r), f[b + 1..];
    var q, at := GuardedBody(f, b);
    var st' := Prepared(f, s, origin);
    SavedIsFirst(f, r);
    SavedIsFirst(f, p);
    FourLinesOf(f, b, q, x, p, y);
    PlainEnds(sem, body, q, x, p, y, r, s, origin);
    var last := GuardedRun(sem, Guarded(f)[b + 1..], body, q, Before(f), AtReturn(f), at, AllSlots(f), x, p, y, r,
                           origin, s, st');
  }

  /** With any instructions, equal or not, the shape is a hazard. */
  lemma {:induction false} EarlyReturnIsHazard(f: seq<Line>, b: nat, x: string, p: string, y: string)
    requires ReturnsEarly(f, b, x, p, y)
    ensures EarlyReturns.Hazard(f[b + 1..], EarlyReturns.FirstLine(f, b))
  {
    var body, q := f[b + 1..], EarlyReturns.FirstLine(f, b);
    FourLinesOf(f, b, q, x, p, y);
    var plan: seq<EarlyReturns.Choice> := [None];
    assert plan[1..] == [] && EarlyReturns.Leads(body, q + 1, [], q + 1);
    assert EarlyReturns.Leads(body, q, plan, q + 1);
    assert EarlyReturns.Leads(body, q + 2, [], q + 2) && EarlyReturns.MeetsReturn(body, q + 3);
    assert EarlyReturns.HazardAt(body, q, plan, q + 1, q + 2);
  }

  lemma {:induction false} FourLinesOf(f: seq<Line>, b: nat, q: nat, x: string, p: string, y: string)
    requires ReturnsEarly(f, b, x, p, y) && q == LeadEnd(f, b + 1) - (b + 1)
    ensures var body := f[b + 1..];
            && q + 3 < |body| && (forall k | 0 <= k < q :: Leading(body[k]))
            && body[q] == Instr(x) && body[q + 1] == Ret(Some(p)) && body[q + 2] == Instr(y) && body[q + 3] == Ret(None)
  {
  }

  lemma {:induction false} PlainEnds(sem: Sem, body: seq<Line>, q: nat, x: string, p: string, y: string, r: string,
                                     s: State, origin: nat)
    requires Means(sem, x, y, r) && p != r && s.env == Env(map[], map[])
    requires q + 3 < |body| && forall k | 0 <= k < q :: Leading(body[k])
    requires body[q] == Instr(x) && body[q + 1] == Ret(Some(p)) && body[q + 2] == Instr(y) && body[q + 3] == Ret(None)
    ensures Ends(sem, Copy(body), origin, s, Halted(s.(env := Env(map[r := 1], map[0 := 1]))))
  {
    var code := Copy(body);
    PlainRun(sem, code, q, x, p, y, r, s, origin);
    RunLeading(sem, code, origin, s, 0, q, q + 4);
    EndsAt(sem, code, origin, s, q + 4, Halted(s.(env := Env(map[r := 1], map[0 := 1]))));
  }

  /** Saved registers are those with a first slot, and none of them is a scratch register. */
  lemma {:induction false} SavedIsFirst(f: seq<Line>, r: string)
    ensures IsSaved(f, r) <==> First(AllSlots(f), |AllSlots(f)|, r).Some?
    ensures IsSaved(f, r) ==> !Scratch(r)
  {
    SlotsAreGood(f, |f|);
    if IsSaved(f, r) {
      var k :| 0 <= k < |AllSlots(f)| && AllSlots(f)[k].name == r;
      assert Good(AllSlots(f)[k]);
    }
  }

  // ----- a register wider than its slot -----

  /** A function that only returns, with one register of the 128-bit type. */
  function Wide(): seq<Line> {
    [FuncHeader("f"), OpenBrace, RegDecl(".f64x2", "%d", None), Ret(None), CloseBrace]
  }

  lemma {:induction false} WideSlots()
    ensures BraceFrom(Wide(), 1) == Some(1) && AllSlots(Wide()) == [Slot("%d", ".u64")]
  {
    var f := Wide();
    assert !Skipped(f[2]) && Describe(f[2]) == RegInfo("%d", 1, ["%d"], ".u64");
    assert Collected(f, 2) == [];
    assert Collected(f, 3) == [Describe(f[2])];
    var regs := Collected(f, 5);
    assert regs == Collected(f, 4) == Collected(f, 3);
    assert Slots(regs, 0) == [];
    assert SlotsOf(regs[0]) == [Slot("%d", ".u64")];
  }

  lemma {:induction false} WidePlain(sem: Sem, s: State, origin: nat)
    ensures Ends(sem, Copy(Wide()[2..]), origin, s, Halted(s))
  {
    var plain := Copy(Wide()[2..]);
    assert plain[0] == Orig(RegDecl(".f64x2", "%d", None)) && plain[1] == Orig(Ret(None));
    RunGo(sem, plain, origin, s, 0, s, 1, 2);
    RunReturn(sem, plain, origin, s, 1, 1);
    EndsAt(sem, plain, origin, s, 2, Halted(s));
  }

  lemma {:induction false} CutToSlot(slots: seq<Slot>, e: Env, e': Env)
    requires slots == [Slot("%d", ".u64")] && RestoredEnv(slots, |slots|, e.regs, e, e')
    ensures Get(e'.regs, "%d") == Get(e.regs, "%d") % ADDRESS_SPACE
  {
    assert First(slots, 1, "%d") == Some(0);
    assert Get(e'.regs, "%d") == Restored(slots, |slots|, e.regs, e.regs, "%d");
    Powers();
  }

  /** Its guarded form returns with the register cut to 64 bits; the original keeps it. */
  lemma {:induction false} WideRegisterIsCut(sem: Sem, s: State, origin: nat)
    requires Get(s.env.regs, "%d") >= ADDRESS_SPACE && |s.area| == 8 && origin + 8 <= ADDRESS_SPACE
    ensures Ends(sem, Copy(Wide()[2..]), origin, s, Halted(s)) && |Guarded(Wide())| >= 2
    ensures exists st' :: && Ends(sem, Guarded(Wide())[2..], origin, s, Halted(st'))
                          && Get(st'.env.regs, "%d") == Get(s.env.regs, "%d") % ADDRESS_SPACE
                          && Get(st'.env.regs, "%d") != Get(s.env.regs, "%d")
  {
    WideSlots();
    WidePlain(sem, s, origin);
    GuardKeepsMeaning(sem, Wide(), 1, s, origin);
    var code, slots := Guarded(Wide())[2..], AllSlots(Wide());
    assert EndsLike(sem, code, origin, s, slots, Halted(s));
    var r' :| Ends(sem, code, origin, s, r') && Matches(Halted(s), r', slots, s.env.regs);
    CutToSlot(slots, s.env, r'.st.env);
    assert Ends(sem, code, origin, s, Halted(r'.st));
  }
}
