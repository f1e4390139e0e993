/** Predicated returns.  The restore block in front of one runs even when the return is not taken, so the
    guard keeps a function's meaning exactly when no instruction that matters can come after it. */
module EarlyReturns {
  import opened Common
  import opened Bytes
  import opened RegisterGuard
  import opened GuardMachine

  // ----- where control can go -----

  /** Control can fall through the line without running an instruction. */
  predicate Passes(l: Line) {
    !l.Instr? && !l.CloseBrace? && l != Ret(None)
  }

  predicate Conditional(l: Line) {
    l.Ret? && l.pred.Some?
  }

  /** What an instruction does to control: on to the next line, or to a label. */
  type Choice = Option<string>

  function Take(body: seq<Line>, k: nat, x: Choice): Option<nat> {
    match x
    case None => Some(k + 1)
    case Some(name) => Find(Copy(body), name, 0)
  }

  /** From line `k` control comes to line `j`, with these choices at the instructions on the way. */
  ghost predicate Leads(body: seq<Line>, k: nat, plan: seq<Choice>, j: nat)
    decreases |plan|, |body| - k
  {
    || (plan == [] && k == j)
    || (k < |body|
        && if body[k].Instr? then
             plan != [] && Take(body, k, plan[0]).Some? && Leads(body, Take(body, k, plan[0]).value, plan[1..], j)
           else Passes(body[k]) && Leads(body, k + 1, plan, j))
  }

  /** Falling from line `k`, over instructions too, control meets a return. */
  predicate MeetsReturn(body: seq<Line>, k: nat)
    decreases |body| - k
  {
    k < |body| && !body[k].CloseBrace? && (body[k].Ret? || MeetsReturn(body, k + 1))
  }

  /** Falling from line `k` control meets a return or an instruction. */
  predicate MeetsWork(body: seq<Line>, k: nat)
    decreases |body| - k
  {
    k < |body| && !body[k].CloseBrace? && (body[k].Ret? || body[k].Instr? || MeetsWork(body, k + 1))
  }

  ghost predicate LivingLabel(body: seq<Line>, name: string) {
    var i := Find(Copy(body), name, 0);
    i.Some? && MeetsWork(body, i.value)
  }

  /** After the instruction at `c` there is something else to do than to run off the end. */
  ghost predicate Lives(body: seq<Line>, c: nat) {
    MeetsReturn(body, c + 1) || exists name :: LivingLabel(body, name)
  }

  /** With some choices, at least one, control comes to the predicated return at `k` and, when it is not
      taken, falls on to the instruction at `c`. */
  ghost predicate HazardAt(body: seq<Line>, q: nat, plan: seq<Choice>, k: nat, c: nat) {
    && plan != [] && Leads(body, q, plan, k) && k < |body| && Conditional(body[k])
    && Leads(body, k + 1, [], c) && c < |body| && body[c].Instr? && Lives(body, c)
  }

  ghost predicate Hazard(body: seq<Line>, q: nat) {
    exists plan, k: nat, c: nat :: HazardAt(body, q, plan, k, c)
  }

  lemma {:induction false} LeadsOn(body: seq<Line>, k: nat, plan: seq<Choice>, j: nat)
    requires Leads(body, k, plan, j) && j < |body| && Passes(body[j])
    ensures Leads(body, k, plan, j + 1)
    decreases |plan|, |body| - k
  {
    if plan == [] && k == j {
      assert Leads(body, k + 1, plan, j + 1);
    } else if body[k].Instr? {
      LeadsOn(body, Take(body, k, plan[0]).value, plan[1..], j);
    } else {
      LeadsOn(body, k + 1, plan, j);
    }
  }

  lemma {:induction false} LeadsFurther(body: seq<Line>, k: nat, plan: seq<Choice>, j: nat, x: Choice)
    requires Leads(body, k, plan, j) && j < |body| && body[j].Instr? && Take(body, j, x).Some?
    ensures Leads(body, k, plan + [x], Take(body, j, x).value)
    decreases |plan|, |body| - k
  {
    var more := plan + [x];
    if plan == [] && k == j {
      assert more[1..] == [] && Leads(body, Take(body, j, x).value, [], Take(body, j, x).value);
    } else if body[k].Instr? {
      assert more[1..] == plan[1..] + [x];
      LeadsFurther(body, Take(body, k, plan[0]).value, plan[1..], j, x);
    } else {
      LeadsFurther(body, k + 1, plan, j, x);
    }
  }

  // ----- how a run ends from a line on -----

  ghost predicate EndsFrom(sem: Sem, code: seq<Out>, origin: nat, st: State, pc: nat, r: Result) {
    r != OutOfFuel && exists fuel: nat :: Run(sem, code, origin, st, pc, fuel) == r
  }

  lemma {:induction false} EndsGo(sem: Sem, code: seq<Out>, origin: nat, st: State, pc: nat, st': State, pc': nat,
                                  r: Result)
    requires Step(sem, code, origin, st, pc) == Go(st', pc')
    ensures EndsFrom(sem, code, origin, st, pc, r) <==> EndsFrom(sem, code, origin, st', pc', r)
  {
    if EndsFrom(sem, code, origin, st, pc, r) {
      var fuel: nat :| Run(sem, code, origin, st, pc, fuel) == r;
      RunGo(sem, code, origin, st, pc, st', pc', fuel);
    }
    if EndsFrom(sem, code, origin, st', pc', r) {
      var fuel: nat :| Run(sem, code, origin, st', pc', fuel) == r;
      RunGo(sem, code, origin, st, pc, st', pc', fuel + 1);
      assert Run(sem, code, origin, st, pc, fuel + 1) == r;
    }
  }

  lemma {:induction false} EndsStop(sem: Sem, code: seq<Out>, origin: nat, st: State, pc: nat, r: Result)
    requires Step(sem, code, origin, st, pc) == Stop(r) && r != OutOfFuel
    ensures EndsFrom(sem, code, origin, st, pc, r)
  {
    RunStop(sem, code, origin, st, pc, 1);
    assert Run(sem, code, origin, st, pc, 1) == r;
  }

  lemma {:induction false} EndsBlock(sem: Sem, code: seq<Out>, origin: nat, st: State, pc: nat, gs: seq<Guard>,
                                     st': State, r: Result)
    requires pc + |gs| <= |code| && code[pc..pc + |gs|] == Block(gs) && ExecAll(gs, st, origin) == Some(st')
    requires EndsFrom(sem, code, origin, st', pc + |gs|, r)
    ensures EndsFrom(sem, code, origin, st, pc, r)
  {
    var fuel: nat :| Run(sem, code, origin, st', pc + |gs|, fuel) == r;
    RunBlock(sem, code, origin, st, pc, gs, st', fuel + |gs|);
    assert Run(sem, code, origin, st, pc, fuel + |gs|) == r;
  }

  lemma {:induction false} EndsOnce(sem: Sem, code: seq<Out>, origin: nat, st: State, pc: nat, r: Result, r': Result)
    requires EndsFrom(sem, code, origin, st, pc, r) && EndsFrom(sem, code, origin, st, pc, r')
    ensures r == r'
  {
    var m: nat :| Run(sem, code, origin, st, pc, m) == r;
    var n: nat :| Run(sem, code, origin, st, pc, n) == r';
    if m <= n {
      MoreFuel(sem, code, origin, st, pc, m, n);
    } else {
      MoreFuel(sem, code, origin, st, pc, n, m);
    }
  }

  // ----- code that can only fault -----

  /** From line `k` there is no return to fall to, and no label leads to work. */
  ghost predicate Dead(body: seq<Line>, k: nat) {
    !MeetsReturn(body, k) && forall name :: !LivingLabel(body, name)
  }

  /** Falling from a line that meets no work, every run reaches the closing brace or the end. */
  lemma {:induction false} IdleFaults(sem: Sem, code: seq<Out>, body: seq<Line>, q: nat, before: seq<Guard>,
                                      restore: seq<Guard>, at: seq<nat>, origin: nat, k: nat, st: State)
    requires Mirrors(code, body, q, before, restore, at) && q <= k <= |body| && !MeetsWork(body, k)
    ensures EndsFrom(sem, code, origin, st, at[k], Fault)
    decreases |body| - k
  {
    if k == |body| {
      EndsStop(sem, code, origin, st, at[k], Fault);
    } else {
      assert LineHere(code, at[k], at[k + 1], Lead(body[k], restore), body[k]);
      if body[k].CloseBrace? {
        EndsStop(sem, code, origin, st, at[k], Fault);
      } else {
        IdleFaults(sem, code, body, q, before, restore, at, origin, k + 1, st);
        EndsGo(sem, code, origin, st, at[k], st, at[k + 1], Fault);
      }
    }
  }

  lemma {:induction false} DeadFaults(sem: Sem, code: seq<Out>, body: seq<Line>, q: nat, before: seq<Guard>,
                                      restore: seq<Guard>, at: seq<nat>, origin: nat, k: nat, st: State)
    requires Mirrors(code, body, q, before, restore, at) && q <= k <= |body| && Dead(body, k)
    ensures EndsFrom(sem, code, origin, st, at[k], Fault)
    decreases |body| - k
  {
    if k == |body| {
      EndsStop(sem, code, origin, st, at[k], Fault);
    } else {
      assert LineHere(code, at[k], at[k + 1], Lead(body[k], restore), body[k]);
      var t := Step(sem, code, origin, st, at[k]);
      if t.Stop? {
        EndsStop(sem, code, origin, st, at[k], Fault);
      } else if body[k].Instr? && sem(body[k].text, st.env).Goto? {
        var target := sem(body[k].text, st.env).target;
        FindSame(code, body, q, before, restore, at, target);
        var i := Find(Copy(body), target, 0).value;
        assert !LivingLabel(body, target);
        IdleFaults(sem, code, body, q, before, restore, at, origin, i, t.st);
        EndsGo(sem, code, origin, st, at[k], t.st, at[i], Fault);
      } else {
        DeadFaults(sem, code, body, q, before, restore, at, origin, k + 1, t.st);
        EndsGo(sem, code, origin, st, at[k], t.st, at[k + 1], Fault);
      }
    }
  }

  /** The plain body is the body with nothing inserted. */
  lemma {:induction false} PlainMirrors(body: seq<Line>, q: nat) returns (at: seq<nat>)
    requires q <= |body| && forall k | 0 <= k < q :: Leading(body[k])
    ensures Mirrors(Copy(body), body, q, [], [], at) && forall k | q <= k <= |body| :: at[k] == k
  {
    at := seq(|body| + 1, k requires 0 <= k <= |body| => k);
  }

  // ----- both runs side by side -----

  /** Equal but for the scratch and the saved registers. */
  ghost predicate Loosely(slots: seq<Slot>, e: Env, e': Env) {
    e.mem == e'.mem && forall r | !Scratch(r) && First(slots, |slots|, r) == None :: Get(e.regs, r) == Get(e'.regs, r)
  }

  ghost predicate Fits(slots: seq<Slot>, regs: Regs) {
    forall k | 0 <= k < |slots| :: Get(regs, slots[k].name) < Pow256(Width(slots[k].modifier))
  }

  /** Return predicates are registers the guard leaves alone. */
  ghost predicate PredicatesKept(body: seq<Line>, slots: seq<Slot>) {
    forall k | 0 <= k < |body| && Conditional(body[k]) ::
      !Scratch(body[k].pred.value) && First(slots, |slots|, body[k].pred.value) == None
  }

  /** No instruction has run yet. */
  ghost predicate Fresh(body: seq<Line>, q: nat, k: nat, entry: Env, e: Env, e': Env) {
    Leads(body, q, [], k) && e == entry && Agree(e, e')
  }

  /** Instructions have run, on the same registers. */
  ghost predicate Ran(body: seq<Line>, q: nat, k: nat, e: Env, e': Env) {
    Agree(e, e') && exists plan :: plan != [] && Leads(body, q, plan, k)
  }

  /** A return at `j` was not taken and nothing has run since. */
  ghost predicate Passed(body: seq<Line>, q: nat, plan: seq<Choice>, j: nat, k: nat) {
    plan != [] && Leads(body, q, plan, j) && j < |body| && Conditional(body[j]) && Leads(body, j + 1, [], k)
  }

  ghost predicate Undone(body: seq<Line>, q: nat, k: nat, slots: seq<Slot>, e: Env, e': Env) {
    slots != [] && Loosely(slots, e, e') && exists plan, j: nat :: Passed(body, q, plan, j, k)
  }

  ghost predicate Related(body: seq<Line>, q: nat, k: nat, slots: seq<Slot>, entry: Env, e: Env, e': Env) {
    || Fresh(body, q, k, entry, e, e')
    || Ran(body, q, k, e, e')
    || Undone(body, q, k, slots, e, e')
  }

  /** The area still holds the entry values. */
  ghost predicate StillSaved(slots: seq<Slot>, entry: Regs, origin: nat, st: State) {
    Room(slots, st.area, origin) && Saved(st.area, slots, |slots|, entry)
  }

  lemma {:induction false} RelatedLoosely(body: seq<Line>, q: nat, k: nat, slots: seq<Slot>, entry: Env, e: Env,
                                          e': Env)
    requires Related(body, q, k, slots, entry, e, e')
    ensures Loosely(slots, e, e')
  {
  }

  /** Falling past a line that changes nothing. */
  lemma {:induction false} RelatedPast(body: seq<Line>, q: nat, k: nat, slots: seq<Slot>, entry: Env, e: Env, e': Env)
    requires Related(body, q, k, slots, entry, e, e') && k < |body| && Passes(body[k])
    ensures Related(body, q, k + 1, slots, entry, e, e')
  {
    if Fresh(body, q, k, entry, e, e') {
      LeadsOn(body, q, [], k);
    } else if Ran(body, q, k, e, e') {
      var plan :| plan != [] && Leads(body, q, plan, k);
      LeadsOn(body, q, plan, k);
    } else {
      var plan, j: nat :| Passed(body, q, plan, j, k);
      LeadsOn(body, j + 1, [], k);
      assert Passed(body, q, plan, j, k + 1);
    }
  }

  /** Falling past a predicated return, behind its restore block. */
  lemma {:induction false} RelatedReturn(body: seq<Line>, q: nat, k: nat, slots: seq<Slot>, entry: Env, e: Env, e': Env,
                                         last: Env)
    requires Related(body, q, k, slots, entry, e, e') && k < |body| && Conditional(body[k])
    requires Fits(slots, entry.regs) && RestoredEnv(slots, |slots|, entry.regs, e', last)
    ensures Related(body, q, k + 1, slots, entry, e, last)
  {
    RestoredLoosely(slots, entry.regs, e, e', last);
    if Fresh(body, q, k, entry, e, e') {
      LeadsOn(body, q, [], k);
      FreshRestored(slots, entry, e', last);
    } else if Ran(body, q, k, e, e') {
      var plan :| plan != [] && Leads(body, q, plan, k);
      if slots == [] {
        LeadsOn(body, q, plan, k);
        NothingRestored(entry.regs, e, e', last);
      } else {
        assert Leads(body, k + 1, [], k + 1);
        assert Passed(body, q, plan, k, k + 1);
      }
    } else {
      var plan, j: nat :| Passed(body, q, plan, j, k);
      LeadsOn(body, j + 1, [], k);
      assert Passed(body, q, plan, j, k + 1);
    }
  }

  lemma {:induction false} RestoredLoosely(slots: seq<Slot>, entry: Regs, e: Env, e': Env, last: Env)
    requires Loosely(slots, e, e') && RestoredEnv(slots, |slots|, entry, e', last)
    ensures Loosely(slots, e, last) && RestoredEnv(slots, |slots|, entry, e, last)
  {
    forall r | !Scratch(r)
      ensures Get(last.regs, r) == Restored(slots, |slots|, entry, e.regs, r)
      ensures First(slots, |slots|, r) == None ==> Get(e.regs, r) == Get(last.regs, r)
    {
      assert Get(last.regs, r) == Restored(slots, |slots|, entry, e'.regs, r);
    }
  }

  lemma {:induction false} FreshRestored(slots: seq<Slot>, entry: Env, e': Env, last: Env)
    requires Agree(entry, e') && Fits(slots, entry.regs) && RestoredEnv(slots, |slots|, entry.regs, e', last)
    ensures Agree(entry, last)
  {
    forall r | !Scratch(r)
      ensures Get(entry.regs, r) == Get(last.regs, r)
    {
      assert Get(last.regs, r) == Restored(slots, |slots|, entry.regs, e'.regs, r);
      match First(slots, |slots|, r)
      case None =>
      case Some(k) => ModSame(Get(entry.regs, r), Pow256(Width(slots[k].modifier)));
    }
  }

  lemma {:induction false} NothingRestored(entry: Regs, e: Env, e': Env, last: Env)
    requires Agree(e, e') && RestoredEnv([], 0, entry, e', last)
    ensures Agree(e, last)
  {
    forall r | !Scratch(r)
      ensures Get(e.regs, r) == Get(last.regs, r)
    {
      assert Get(last.regs, r) == Restored([], 0, entry, e'.regs, r);
    }
  }

  /** An instruction with the same registers in both. */
  lemma {:induction false} RelatedInstr(body: seq<Line>, q: nat, k: nat, slots: seq<Slot>, entry: Env, e: Env, e': Env,
                                        x: Choice, last: Env, last': Env)
    requires Fresh(body, q, k, entry, e, e') || Ran(body, q, k, e, e')
    requires k < |body| && body[k].Instr? && Take(body, k, x).Some? && Agree(last, last')
    ensures Related(body, q, Take(body, k, x).value, slots, entry, last, last')
  {
    var plan :| Leads(body, q, plan, k);
    LeadsFurther(body, q, plan, k, x);
    assert plan + [x] != [] && Leads(body, q, plan + [x], Take(body, k, x).value);
  }

  /** Both runs stop alike, or come to corresponding lines in related states. */
  ghost predicate Turned(body: seq<Line>, q: nat, at: seq<nat>, slots: seq<Slot>, entry: Env, origin: nat, t: Turn,
                         t': Turn)
    requires |at| == |body| + 1
  {
    match t
    case Stop(r) => r != OutOfFuel && t'.Stop? && Matches(r, t'.result, slots, entry.regs)
    case Go(st, k) =>
      && q <= k <= |body| && t'.Go? && t'.pc == at[k]
      && Related(body, q, k, slots, entry, st.env, t'.st.env) && StillSaved(slots, entry.regs, origin, t'.st)
  }

  function LeadAt(body: seq<Line>, k: nat, restore: seq<Guard>): seq<Guard> {
    if k < |body| then Lead(body[k], restore) else []
  }

  lemma {:induction false} TurnReturn(sem: Sem, code: seq<Out>, body: seq<Line>, q: nat, before: seq<Guard>,
                                      restore: seq<Guard>, at: seq<nat>, slots: seq<Slot>, entry: Env, origin: nat,
                                      k: nat, st: State, st': State, mid: State)
    requires Mirrors(code, body, q, before, restore, at) && q <= k < |body| && body[k].Ret?
    requires PredicatesKept(body, slots) && Fits(slots, entry.regs)
    requires Related(body, q, k, slots, entry, st.env, st'.env) && StillSaved(slots, entry.regs, origin, mid)
    requires RestoredEnv(slots, |slots|, entry.regs, st'.env, mid.env)
    ensures Turned(body, q, at, slots, entry, origin, Step(sem, Copy(body), origin, st, k),
                   Step(sem, code, origin, mid, at[k] + |restore|))
  {
    assert LineHere(code, at[k], at[k + 1], Lead(body[k], restore), body[k]);
    RelatedLoosely(body, q, k, slots, entry, st.env, st'.env);
    RestoredLoosely(slots, entry.regs, st.env, st'.env, mid.env);
    if Conditional(body[k]) {
      var p := body[k].pred.value;
      assert Get(st.env.regs, p) == Get(mid.env.regs, p);
      RelatedReturn(body, q, k, slots, entry, st.env, st'.env, mid.env);
    }
  }

  lemma {:induction false} TurnInstr(sem: Sem, code: seq<Out>, body: seq<Line>, q: nat, before: seq<Guard>,
                                     restore: seq<Guard>, at: seq<nat>, slots: seq<Slot>, entry: Env, origin: nat,
                                     k: nat, st: State, st': State)
    requires Mirrors(code, body, q, before, restore, at) && q <= k < |body| && body[k].Instr? && Blind(sem, body)
    requires Fresh(body, q, k, entry, st.env, st'.env) || Ran(body, q, k, st.env, st'.env)
    requires StillSaved(slots, entry.regs, origin, st')
    ensures Turned(body, q, at, slots, entry, origin, Step(sem, Copy(body), origin, st, k),
                   Step(sem, code, origin, st', at[k]))
  {
    InstrStep(sem, code, body, q, before, restore, at, origin, k, st, st');
    var t, t' := Step(sem, Copy(body), origin, st, k), Step(sem, code, origin, st', at[k]);
    if t.Go? {
      var effect := sem(body[k].text, st.env);
      var x := if effect.Goto? then Some(effect.target) else None;
      RelatedInstr(body, q, k, slots, entry, st.env, st'.env, x, t.st.env, t'.st.env);
    }
  }

  lemma {:induction false} TurnOther(sem: Sem, code: seq<Out>, body: seq<Line>, q: nat, before: seq<Guard>,
                                     restore: seq<Guard>, at: seq<nat>, slots: seq<Slot>, entry: Env, origin: nat,
                                     k: nat, st: State, st': State)
    requires Mirrors(code, body, q, before, restore, at) && q <= k <= |body|
    requires k < |body| ==> !body[k].Ret? && !body[k].Instr?
    requires Related(body, q, k, slots, entry, st.env, st'.env) && StillSaved(slots, entry.regs, origin, st')
    ensures Turned(body, q, at, slots, entry, origin, Step(sem, Copy(body), origin, st, k),
                   Step(sem, code, origin, st', at[k]))
  {
    if k < |body| {
      assert LineHere(code, at[k], at[k + 1], Lead(body[k], restore), body[k]);
      if !body[k].CloseBrace? {
        RelatedPast(body, q, k, slots, entry, st.env, st'.env);
      }
    }
  }

  /** What the two runs need, wherever they are. */
  ghost predicate Setting(sem: Sem, code: seq<Out>, body: seq<Line>, q: nat, before: seq<Guard>, restore: seq<Guard>,
                          at: seq<nat>, slots: seq<Slot>, entry: Env, origin: nat) {
    && Mirrors(code, body, q, before, restore, at) && Blind(sem, body) && PredicatesKept(body, slots)
    && Fits(slots, entry.regs) && Restores(restore, slots, entry.regs, origin) && (slots == [] || !Hazard(body, q))
  }

  /** Line `k` in both runs, the restore block first if there is one; or the code is dead from here. */
  lemma {:induction false} Advance(sem: Sem, code: seq<Out>, body: seq<Line>, q: nat, before: seq<Guard>,
                                   restore: seq<Guard>, at: seq<nat>, slots: seq<Slot>, entry: Env, origin: nat,
                                   k: nat, st: State, st': State) returns (mid: State)
    requires Setting(sem, code, body, q, before, restore, at, slots, entry, origin) && q <= k <= |body|
    requires Related(body, q, k, slots, entry, st.env, st'.env) && StillSaved(slots, entry.regs, origin, st')
    ensures ExecAll(LeadAt(body, k, restore), st', origin) == Some(mid)
    ensures || Dead(body, k)
            || Turned(body, q, at, slots, entry, origin, Step(sem, Copy(body), origin, st, k),
                      Step(sem, code, origin, mid, at[k] + |LeadAt(body, k, restore)|))
  {
    mid := st';
    if k == |body| || (!body[k].Ret? && !body[k].Instr?) {
      TurnOther(sem, code, body, q, before, restore, at, slots, entry, origin, k, st, st');
    } else if body[k].Ret? {
      mid := RestoredHere(restore, slots, entry.regs, origin, st');
      TurnReturn(sem, code, body, q, before, restore, at, slots, entry, origin, k, st, st', mid);
    } else if Fresh(body, q, k, entry, st.env, st'.env) || Ran(body, q, k, st.env, st'.env) {
      TurnInstr(sem, code, body, q, before, restore, at, slots, entry, origin, k, st, st');
    } else {
      var plan, j: nat :| Passed(body, q, plan, j, k);
      assert !HazardAt(body, q, plan, j, k);
    }
  }

  lemma {:induction false} RestoredHere(restore: seq<Guard>, slots: seq<Slot>, entry: Regs, origin: nat, st: State)
      returns (mid: State)
    requires Restores(restore, slots, entry, origin) && StillSaved(slots, entry, origin, st)
    ensures ExecAll(restore, st, origin) == Some(mid) && StillSaved(slots, entry, origin, mid)
    ensures RestoredEnv(slots, |slots|, entry, st.env, mid.env)
  {
    assert InStep(slots, entry, origin, st, st);
    assert BringsBack(restore, slots, entry, origin, st, st);
    mid := ExecAll(restore, st, origin).value;
  }

  // ----- the whole run -----

  /** Both runs end, and in a matching way. */
  ghost predicate EndAlike(sem: Sem, plain: seq<Out>, code: seq<Out>, origin: nat, slots: seq<Slot>, entry: Regs,
                           st: State, k: nat, st': State, pc: nat) {
    exists r, r' :: && EndsFrom(sem, plain, origin, st, k, r) && EndsFrom(sem, code, origin, st', pc, r')
                    && Matches(r, r', slots, entry)
  }

  lemma {:induction false} DeadAlike(sem: Sem, code: seq<Out>, body: seq<Line>, q: nat, before: seq<Guard>,
                                     restore: seq<Guard>, at: seq<nat>, slots: seq<Slot>, entry: Regs, origin: nat,
                                     k: nat, st: State, st': State)
    requires Mirrors(code, body, q, before, restore, at) && q <= k <= |body| && Dead(body, k)
    ensures EndAlike(sem, Copy(body), code, origin, slots, entry, st, k, st', at[k])
  {
    var id := PlainMirrors(body, q);
    DeadFaults(sem, Copy(body), body, q, [], [], id, origin, k, st);
    DeadFaults(sem, code, body, q, before, restore, at, origin, k, st');
    assert Matches(Fault, Fault, slots, entry);
  }

  lemma {:induction false} LeadStands(code: seq<Out>, body: seq<Line>, q: nat, before: seq<Guard>, restore: seq<Guard>,
                                      at: seq<nat>, k: nat)
    requires Mirrors(code, body, q, before, restore, at) && q <= k <= |body|
    ensures var lead := LeadAt(body, k, restore);
            at[k] + |lead| <= |code| && code[at[k]..at[k] + |lead|] == Block(lead)
  {
    if k < |body| {
      assert LineHere(code, at[k], at[k + 1], Lead(body[k], restore), body[k]);
    }
  }

  /** After `d` turns the run is at line `pc'` in state `st'`. */
  ghost predicate Moves(sem: Sem, code: seq<Out>, origin: nat, st: State, pc: nat, st': State, pc': nat, d: nat) {
    forall fuel: nat ::
      Run(sem, code, origin, st, pc, fuel)
      == if fuel <= d then OutOfFuel else Run(sem, code, origin, st', pc', fuel - d)
  }

  lemma {:induction false} MovesEnds(sem: Sem, code: seq<Out>, origin: nat, st: State, pc: nat, st': State, pc': nat,
                                     d: nat, r: Result)
    requires Moves(sem, code, origin, st, pc, st', pc', d)
    ensures EndsFrom(sem, code, origin, st, pc, r) <==> EndsFrom(sem, code, origin, st', pc', r)
  {
    if EndsFrom(sem, code, origin, st, pc, r) {
      var fuel: nat :| Run(sem, code, origin, st, pc, fuel) == r;
      assert Run(sem, code, origin, st', pc', fuel - d) == r;
    }
    if EndsFrom(sem, code, origin, st', pc', r) {
      var fuel: nat :| Run(sem, code, origin, st', pc', fuel) == r;
      assert Run(sem, code, origin, st, pc, fuel + d) == r;
    }
  }

  lemma {:induction false} BlockMoves(sem: Sem, code: seq<Out>, origin: nat, st: State, pc: nat, lead: seq<Guard>,
                                      mid: State, st': State, pc': nat)
    requires pc + |lead| <= |code| && code[pc..pc + |lead|] == Block(lead) && ExecAll(lead, st, origin) == Some(mid)
    requires Step(sem, code, origin, mid, pc + |lead|) == Go(st', pc')
    ensures Moves(sem, code, origin, st, pc, st', pc', |lead| + 1)
  {
    forall fuel: nat
      ensures Run(sem, code, origin, st, pc, fuel)
           == if fuel <= |lead| + 1 then OutOfFuel else Run(sem, code, origin, st', pc', fuel - (|lead| + 1))
    {
      RunBlock(sem, code, origin, st, pc, lead, mid, fuel);
      if fuel > |lead| {
        RunGo(sem, code, origin, mid, pc + |lead|, st', pc', fuel - |lead|);
      }
    }
  }

  lemma {:induction false} StopAlike(sem: Sem, plain: seq<Out>, code: seq<Out>, origin: nat, slots: seq<Slot>,
                                     entry: Regs, lead: seq<Guard>, st: State, k: nat, st': State, pc: nat, mid: State,
                                     r: Result, r': Result)
    requires pc + |lead| <= |code| && code[pc..pc + |lead|] == Block(lead) && ExecAll(lead, st', origin) == Some(mid)
    requires Step(sem, plain, origin, st, k) == Stop(r) && Step(sem, code, origin, mid, pc + |lead|) == Stop(r')
    requires r != OutOfFuel && Matches(r, r', slots, entry)
    ensures EndAlike(sem, plain, code, origin, slots, entry, st, k, st', pc)
  {
    EndsStop(sem, plain, origin, st, k, r);
    EndsStop(sem, code, origin, mid, pc + |lead|, r');
    EndsBlock(sem, code, origin, st', pc, lead, mid, r');
  }

  /** Both runs have moved on to line `j`. */
  ghost predicate Moved(sem: Sem, code: seq<Out>, body: seq<Line>, q: nat, at: seq<nat>, slots: seq<Slot>, entry: Env,
                        origin: nat, k: nat, st: State, st': State, j: nat, s: State, s': State, d: nat)
    requires |at| == |body| + 1 && k <= |body|
  {
    && q <= j <= |body| && d > 0
    && Moves(sem, Copy(body), origin, st, k, s, j, 1) && Moves(sem, code, origin, st', at[k], s', at[j], d)
    && Related(body, q, j, slots, entry, s.env, s'.env) && StillSaved(slots, entry.regs, origin, s')
  }

  /** From related states both runs end alike, or move on to related states. */
  lemma {:induction false} Onward(sem: Sem, code: seq<Out>, body: seq<Line>, q: nat, before: seq<Guard>,
                                  restore: seq<Guard>, at: seq<nat>, slots: seq<Slot>, entry: Env, origin: nat,
                                  k: nat, st: State, st': State) returns (j: nat, s: State, s': State, d: nat)
    requires Setting(sem, code, body, q, before, restore, at, slots, entry, origin) && q <= k <= |body|
    requires Related(body, q, k, slots, entry, st.env, st'.env) && StillSaved(slots, entry.regs, origin, st')
    ensures || EndAlike(sem, Copy(body), code, origin, slots, entry.regs, st, k, st', at[k])
            || Moved(sem, code, body, q, at, slots, entry, origin, k, st, st', j, s, s', d)
  {
    var lead := LeadAt(body, k, restore);
    var mid := Advance(sem, code, body, q, before, restore, at, slots, entry, origin, k, st, st');
    j, s, s', d := k, st, st', |lead| + 1;
    if Dead(body, k) {
      DeadAlike(sem, code, body, q, before, restore, at, slots, entry.regs, origin, k, st, st');
    } else {
      LeadStands(code, body, q, before, restore, at, k);
      var t, t' := Step(sem, Copy(body), origin, st, k), Step(sem, code, origin, mid, at[k] + |lead|);
      if t.Stop? {
        StopAlike(sem, Copy(body), code, origin, slots, entry.regs, lead, st, k, st', at[k], mid, t.result, t'.result);
      } else {
        j, s, s' := t.pc, t.st, t'.st;
        PlainMoves(sem, Copy(body), origin, st, k, s, j);
        BlockMoves(sem, code, origin, st', at[k], lead, mid, s', at[j]);
      }
    }
  }

  lemma {:induction false} PlainMoves(sem: Sem, code: seq<Out>, origin: nat, st: State, pc: nat, st': State, pc': nat)
    requires Step(sem, code, origin, st, pc) == Go(st', pc')
    ensures Moves(sem, code, origin, st, pc, st', pc', 1)
  {
    forall fuel: nat
      ensures Run(sem, code, origin, st, pc, fuel)
           == if fuel <= 1 then OutOfFuel else Run(sem, code, origin, st', pc', fuel - 1)
    {
      if fuel > 0 {
        RunGo(sem, code, origin, st, pc, st', pc', fuel);
      }
    }
  }

  lemma {:induction false} MovesAlike(sem: Sem, plain: seq<Out>, code: seq<Out>, origin: nat, slots: seq<Slot>,
                                      entry: Regs, st: State, k: nat, st': State, pc: nat, s: State, j: nat, s': State,
                                      pc': nat, d: nat)
    requires Moves(sem, plain, origin, st, k, s, j, 1) && Moves(sem, code, origin, st', pc, s', pc', d)
    requires EndAlike(sem, plain, code, origin, slots, entry, s, j, s', pc')
    ensures EndAlike(sem, plain, code, origin, slots, entry, st, k, st', pc)
  {
    var r, r' :| && EndsFrom(sem, plain, origin, s, j, r) && EndsFrom(sem, code, origin, s', pc', r')
                 && Matches(r, r', slots, entry);
    MovesEnds(sem, plain, origin, st, k, s, j, 1, r);
    MovesEnds(sem, code, origin, st', pc, s', pc', d, r');
  }

  /** If one of the two runs ends within the fuel, both end, and alike. */
  lemma {:induction false} EitherEnds(sem: Sem, code: seq<Out>, body: seq<Line>, q: nat, before: seq<Guard>,
                                      restore: seq<Guard>, at: seq<nat>, slots: seq<Slot>, entry: Env, origin: nat,
                                      k: nat, st: State, st': State, fuel: nat)
    requires Setting(sem, code, body, q, before, restore, at, slots, entry, origin) && q <= k <= |body|
    requires Related(body, q, k, slots, entry, st.env, st'.env) && StillSaved(slots, entry.regs, origin, st')
    requires || Run(sem, Copy(body), origin, st, k, fuel) != OutOfFuel
             || Run(sem, code, origin, st', at[k], fuel) != OutOfFuel
    ensures EndAlike(sem, Copy(body), code, origin, slots, entry.regs, st, k, st', at[k])
    decreases fuel
  {
    var plain := Copy(body);
    var j, s, s', d := Onward(sem, code, body, q, before, restore, at, slots, entry, origin, k, st, st');
    if !EndAlike(sem, plain, code, origin, slots, entry.regs, st, k, st', at[k]) {
      var rest := LessFuel(sem, plain, code, origin, st, k, st', at[k], s, j, s', at[j], d, fuel);
      EitherEnds(sem, code, body, q, before, restore, at, slots, entry, origin, j, s, s', rest);
      MovesAlike(sem, plain, code, origin, slots, entry.regs, st, k, st', at[k], s, j, s', at[j], d);
    }
  }

  lemma {:induction false} LessFuel(sem: Sem, plain: seq<Out>, code: seq<Out>, origin: nat, st: State, k: nat,
                                    st': State, pc: nat, s: State, j: nat, s': State, pc': nat, d: nat, fuel: nat)
      returns (rest: nat)
    requires Moves(sem, plain, origin, st, k, s, j, 1) && Moves(sem, code, origin, st', pc, s', pc', d) && d > 0
    requires || Run(sem, plain, origin, st, k, fuel) != OutOfFuel
             || Run(sem, code, origin, st', pc, fuel) != OutOfFuel
    ensures rest < fuel
    ensures || Run(sem, plain, origin, s, j, rest) != OutOfFuel
            || Run(sem, code, origin, s', pc', rest) != OutOfFuel
  {
    rest := if Run(sem, plain, origin, st, k, fuel) != OutOfFuel then fuel - 1 else fuel - d;
  }

  /** The original starts at line `q`, the guarded code behind its save block. */
  lemma {:induction false} BodyStarts(sem: Sem, code: seq<Out>, body: seq<Line>, q: nat, before: seq<Guard>,
                                      restore: seq<Guard>, at: seq<nat>, s: State, origin: nat, st': State, r: Result)
    requires Mirrors(code, body, q, before, restore, at) && ExecAll(before, s, origin) == Some(st')
    ensures Ends(sem, Copy(body), origin, s, r) <==> EndsFrom(sem, Copy(body), origin, s, q, r)
    ensures Ends(sem, code, origin, s, r) <==> EndsFrom(sem, code, origin, st', at[q], r)
  {
    forall fuel: nat
      ensures Reaches(sem, Copy(body), origin, s, q, s, fuel)
      ensures Reaches(sem, code, origin, s, at[q], st', fuel)
    {
      Entered(sem, code, body, q, before, restore, at, s, origin, st', fuel);
    }
    StartEnds(sem, Copy(body), origin, s, q, s, r);
    StartEnds(sem, code, origin, s, at[q], st', r);
  }

  lemma {:induction false} StartEnds(sem: Sem, code: seq<Out>, origin: nat, s: State, n: nat, st: State, r: Result)
    requires forall fuel: nat :: Reaches(sem, code, origin, s, n, st, fuel)
    ensures Ends(sem, code, origin, s, r) <==> EndsFrom(sem, code, origin, st, n, r)
  {
    forall fuel: nat
      ensures Run(sem, code, origin, s, 0, fuel)
           == if fuel <= n then OutOfFuel else Run(sem, code, origin, st, n, fuel - n)
    {
      assert Reaches(sem, code, origin, s, n, st, fuel);
    }
    MovesEnds(sem, code, origin, s, 0, st, n, n, r);
  }

  /** The guarded body, and the state behind its save block. */
  ghost predicate Ready(code: seq<Out>, body: seq<Line>, q: nat, before: seq<Guard>, restore: seq<Guard>, at: seq<nat>,
                        slots: seq<Slot>, s: State, origin: nat, st': State) {
    && Mirrors(code, body, q, before, restore, at)
    && ExecAll(before, s, origin) == Some(st') && InStep(slots, s.env.regs, origin, s, st')
    && Restores(restore, slots, s.env.regs, origin)
  }

  lemma {:induction false} BodiesEndAlike(sem: Sem, code: seq<Out>, body: seq<Line>, q: nat, before: seq<Guard>,
                                          restore: seq<Guard>, at: seq<nat>, slots: seq<Slot>, s: State, origin: nat,
                                          st': State)
    requires Ready(code, body, q, before, restore, at, slots, s, origin, st') && Blind(sem, body)
    requires PredicatesKept(body, slots) && Fits(slots, s.env.regs) && (slots == [] || !Hazard(body, q))
    ensures SameEnds(sem, Copy(body), code, origin, s, slots)
  {
    assert Leads(body, q, [], q) && Fresh(body, q, q, s.env, s.env, st'.env);
    forall r | Ends(sem, Copy(body), origin, s, r)
      ensures EndsLike(sem, code, origin, s, slots, r)
    {
      BodyStarts(sem, code, body, q, before, restore, at, s, origin, st', r);
      var fuel: nat :| Run(sem, Copy(body), origin, s, q, fuel) == r;
      EitherEnds(sem, code, body, q, before, restore, at, slots, s.env, origin, q, s, st', fuel);
      var r' := AlikeFrom(sem, Copy(body), code, origin, slots, s.env.regs, s, q, st', at[q], r);
      BodyStarts(sem, code, body, q, before, restore, at, s, origin, st', r');
    }
    forall r' | Ends(sem, code, origin, s, r')
      ensures EndsBefore(sem, Copy(body), origin, s, slots, r')
    {
      BodyStarts(sem, code, body, q, before, restore, at, s, origin, st', r');
      var fuel: nat :| Run(sem, code, origin, st', at[q], fuel) == r';
      EitherEnds(sem, code, body, q, before, restore, at, slots, s.env, origin, q, s, st', fuel);
      var r := AlikeTo(sem, Copy(body), code, origin, slots, s.env.regs, s, q, st', at[q], r');
      BodyStarts(sem, code, body, q, before, restore, at, s, origin, st', r);
    }
  }

  lemma {:induction false} AlikeFrom(sem: Sem, plain: seq<Out>, code: seq<Out>, origin: nat, slots: seq<Slot>,
                                     entry: Regs, st: State, k: nat, st': State, pc: nat, r: Result)
      returns (r': Result)
    requires EndAlike(sem, plain, code, origin, slots, entry, st, k, st', pc)
    requires EndsFrom(sem, plain, origin, st, k, r)
    ensures EndsFrom(sem, code, origin, st', pc, r') && Matches(r, r', slots, entry)
  {
    var x, y :| && EndsFrom(sem, plain, origin, st, k, x) && EndsFrom(sem, code, origin, st', pc, y)
                && Matches(x, y, slots, entry);
    EndsOnce(sem, plain, origin, st, k, r, x);
    r' := y;
  }

  lemma {:induction false} AlikeTo(sem: Sem, plain: seq<Out>, code: seq<Out>, origin: nat, slots: seq<Slot>,
                                   entry: Regs, st: State, k: nat, st': State, pc: nat, r': Result)
      returns (r: Result)
    requires EndAlike(sem, plain, code, origin, slots, entry, st, k, st', pc)
    requires EndsFrom(sem, code, origin, st', pc, r')
    ensures EndsFrom(sem, plain, origin, st, k, r) && Matches(r, r', slots, entry)
  {
    var x, y :| && EndsFrom(sem, plain, origin, st, k, x) && EndsFrom(sem, code, origin, st', pc, y)
                && Matches(x, y, slots, entry);
    EndsOnce(sem, code, origin, st', pc, r', y);
    r := x;
  }

  // ----- a meaning that shows the difference -----

  function Counter(e: Env): nat {
    if 0 in e.mem then e.mem[0] else 0
  }

  function Jump(x: Choice, e: Env): Effect {
    match x
    case None => Next(e)
    case Some(name) => Goto(name, e)
  }

  /** Instructions count their turns in memory and make the choices of the plan, setting the register.  The
      one after the plan is stuck if the register is no longer set; otherwise it, and all that follow, set
      the return predicates and make for the exit. */
  function DrivenBy(plan: seq<Choice>, r: string, preds: set<string>, exit: Choice, e: Env): Effect {
    var n := Counter(e);
    if n < |plan| then Jump(plan[n], Env(e.regs[r := 1], e.mem[0 := n + 1]))
    else if n == |plan| && Get(e.regs, r) == 0 then Stuck
    else Jump(exit, Env(Raised(e.regs, preds), e.mem[0 := |plan| + 1]))
  }

  function Driven(plan: seq<Choice>, r: string, preds: set<string>, exit: Choice): Sem {
    (text: string, e: Env) => DrivenBy(plan, r, preds, exit, e)
  }

  function Raised(regs: Regs, preds: set<string>): Regs {
    regs + map p | p in preds :: 1
  }

  lemma {:induction false} DrivenIsBlind(plan: seq<Choice>, r: string, preds: set<string>, exit: Choice,
                                         body: seq<Line>)
    requires !Scratch(r)
    ensures Blind(Driven(plan, r, preds, exit), body)
  {
    var sem := Driven(plan, r, preds, exit);
    forall text, e, e' | Agree(e, e')
      ensures AgreeEffect(sem(text, e), sem(text, e'))
    {
      DrivenAgrees(plan, r, preds, exit, e, e');
    }
  }

  lemma {:induction false} DrivenAgrees(plan: seq<Choice>, r: string, preds: set<string>, exit: Choice, e: Env, e': Env)
    requires !Scratch(r) && Agree(e, e')
    ensures AgreeEffect(DrivenBy(plan, r, preds, exit, e), DrivenBy(plan, r, preds, exit, e'))
  {
    var n := Counter(e);
    assert Get(e.regs, r) == Get(e'.regs, r);
    if n < |plan| {
      SetAgrees(e, e', r, e.mem[0 := n + 1]);
      JumpAgrees(plan[n], Env(e.regs[r := 1], e.mem[0 := n + 1]), Env(e'.regs[r := 1], e.mem[0 := n + 1]));
    } else {
      var mem := e.mem[0 := |plan| + 1];
      RaisedAgrees(e, e', preds, mem);
      JumpAgrees(exit, Env(Raised(e.regs, preds), mem), Env(Raised(e'.regs, preds), mem));
    }
  }

  lemma {:induction false} JumpAgrees(x: Choice, e: Env, e': Env)
    requires Agree(e, e')
    ensures AgreeEffect(Jump(x, e), Jump(x, e'))
  {
  }

  lemma {:induction false} SetAgrees(e: Env, e': Env, r: string, mem: map<nat, nat>)
    requires Agree(e, e')
    ensures Agree(Env(e.regs[r := 1], mem), Env(e'.regs[r := 1], mem))
  {
    forall x | !Scratch(x)
      ensures Get(e.regs[r := 1], x) == Get(e'.regs[r := 1], x)
    {
      assert Get(e.regs, x) == Get(e'.regs, x);
    }
  }

  lemma {:induction false} RaisedAgrees(e: Env, e': Env, preds: set<string>, mem: map<nat, nat>)
    requires Agree(e, e')
    ensures Agree(Env(Raised(e.regs, preds), mem), Env(Raised(e'.regs, preds), mem))
  {
    forall x | !Scratch(x)
      ensures Get(Raised(e.regs, preds), x) == Get(Raised(e'.regs, preds), x)
    {
      assert Get(e.regs, x) == Get(e'.regs, x);
    }
  }

  // ----- the original never faults -----

  ghost predicate PredsUp(body: seq<Line>, e: Env) {
    forall k | 0 <= k < |body| && Conditional(body[k]) :: Get(e.regs, body[k].pred.value) != 0
  }

  /** From line `k` on there is work to do, or, if instructions go on to the next line, a return. */
  ghost predicate HasExit(body: seq<Line>, exit: Choice, k: nat) {
    match exit
    case None => MeetsReturn(body, k)
    case Some(name) => LivingLabel(body, name) && MeetsWork(body, k)
  }

  /** Every instruction, whatever its text, goes for the exit. */
  ghost predicate Leaving(plan: seq<Choice>, body: seq<Line>, e: Env) {
    Counter(e) == |plan| + 1 && PredsUp(body, e)
  }

  lemma {:induction false} LeavingNeverFaults(plan: seq<Choice>, r: string, preds: set<string>, exit: Choice,
                                              body: seq<Line>, origin: nat, st: State, k: nat, fuel: nat)
    requires Leaving(plan, body, st.env) && HasExit(body, exit, k)
    ensures Run(Driven(plan, r, preds, exit), Copy(body), origin, st, k, fuel) != Fault
    decreases fuel
  {
    var sem := Driven(plan, r, preds, exit);
    if fuel > 0 {
      var t := Step(sem, Copy(body), origin, st, k);
      if t.Go? {
        if body[k].Instr? {
          RaisedStay(plan, body, st.env, preds);
        }
        LeavingNeverFaults(plan, r, preds, exit, body, origin, t.st, t.pc, fuel - 1);
      }
    }
  }

  lemma {:induction false} RaisedStay(plan: seq<Choice>, body: seq<Line>, e: Env, preds: set<string>)
    requires PredsUp(body, e)
    ensures Leaving(plan, body, Env(Raised(e.regs, preds), e.mem[0 := |plan| + 1]))
  {
    forall k | 0 <= k < |body| && Conditional(body[k])
      ensures Get(Raised(e.regs, preds), body[k].pred.value) != 0
    {
      assert Get(e.regs, body[k].pred.value) != 0;
    }
  }

  // ----- both runs along the plan -----

  /** The original's registers and memory after `n` instructions of the plan. */
  function EnvAt(n: nat, r: string): Env {
    if n == 0 then Env(map[], map[]) else Env(map[r := 1], map[0 := n])
  }

  /** Along the plan no predicated return is taken, and a fault later on is a fault of the whole run. */
  lemma {:induction false} PlainDriven(sem: Sem, plan: seq<Choice>, r: string, body: seq<Line>, origin: nat,
                                       area: seq<Byte>, k: nat, n: nat, j: nat)
    requires Drives(sem, plan, r) && n <= |plan| && Leads(body, k, plan[n..], j)
    requires forall i | 0 <= i < |body| && Conditional(body[i]) :: body[i].pred.value != r
    ensures EndsFrom(sem, Copy(body), origin, State(EnvAt(n, r), area), k, Fault)
        ==> EndsFrom(sem, Copy(body), origin, State(EnvAt(|plan|, r), area), j, Fault)
    decreases |plan| - n, |body| - k
  {
    var st := State(EnvAt(n, r), area);
    if n == |plan| && k == j {
    } else if body[k].Instr? {
      var st' := State(EnvAt(n + 1, r), area);
      var x, i := plan[n..][0], Take(body, k, plan[n..][0]).value;
      assert plan[n..][1..] == plan[n + 1..];
      assert sem(body[k].text, st.env) == Jump(plan[n], st'.env);
      PlainDriven(sem, plan, r, body, origin, area, i, n + 1, j);
      EndsGo(sem, Copy(body), origin, st, k, st', i, Fault);
    } else {
      PlainDriven(sem, plan, r, body, origin, area, k + 1, n, j);
      EndsGo(sem, Copy(body), origin, st, k, st, k + 1, Fault);
    }
  }

  /** While the plan lasts, instructions count, set the register and make the plan's choices. */
  ghost predicate Drives(sem: Sem, plan: seq<Choice>, r: string) {
    forall text, e | Counter(e) < |plan| ::
      sem(text, e) == Jump(plan[Counter(e)], Env(e.regs[r := 1], e.mem[0 := Counter(e) + 1]))
  }

  /** The guarded run after `n` instructions of the plan: the register may have been put back to zero. */
  ghost predicate Following(slots: seq<Slot>, n: nat, r: string, origin: nat, st: State) {
    Loosely(slots, EnvAt(n, r), st.env) && StillSaved(slots, map[], origin, st)
  }

  lemma {:induction false} FollowInstr(sem: Sem, plan: seq<Choice>, r: string, code: seq<Out>, body: seq<Line>, q: nat,
                                       before: seq<Guard>, restore: seq<Guard>, at: seq<nat>, slots: seq<Slot>,
                                       origin: nat, k: nat, n: nat, st: State) returns (st': State)
    requires Mirrors(code, body, q, before, restore, at) && Drives(sem, plan, r) && First(slots, |slots|, r).Some?
    requires q <= k < |body| && body[k].Instr? && n < |plan| && Take(body, k, plan[n]).Some?
    requires Following(slots, n, r, origin, st)
    ensures var i := Take(body, k, plan[n]).value;
            && q <= i <= |body| && Following(slots, n + 1, r, origin, st')
            && (EndsFrom(sem, code, origin, st', at[i], Fault) ==> EndsFrom(sem, code, origin, st, at[k], Fault))
  {
    assert LineHere(code, at[k], at[k + 1], Lead(body[k], restore), body[k]);
    st' := st.(env := Env(st.env.regs[r := 1], st.env.mem[0 := n + 1]));
    FollowsOn(slots, n, r, st.env);
    assert Counter(st.env) == n;
    assert sem(body[k].text, st.env) == Jump(plan[n], st'.env);
    var i := Take(body, k, plan[n]).value;
    if plan[n].Some? {
      FindSame(code, body, q, before, restore, at, plan[n].value);
    }
    JumpStep(sem, code, origin, st, at[k], body[k].text, plan[n], st'.env, at[i]);
    EndsGo(sem, code, origin, st, at[k], st', at[i], Fault);
  }

  lemma {:induction false} JumpStep(sem: Sem, code: seq<Out>, origin: nat, st: State, pc: nat, text: string, x: Choice,
                                    e: Env, i: nat)
    requires pc < |code| && code[pc] == Orig(Instr(text)) && sem(text, st.env) == Jump(x, e)
    requires if x.None? then i == pc + 1 else Find(code, x.value, 0) == Some(i)
    ensures Step(sem, code, origin, st, pc) == Go(st.(env := e), i)
  {
  }

  lemma {:induction false} FollowsOn(slots: seq<Slot>, n: nat, r: string, e: Env)
    requires Loosely(slots, EnvAt(n, r), e) && First(slots, |slots|, r).Some?
    ensures Loosely(slots, EnvAt(n + 1, r), Env(e.regs[r := 1], e.mem[0 := n + 1]))
  {
    forall x | !Scratch(x) && First(slots, |slots|, x) == None
      ensures Get(EnvAt(n + 1, r).regs, x) == Get(e.regs[r := 1], x)
    {
      assert Get(EnvAt(n, r).regs, x) == Get(e.regs, x);
    }
  }

  /** The restore block leaves the register at zero. */
  lemma {:induction false} FollowRestored(r: string, restore: seq<Guard>, slots: seq<Slot>, origin: nat, n: nat,
                                          st: State) returns (mid: State)
    requires Restores(restore, slots, map[], origin) && First(slots, |slots|, r).Some? && !Scratch(r)
    requires Following(slots, n, r, origin, st)
    ensures ExecAll(restore, st, origin) == Some(mid) && Following(slots, n, r, origin, mid)
    ensures Get(mid.env.regs, r) == 0
  {
    mid := RestoredHere(restore, slots, map[], origin, st);
    RestoredLoosely(slots, map[], EnvAt(n, r), st.env, mid.env);
    assert Get(mid.env.regs, r) == Restored(slots, |slots|, map[], st.env.regs, r);
  }

  /** A predicated return is not taken. */
  lemma {:induction false} NotTaken(sem: Sem, code: seq<Out>, pc: nat, p: string, slots: seq<Slot>, origin: nat,
                                    n: nat, r: string, st: State)
    requires pc < |code| && code[pc] == Orig(Ret(Some(p))) && Following(slots, n, r, origin, st) && p != r
    requires !Scratch(p) && First(slots, |slots|, p) == None
    ensures Step(sem, code, origin, st, pc) == Go(st, pc + 1)
  {
    assert Get(EnvAt(n, r).regs, p) == Get(st.env.regs, p);
  }

  /** A line that control falls through, its restore block first if it is a return. */
  lemma {:induction false} FollowPast(sem: Sem, r: string, code: seq<Out>, a: nat, next: nat, line: Line,
                                      restore: seq<Guard>, slots: seq<Slot>, origin: nat, n: nat, st: State)
      returns (mid: State)
    requires LineHere(code, a, next, Lead(line, restore), line) && Passes(line)
    requires Conditional(line) ==> !Scratch(line.pred.value) && First(slots, |slots|, line.pred.value) == None
    requires Restores(restore, slots, map[], origin) && First(slots, |slots|, r).Some? && !Scratch(r)
    requires Following(slots, n, r, origin, st)
    ensures Following(slots, n, r, origin, mid)
    ensures line.Ret? || Get(st.env.regs, r) == 0 ==> Get(mid.env.regs, r) == 0
    ensures EndsFrom(sem, code, origin, mid, next, Fault) ==> EndsFrom(sem, code, origin, st, a, Fault)
  {
    var lead := Lead(line, restore);
    mid := st;
    if line.Ret? {
      mid := FollowRestored(r, restore, slots, origin, n, st);
      NotTaken(sem, code, a + |lead|, line.pred.value, slots, origin, n, r, mid);
    }
    EndsGo(sem, code, origin, mid, a + |lead|, mid, next, Fault);
    if EndsFrom(sem, code, origin, mid, next, Fault) {
      EndsBlock(sem, code, origin, st, a, lead, mid, Fault);
    }
  }

  /** Along the plan the guarded run comes to the same line; a fault later on is a fault of the whole run. */
  lemma {:induction false} GuardedDriven(sem: Sem, plan: seq<Choice>, r: string, code: seq<Out>, body: seq<Line>,
                                         q: nat, before: seq<Guard>, restore: seq<Guard>, at: seq<nat>,
                                         slots: seq<Slot>, origin: nat, k: nat, n: nat, j: nat, st: State)
      returns (last: State)
    requires Mirrors(code, body, q, before, restore, at) && Drives(sem, plan, r) && PredicatesKept(body, slots)
    requires Restores(restore, slots, map[], origin) && First(slots, |slots|, r).Some? && !Scratch(r)
    requires q <= k && j < |body| && n <= |plan| && Leads(body, k, plan[n..], j) && Following(slots, n, r, origin, st)
    ensures q <= j && k <= |body| && Following(slots, |plan|, r, origin, last)
    ensures EndsFrom(sem, code, origin, last, at[j], Fault) ==> EndsFrom(sem, code, origin, st, at[k], Fault)
    ensures n == |plan| && Get(st.env.regs, r) == 0 ==> Get(last.env.regs, r) == 0
    decreases |plan| - n, |body| - k
  {
    if n == |plan| && k == j {
      last := st;
    } else if body[k].Instr? {
      assert plan[n..][0] == plan[n] && plan[n..][1..] == plan[n + 1..];
      var st' := FollowInstr(sem, plan, r, code, body, q, before, restore, at, slots, origin, k, n, st);
      var i := Take(body, k, plan[n]).value;
      last := GuardedDriven(sem, plan, r, code, body, q, before, restore, at, slots, origin, i, n + 1, j, st');
    } else {
      assert LineHere(code, at[k], at[k + 1], Lead(body[k], restore), body[k]);
      var mid := FollowPast(sem, r, code, at[k], at[k + 1], body[k], restore, slots, origin, n, st);
      last := GuardedDriven(sem, plan, r, code, body, q, before, restore, at, slots, origin, k + 1, n, j, mid);
    }
  }

  // ----- the exact condition -----

  /** A caller's state: every saved register holds a value of its width, and the save area has its size. */
  ghost predicate Starts(f: seq<Line>, s: State, origin: nat) {
    && Fits(AllSlots(f), s.env.regs)
    && |s.area| == AreaSize(8 * |AllSlots(f)|) && origin + |s.area| <= ADDRESS_SPACE
  }

  /** Whatever the instructions mean, as long as they do not look at the scratch registers, and from whatever
      state, the guarded function ends exactly when the original does, and the same way. */
  ghost predicate KeepsMeaning(f: seq<Line>, b: nat) {
    && b + 1 <= |f| && b + 1 <= |Guarded(f)|
    && forall sem, s, origin: nat | Starts(f, s, origin) && Blind(sem, f[b + 1..]) :: EndsSame(sem, f, b, s, origin)
  }

  ghost predicate EndsSame(sem: Sem, f: seq<Line>, b: nat, s: State, origin: nat)
    requires b + 1 <= |f| && b + 1 <= |Guarded(f)|
  {
    SameEnds(sem, Copy(f[b + 1..]), Guarded(f)[b + 1..], origin, s, AllSlots(f))
  }

  /** The first line of the body that is not a declaration. */
  function FirstLine(f: seq<Line>, b: nat): nat
    requires BraceFrom(f, 1) == Some(b)
  {
    LeadEnd(f, b + 1) - (b + 1)
  }

  lemma {:induction false} NoHazardKeeps(sem: Sem, f: seq<Line>, b: nat, s: State, origin: nat)
    requires BraceFrom(f, 1) == Some(b) && PredicatesKept(f[b + 1..], AllSlots(f)) && Blind(sem, f[b + 1..])
    requires AllSlots(f) == [] || !Hazard(f[b + 1..], FirstLine(f, b))
    requires Starts(f, s, origin)
    ensures b + 1 <= |Guarded(f)| && EndsSame(sem, f, b, s, origin)
  {
    var q, before, restore, at, st' := Opened(f, b, s, origin);
    BodiesEndAlike(sem, Guarded(f)[b + 1..], f[b + 1..], q, before, restore, at, AllSlots(f), s, origin, st');
  }

  lemma {:induction false} Opened(f: seq<Line>, b: nat, s: State, origin: nat)
      returns (q: nat, before: seq<Guard>, restore: seq<Guard>, at: seq<nat>, st': State)
    requires BraceFrom(f, 1) == Some(b)
    requires |s.area| == AreaSize(8 * |AllSlots(f)|) && origin + |s.area| <= ADDRESS_SPACE
    ensures q == FirstLine(f, b)
    ensures b + 1 <= |Guarded(f)|
    ensures Ready(Guarded(f)[b + 1..], f[b + 1..], q, before, restore, at, AllSlots(f), s, origin, st')
  {
    before, restore := Before(f), AtReturn(f);
    q, at := GuardedBody(f, b);
    st' := Prepared(f, s, origin);
  }

  /** The original does not fault at the instruction after the plan, nor later. */
  lemma {:induction false} ExitNeverFaults(plan: seq<Choice>, r: string, preds: set<string>, exit: Choice,
                                           body: seq<Line>, origin: nat, area: seq<Byte>, c: nat)
    requires plan != [] && c < |body| && body[c].Instr?
    requires if exit == None then MeetsReturn(body, c + 1) else LivingLabel(body, exit.value)
    requires forall i | 0 <= i < |body| && Conditional(body[i]) :: body[i].pred.value in preds
    ensures !EndsFrom(Driven(plan, r, preds, exit), Copy(body), origin, State(EnvAt(|plan|, r), area), c, Fault)
  {
    var sem, st := Driven(plan, r, preds, exit), State(EnvAt(|plan|, r), area);
    var e := Env(Raised(st.env.regs, preds), st.env.mem[0 := |plan| + 1]);
    var i := Take(body, c, exit).value;
    assert sem(body[c].text, st.env) == Jump(exit, e);
    JumpStep(sem, Copy(body), origin, st, c, body[c].text, exit, e, i);
    assert Leaving(plan, body, e) && HasExit(body, exit, i);
    forall fuel: nat
      ensures Run(sem, Copy(body), origin, st.(env := e), i, fuel) != Fault
    {
      LeavingNeverFaults(plan, r, preds, exit, body, origin, st.(env := e), i, fuel);
    }
    EndsGo(sem, Copy(body), origin, st, c, st.(env := e), i, Fault);
  }

  /** From its start the original never faults. */
  lemma {:induction false} PlainSurvives(plan: seq<Choice>, r: string, preds: set<string>, exit: Choice,
                                         body: seq<Line>, q: nat, k: nat, c: nat, origin: nat, area: seq<Byte>)
    requires HazardAt(body, q, plan, k, c)
    requires if exit == None then MeetsReturn(body, c + 1) else LivingLabel(body, exit.value)
    requires forall i | 0 <= i < |body| && Conditional(body[i]) ::
               body[i].pred.value in preds && body[i].pred.value != r
    ensures !EndsFrom(Driven(plan, r, preds, exit), Copy(body), origin, State(EnvAt(0, r), area), q, Fault)
  {
    var sem, st := Driven(plan, r, preds, exit), State(EnvAt(|plan|, r), area);
    assert plan[0..] == plan && plan[|plan|..] == [];
    PlainDriven(sem, plan, r, body, origin, area, q, 0, k);
    assert Get(st.env.regs, body[k].pred.value) == 0;
    EndsGo(sem, Copy(body), origin, st, k, st, k + 1, Fault);
    PlainDriven(sem, plan, r, body, origin, area, k + 1, |plan|, c);
    ExitNeverFaults(plan, r, preds, exit, body, origin, area, c);
  }

  /** The guarded code comes to the same instruction with the register at zero, and faults. */
  lemma {:induction false} GuardedFaults(plan: seq<Choice>, r: string, preds: set<string>, exit: Choice, code: seq<Out>,
                                         body: seq<Line>, q: nat, before: seq<Guard>, restore: seq<Guard>,
                                         at: seq<nat>, slots: seq<Slot>, origin: nat, k: nat, c: nat, st: State)
    requires HazardAt(body, q, plan, k, c) && Mirrors(code, body, q, before, restore, at)
    requires PredicatesKept(body, slots) && Restores(restore, slots, map[], origin)
    requires First(slots, |slots|, r).Some? && !Scratch(r) && Following(slots, 0, r, origin, st)
    ensures EndsFrom(Driven(plan, r, preds, exit), code, origin, st, at[q], Fault)
  {
    var sem := Driven(plan, r, preds, exit);
    assert plan[0..] == plan && plan[|plan|..] == [];
    var s1 := GuardedDriven(sem, plan, r, code, body, q, before, restore, at, slots, origin, q, 0, k, st);
    assert LineHere(code, at[k], at[k + 1], Lead(body[k], restore), body[k]);
    var s2 := FollowPast(sem, r, code, at[k], at[k + 1], body[k], restore, slots, origin, |plan|, s1);
    var s3 := GuardedDriven(sem, plan, r, code, body, q, before, restore, at, slots, origin, k + 1, |plan|, c, s2);
    assert LineHere(code, at[c], at[c + 1], Lead(body[c], restore), body[c]);
    StuckFaults(plan, r, preds, exit, code, at[c], body[c].text, origin, s3);
  }

  lemma {:induction false} StuckFaults(plan: seq<Choice>, r: string, preds: set<string>, exit: Choice, code: seq<Out>,
                                       pc: nat, text: string, origin: nat, st: State)
    requires pc < |code| && code[pc] == Orig(Instr(text)) && Counter(st.env) == |plan| && Get(st.env.regs, r) == 0
    ensures EndsFrom(Driven(plan, r, preds, exit), code, origin, st, pc, Fault)
  {
    var sem := Driven(plan, r, preds, exit);
    assert sem(text, st.env) == Stuck;
    EndsStop(sem, code, origin, st, pc, Fault);
  }

  lemma {:induction false} HazardBreaks(f: seq<Line>, b: nat)
    requires BraceFrom(f, 1) == Some(b) && PredicatesKept(f[b + 1..], AllSlots(f)) && AllSlots(f) != []
    requires AreaSize(8 * |AllSlots(f)|) <= ADDRESS_SPACE && Hazard(f[b + 1..], FirstLine(f, b))
    ensures !KeepsMeaning(f, b)
  {
    var s := BlankState(f);
    var sem := HazardTells(f, b, f[b + 1..], s);
    FaultBreaks(f, b, f[b + 1..], sem, s);
  }

  lemma {:induction false} FaultBreaks(f: seq<Line>, b: nat, body: seq<Line>, sem: Sem, s: State)
    requires b + 1 <= |f| && b + 1 <= |Guarded(f)| && body == f[b + 1..] && Starts(f, s, 0) && Blind(sem, body)
    requires Ends(sem, Guarded(f)[b + 1..], 0, s, Fault) && !Ends(sem, Copy(body), 0, s, Fault)
    ensures !KeepsMeaning(f, b)
  {
    FaultShows(sem, Copy(body), Guarded(f)[b + 1..], 0, s, AllSlots(f));
    assert !EndsSame(sem, f, b, s, 0);
  }

  lemma {:induction false} BlankState(f: seq<Line>) returns (s: State)
    requires AreaSize(8 * |AllSlots(f)|) <= ADDRESS_SPACE
    ensures s.env == Env(map[], map[]) && Starts(f, s, 0)
  {
    s := State(Env(map[], map[]), seq(AreaSize(8 * |AllSlots(f)|), _ => 0));
  }

  lemma {:induction false} HazardTells(f: seq<Line>, b: nat, body: seq<Line>, s: State) returns (sem: Sem)
    requires BraceFrom(f, 1) == Some(b) && body == f[b + 1..] && AllSlots(f) != []
    requires PredicatesKept(body, AllSlots(f)) && Hazard(body, FirstLine(f, b))
    requires s.env == Env(map[], map[]) && Starts(f, s, 0)
    ensures b + 1 <= |Guarded(f)| && Blind(sem, body)
    ensures Ends(sem, Guarded(f)[b + 1..], 0, s, Fault) && !Ends(sem, Copy(body), 0, s, Fault)
  {
    var q, before, restore, at, st' := Opened(f, b, s, 0);
    var r := SomeSaved(f);
    sem := BodyBreaks(Guarded(f)[b + 1..], body, q, before, restore, at, AllSlots(f), s, st', r);
  }

  /** Some meaning of the instructions tells the two bodies apart. */
  lemma {:induction false} BodyBreaks(code: seq<Out>, body: seq<Line>, q: nat, before: seq<Guard>, restore: seq<Guard>,
                                      at: seq<nat>, slots: seq<Slot>, s: State, st': State, r: string)
      returns (sem: Sem)
    requires Ready(code, body, q, before, restore, at, slots, s, 0, st') && Hazard(body, q)
    requires PredicatesKept(body, slots) && s.env == Env(map[], map[]) && First(slots, |slots|, r).Some? && !Scratch(r)
    ensures Blind(sem, body) && Ends(sem, code, 0, s, Fault) && !Ends(sem, Copy(body), 0, s, Fault)
  {
    var plan, k: nat, c: nat :| HazardAt(body, q, plan, k, c);
    var preds := set i | 0 <= i < |body| && Conditional(body[i]) :: body[i].pred.value;
    var exit := ExitFrom(body, c);
    sem := Driven(plan, r, preds, exit);
    DrivenIsBlind(plan, r, preds, exit, body);
    assert Following(slots, 0, r, 0, st');
    GuardedFaults(plan, r, preds, exit, code, body, q, before, restore, at, slots, 0, k, c, st');
    PlainSurvives(plan, r, preds, exit, body, q, k, c, 0, s.area);
    BodyStarts(sem, code, body, q, before, restore, at, s, 0, st', Fault);
  }

  lemma {:induction false} FaultShows(sem: Sem, plain: seq<Out>, code: seq<Out>, origin: nat, s: State,
                                      slots: seq<Slot>)
    requires Ends(sem, code, origin, s, Fault) && !Ends(sem, plain, origin, s, Fault)
    ensures !SameEnds(sem, plain, code, origin, s, slots)
  {
    assert !EndsBefore(sem, plain, origin, s, slots, Fault);
  }

  lemma {:induction false} ExitFrom(body: seq<Line>, c: nat) returns (exit: Choice)
    requires Lives(body, c)
    ensures if exit == None then MeetsReturn(body, c + 1) else LivingLabel(body, exit.value)
  {
    if MeetsReturn(body, c + 1) {
      exit := None;
    } else {
      var name :| LivingLabel(body, name);
      exit := Some(name);
    }
  }

  lemma {:induction false} SomeSaved(f: seq<Line>) returns (r: string)
    requires AllSlots(f) != []
    ensures First(AllSlots(f), |AllSlots(f)|, r).Some? && !Scratch(r)
  {
    SlotsAreGood(f, |f|);
    r := AllSlots(f)[0].name;
    assert Good(AllSlots(f)[0]);
  }

  /** The guard keeps a function's meaning if and only if it saves nothing or the function has no hazard. */
  lemma {:induction false} KeepsMeaningIff(f: seq<Line>, b: nat)
    requires BraceFrom(f, 1) == Some(b) && PredicatesKept(f[b + 1..], AllSlots(f))
    requires AreaSize(8 * |AllSlots(f)|) <= ADDRESS_SPACE
    ensures KeepsMeaning(f, b) <==> AllSlots(f) == [] || !Hazard(f[b + 1..], FirstLine(f, b))
  {
    if AllSlots(f) == [] || !Hazard(f[b + 1..], FirstLine(f, b)) {
      var q, at := GuardedBody(f, b);
      forall sem, s, origin: nat | Starts(f, s, origin) && Blind(sem, f[b + 1..])
        ensures EndsSame(sem, f, b, s, origin)
      {
        NoHazardKeeps(sem, f, b, s, origin);
      }
    } else {
      HazardBreaks(f, b);
    }
  }
}
