/** What guarded and unguarded functions do when they run, and why the guard keeps the
    original's effects.  One machine runs both: instructions are an arbitrary function of
    registers and memory, the inserted lines work on the save area through the two scratch
    registers. */
module GuardMachine {
  import opened Common
  import opened Bytes
  import opened RegisterGuard

  type Regs = map<string, nat>

  function Get(regs: Regs, r: string): nat {
    if r in regs then regs[r] else 0
  }

  datatype Env = Env(regs: Regs, mem: map<nat, nat>)

  /** What one instruction does. */
  datatype Effect = Next(env: Env) | Goto(target: string, env: Env) | Stuck

  type Sem = (string, Env) -> Effect

  datatype State = State(env: Env, area: seq<Byte>)

  datatype Result = Halted(st: State) | Fault | OutOfFuel

  const ADDRESS_SPACE: nat := 0x1_0000_0000_0000_0000

  // ----- the inserted lines -----

  function Set(st: State, r: string, v: nat): State {
    st.(env := st.env.(regs := st.env.regs[r := v]))
  }

  /** The save area occupies addresses from `origin`; an access outside it faults. */
  function Exec(g: Guard, st: State, origin: nat): Option<State> {
    match g
    case DeclArea(_) => Some(st)
    case DeclScratch(_) => Some(st)
    case Note(_) => Some(st)
    case MovBase => Some(Set(st, BASE_REG, origin))
    case AddAddr(offset) => Some(Set(st, ADDR_REG, (Get(st.env.regs, BASE_REG) + offset) % ADDRESS_SPACE))
    case StoreLocal(modifier, reg) =>
      var a, w := Get(st.env.regs, ADDR_REG), Width(modifier);
      if w > 0 && origin <= a && a + w <= origin + |st.area| then
        Some(st.(area := Write(st.area, a - origin, Encode(Get(st.env.regs, reg), w))))
      else None
    case LoadLocal(modifier, reg) =>
      var a, w := Get(st.env.regs, ADDR_REG), Width(modifier);
      if w > 0 && origin <= a && a + w <= origin + |st.area| then
        Some(Set(st, reg, Decode(st.area[a - origin..a - origin + w])))
      else None
  }

  function Write(area: seq<Byte>, at: nat, bytes: seq<Byte>): (r: seq<Byte>)
    requires at + |bytes| <= |area|
    ensures |r| == |area|
  {
    area[..at] + bytes + area[at + |bytes|..]
  }

  function ExecAll(gs: seq<Guard>, st: State, origin: nat): Option<State> {
    if gs == [] then Some(st)
    else match Exec(gs[0], st, origin)
      case None => None
      case Some(st') => ExecAll(gs[1..], st', origin)
  }

  lemma {:induction false} ExecConcat(a: seq<Guard>, b: seq<Guard>, st: State, origin: nat)
    ensures ExecAll(a + b, st, origin)
         == match ExecAll(a, st, origin) case None => None case Some(st') => ExecAll(b, st', origin)
  {
    if a == [] {
      assert a + b == b;
    } else {
      assert (a + b)[0] == a[0] && (a + b)[1..] == a[1..] + b;
      match Exec(a[0], st, origin)
      case None =>
      case Some(st') => ExecConcat(a[1..], b, st', origin);
    }
  }

  // ----- runs -----

  /** The first line from `i` on that carries the label. */
  function Find(code: seq<Out>, target: string, i: nat): (r: Option<nat>)
    ensures r.Some? ==> i <= r.value < |code|
    decreases |code| - i
  {
    if i >= |code| then None
    else if code[i] == Orig(Label(target)) then Some(i)
    else Find(code, target, i + 1)
  }

  datatype Turn = Go(st: State, pc: nat) | Stop(result: Result)

  /** One line; control that reaches the closing brace or leaves the code faults. */
  function Step(sem: Sem, code: seq<Out>, origin: nat, st: State, pc: nat): Turn {
    if pc >= |code| then Stop(Fault)
    else match code[pc]
      case Added(g) =>
        (match Exec(g, st, origin)
         case None => Stop(Fault)
         case Some(st') => Go(st', pc + 1))
      case Orig(Instr(text)) =>
        (match sem(text, st.env)
         case Next(env) => Go(st.(env := env), pc + 1)
         case Goto(target, env) =>
           (match Find(code, target, 0)
            case None => Stop(Fault)
            case Some(at) => Go(st.(env := env), at))
         case Stuck => Stop(Fault))
      case Orig(Ret(pred)) =>
        if pred == None || Get(st.env.regs, pred.value) != 0 then Stop(Halted(st)) else Go(st, pc + 1)
      case Orig(CloseBrace) => Stop(Fault)
      case Orig(_) => Go(st, pc + 1)
  }

  function Run(sem: Sem, code: seq<Out>, origin: nat, st: State, pc: nat, fuel: nat): Result
    decreases fuel
  {
    if fuel == 0 then OutOfFuel
    else match Step(sem, code, origin, st, pc)
      case Go(st', pc') => Run(sem, code, origin, st', pc', fuel - 1)
      case Stop(result) => result
  }

  lemma {:induction false} MoreFuel(sem: Sem, code: seq<Out>, origin: nat, st: State, pc: nat, fuel: nat, more: nat)
    requires Run(sem, code, origin, st, pc, fuel) != OutOfFuel && fuel <= more
    ensures Run(sem, code, origin, st, pc, more) == Run(sem, code, origin, st, pc, fuel)
    decreases fuel
  {
    match Step(sem, code, origin, st, pc)
    case Go(st', pc') => MoreFuel(sem, code, origin, st', pc', fuel - 1, more - 1);
    case Stop(_) =>
  }

  /** Control runs straight through an inserted block. */
  lemma {:induction false} RunBlock(sem: Sem, code: seq<Out>, origin: nat, st: State, pc: nat, gs: seq<Guard>,
                                    st': State, fuel: nat)
    requires pc + |gs| <= |code| && code[pc..pc + |gs|] == Block(gs) && ExecAll(gs, st, origin) == Some(st')
    ensures Run(sem, code, origin, st, pc, fuel)
         == if fuel <= |gs| then OutOfFuel else Run(sem, code, origin, st', pc + |gs|, fuel - |gs|)
    decreases |gs|
  {
    if gs != [] && fuel > 0 {
      assert code[pc] == code[pc..pc + |gs|][0] == Added(gs[0]);
      BlockTail(code, pc, gs);
      RunBlock(sem, code, origin, Exec(gs[0], st, origin).value, pc + 1, gs[1..], st', fuel - 1);
    }
  }

  lemma {:induction false} BlockTail(code: seq<Out>, pc: nat, gs: seq<Guard>)
    requires gs != [] && pc + |gs| <= |code| && code[pc..pc + |gs|] == Block(gs)
    ensures code[pc + 1..pc + 1 + |gs[1..]|] == Block(gs[1..])
  {
    assert code[pc + 1..pc + 1 + |gs[1..]|] == code[pc..pc + |gs|][1..];
  }

  /** Declarations and comments do nothing. */
  lemma {:induction false} RunLeading(sem: Sem, code: seq<Out>, origin: nat, st: State, pc: nat, n: nat, fuel: nat)
    requires pc + n <= |code| && forall k | pc <= k < pc + n :: code[k].Orig? && Leading(code[k].line)
    ensures Run(sem, code, origin, st, pc, fuel)
         == if fuel <= n then OutOfFuel else Run(sem, code, origin, st, pc + n, fuel - n)
    decreases n
  {
    if n > 0 && fuel > 0 {
      assert code[pc].Orig? && Leading(code[pc].line);
      RunLeading(sem, code, origin, st, pc + 1, n - 1, fuel - 1);
    }
  }

  // ----- saving -----

  predicate Scratch(r: string) {
    r == BASE_REG || r == ADDR_REG
  }

  /** Equal but for the two scratch registers. */
  ghost predicate Agree(e: Env, e': Env) {
    e.mem == e'.mem && forall r | !Scratch(r) :: Get(e.regs, r) == Get(e'.regs, r)
  }

  /** The slots fit in the area, and the area in the address space. */
  ghost predicate Room(slots: seq<Slot>, area: seq<Byte>, origin: nat) {
    AllGood(slots) && 8 * |slots| <= |area| && origin + |area| <= ADDRESS_SPACE
  }

  ghost predicate Holds(area: seq<Byte>, at: nat, bytes: seq<Byte>) {
    at + |bytes| <= |area| && area[at..at + |bytes|] == bytes
  }

  function Image(slot: Slot, regs: Regs): seq<Byte> {
    Encode(Get(regs, slot.name), Width(slot.modifier))
  }

  /** The first `n` slots hold the registers' bytes. */
  ghost predicate Saved(area: seq<Byte>, slots: seq<Slot>, n: nat, regs: Regs)
    requires n <= |slots|
  {
    forall k | 0 <= k < n :: Holds(area, 8 * k, Image(slots[k], regs))
  }

  lemma {:induction false} HoldsWritten(area: seq<Byte>, at: nat, bytes: seq<Byte>)
    requires at + |bytes| <= |area|
    ensures Holds(Write(area, at, bytes), at, bytes)
  {
  }

  lemma {:induction false} HoldsStill(area: seq<Byte>, at: nat, bytes: seq<Byte>, at': nat, bytes': seq<Byte>)
    requires at' + |bytes'| <= |area| && Holds(area, at, bytes) && at + |bytes| <= at'
    ensures Holds(Write(area, at', bytes'), at, bytes)
  {
  }

  lemma {:induction false} SaveOne(slots: seq<Slot>, n: nat, st: State, origin: nat) returns (st': State)
    requires n < |slots| && Room(slots, st.area, origin) && Get(st.env.regs, BASE_REG) == origin
    ensures ExecAll([AddAddr(8 * n), StoreLocal(slots[n].modifier, slots[n].name)], st, origin) == Some(st')
    ensures Agree(st.env, st'.env) && Get(st'.env.regs, BASE_REG) == origin
    ensures st'.area == Write(st.area, 8 * n, Image(slots[n], st.env.regs))
  {
    var slot := slots[n];
    assert Good(slot);
    var add, store := AddAddr(8 * n), StoreLocal(slot.modifier, slot.name);
    var mid := Set(st, ADDR_REG, origin + 8 * n);
    assert Exec(add, st, origin) == Some(mid);
    st' := mid.(area := Write(st.area, 8 * n, Image(slot, st.env.regs)));
    assert Exec(store, mid, origin) == Some(st');
    ExecTwo(add, store, st, mid, st', origin);
  }

  lemma {:induction false} ExecTwo(g: Guard, h: Guard, st: State, mid: State, st': State, origin: nat)
    requires Exec(g, st, origin) == Some(mid) && Exec(h, mid, origin) == Some(st')
    ensures ExecAll([g, h], st, origin) == Some(st')
  {
    assert [g, h][1..] == [h] && [h][1..] == [];
    assert ExecAll([h], mid, origin) == ExecAll([], st', origin);
  }

  lemma {:induction false} ImageSame(slot: Slot, e: Env, e': Env)
    requires Good(slot) && Agree(e, e')
    ensures Image(slot, e.regs) == Image(slot, e'.regs)
  {
  }

  lemma {:induction false} SaveRuns(slots: seq<Slot>, n: nat, st: State, origin: nat) returns (st': State)
    requires n <= |slots| && Room(slots, st.area, origin) && Get(st.env.regs, BASE_REG) == origin
    ensures ExecAll(SaveSteps(slots, n), st, origin) == Some(st')
    ensures Agree(st.env, st'.env) && Get(st'.env.regs, BASE_REG) == origin
    ensures |st'.area| == |st.area| && Saved(st'.area, slots, n, st.env.regs)
    decreases n
  {
    if n == 0 {
      st' := st;
    } else {
      var mid := SaveRuns(slots, n - 1, st, origin);
      st' := SaveOne(slots, n - 1, mid, origin);
      ExecConcat(SaveSteps(slots, n - 1), [AddAddr(8 * (n - 1)), StoreLocal(slots[n - 1].modifier, slots[n - 1].name)],
                 st, origin);
      ImageSame(slots[n - 1], st.env, mid.env);
      SavedOneMore(mid.area, slots, n, st.env.regs);
    }
  }

  lemma {:induction false} SavedOneMore(area: seq<Byte>, slots: seq<Slot>, n: nat, regs: Regs)
    requires 0 < n <= |slots| && AllGood(slots) && 8 * |slots| <= |area| && Saved(area, slots, n - 1, regs)
    ensures Good(slots[n - 1]) && Saved(Write(area, 8 * (n - 1), Image(slots[n - 1], regs)), slots, n, regs)
  {
    assert Good(slots[n - 1]);
    var image := Image(slots[n - 1], regs);
    HoldsWritten(area, 8 * (n - 1), image);
    forall k | 0 <= k < n - 1
      ensures Holds(Write(area, 8 * (n - 1), image), 8 * k, Image(slots[k], regs))
    {
      assert Good(slots[k]);
      HoldsStill(area, 8 * k, Image(slots[k], regs), 8 * (n - 1), image);
    }
  }

  // ----- restoring -----

  /** The first of the first `n` slots with this name. */
  function First(slots: seq<Slot>, n: nat, r: string): (k: Option<nat>)
    requires n <= |slots|
    ensures k.Some? ==> k.value < n && slots[k.value].name == r
    ensures k == None ==> forall j | 0 <= j < n :: slots[j].name != r
  {
    if n == 0 then None
    else
      var k := First(slots, n - 1, r);
      if k.Some? then k else if slots[n - 1].name == r then Some(n - 1) else None
  }

  /** What a register holds after the first `n` slots are restored: its entry value cut to the width of
      its first slot, or what it held if it has none. */
  function Restored(slots: seq<Slot>, n: nat, entry: Regs, regs: Regs, r: string): nat
    requires n <= |slots|
  {
    match First(slots, n, r)
    case None => Get(regs, r)
    case Some(k) => Get(entry, r) % Pow256(Width(slots[k].modifier))
  }

  ghost predicate RestoredEnv(slots: seq<Slot>, n: nat, entry: Regs, e: Env, e': Env)
    requires n <= |slots|
  {
    e'.mem == e.mem && forall r | !Scratch(r) :: Get(e'.regs, r) == Restored(slots, n, entry, e.regs, r)
  }

  ghost predicate OneRestored(slot: Slot, entry: Regs, e: Env, e': Env) {
    && e'.mem == e.mem
    && forall r | !Scratch(r) ::
         Get(e'.regs, r) == if r == slot.name then Get(entry, r) % Pow256(Width(slot.modifier)) else Get(e.regs, r)
  }

  lemma {:induction false} RestoreOne(slots: seq<Slot>, n: nat, st: State, origin: nat, entry: Regs)
      returns (st': State)
    requires n < |slots| && Room(slots, st.area, origin) && Get(st.env.regs, BASE_REG) == origin
    requires Saved(st.area, slots, |slots|, entry)
    ensures ExecAll([AddAddr(8 * n), LoadLocal(slots[n].modifier, slots[n].name)], st, origin) == Some(st')
    ensures st'.area == st.area && Get(st'.env.regs, BASE_REG) == origin
    ensures OneRestored(slots[n], entry, st.env, st'.env)
  {
    var slot := slots[n];
    assert Good(slot) && Holds(st.area, 8 * n, Image(slot, entry));
    var add, load := AddAddr(8 * n), LoadLocal(slot.modifier, slot.name);
    var mid := Set(st, ADDR_REG, origin + 8 * n);
    assert Exec(add, st, origin) == Some(mid);
    st' := Set(mid, slot.name, Get(entry, slot.name) % Pow256(Width(slot.modifier)));
    LoadBack(slot, mid, origin, 8 * n, entry);
    ExecTwo(add, load, st, mid, st', origin);
  }

  /** Loading a slot gives the low bytes of what was saved. */
  lemma {:induction false} LoadBack(slot: Slot, st: State, origin: nat, at: nat, entry: Regs)
    requires Good(slot) && Holds(st.area, at, Image(slot, entry)) && Get(st.env.regs, ADDR_REG) == origin + at
    ensures Exec(LoadLocal(slot.modifier, slot.name), st, origin)
         == Some(Set(st, slot.name, Get(entry, slot.name) % Pow256(Width(slot.modifier))))
  {
    DecodeEncodeMod(Get(entry, slot.name), Width(slot.modifier));
  }

  lemma {:induction false} RestoredOneMore(slots: seq<Slot>, n: nat, entry: Regs, e: Env, mid: Env, e': Env)
    requires 0 < n <= |slots| && OneRestored(slots[n - 1], entry, e, mid) && RestoredEnv(slots, n - 1, entry, mid, e')
    ensures RestoredEnv(slots, n, entry, e, e')
  {
    forall r | !Scratch(r)
      ensures Get(e'.regs, r) == Restored(slots, n, entry, e.regs, r)
    {
      assert Get(e'.regs, r) == Restored(slots, n - 1, entry, mid.regs, r);
    }
  }

  lemma {:induction false} RestoreRuns(slots: seq<Slot>, n: nat, st: State, origin: nat, entry: Regs)
      returns (st': State)
    requires n <= |slots| && Room(slots, st.area, origin) && Get(st.env.regs, BASE_REG) == origin
    requires Saved(st.area, slots, |slots|, entry)
    ensures ExecAll(RestoreSteps(slots, n), st, origin) == Some(st')
    ensures RestoredEnv(slots, n, entry, st.env, st'.env) && st'.area == st.area
    decreases n
  {
    if n == 0 {
      st' := st;
    } else {
      var mid := RestoreOne(slots, n - 1, st, origin, entry);
      st' := RestoreRuns(slots, n - 1, mid, origin, entry);
      ExecConcat([AddAddr(8 * (n - 1)), LoadLocal(slots[n - 1].modifier, slots[n - 1].name)],
                 RestoreSteps(slots, n - 1), st, origin);
      RestoredOneMore(slots, n, entry, st.env, mid.env, st'.env);
    }
  }

  // ----- the blocks -----

  lemma {:induction false} NotesAround(note: Guard, gs: seq<Guard>, note': Guard, st: State, st': State, origin: nat)
    requires note.Note? && note'.Note?
    requires ExecAll(gs, Set(st, BASE_REG, origin), origin) == Some(st')
    ensures ExecAll([note, MovBase] + gs + [note'], st, origin) == Some(st')
  {
    ExecTwo(note, MovBase, st, st, Set(st, BASE_REG, origin), origin);
    ExecConcat([note, MovBase], gs, st, origin);
    ExecConcat([note, MovBase] + gs, [note'], st, origin);
    assert [note'][1..] == [];
  }

  lemma {:induction false} SaveBlockRuns(slots: seq<Slot>, st: State, origin: nat) returns (st': State)
    requires Room(slots, st.area, origin)
    ensures ExecAll(SaveBlock(slots), st, origin) == Some(st')
    ensures Agree(st.env, st'.env) && |st'.area| == |st.area| && Saved(st'.area, slots, |slots|, st.env.regs)
  {
    var based := Set(st, BASE_REG, origin);
    st' := SaveRuns(slots, |slots|, based, origin);
    NotesAround(Note("// --- BEGIN REGISTER SAVING"), SaveSteps(slots, |slots|),
                Note("// --- END REGISTER SAVING"), st, st', origin);
    SavedSame(st'.area, slots, based.env, st.env);
  }

  lemma {:induction false} SavedSame(area: seq<Byte>, slots: seq<Slot>, e: Env, e': Env)
    requires AllGood(slots) && Agree(e, e') && Saved(area, slots, |slots|, e.regs)
    ensures Saved(area, slots, |slots|, e'.regs)
  {
    forall k | 0 <= k < |slots|
      ensures Holds(area, 8 * k, Image(slots[k], e'.regs))
    {
      assert Holds(area, 8 * k, Image(slots[k], e.regs));
      ImageSame(slots[k], e, e');
    }
  }

  lemma {:induction false} BlankAndNotes(note: Guard, gs: seq<Guard>, note': Guard, st: State, st': State, origin: nat)
    requires note.Note? && note'.Note?
    requires ExecAll(gs, Set(st, BASE_REG, origin), origin) == Some(st')
    ensures ExecAll([Note(""), note, MovBase] + gs + [note'], st, origin) == Some(st')
  {
    NotesAround(note, gs, note', st, st', origin);
    var all := [Note(""), note, MovBase] + gs + [note'];
    assert all[1..] == [note, MovBase] + gs + [note'];
  }

  lemma {:induction false} RestoreBlockRuns(slots: seq<Slot>, st: State, origin: nat, entry: Regs) returns (st': State)
    requires Room(slots, st.area, origin) && Saved(st.area, slots, |slots|, entry)
    ensures ExecAll(RestoreBlock(slots), st, origin) == Some(st')
    ensures RestoredEnv(slots, |slots|, entry, st.env, st'.env) && st'.area == st.area
  {
    var based := Set(st, BASE_REG, origin);
    st' := RestoreRuns(slots, |slots|, based, origin, entry);
    BlankAndNotes(Note("// --- BEGIN REGISTER RESTORING"), RestoreSteps(slots, |slots|),
                  Note("// --- END REGISTER RESTORING"), st, st', origin);
    RestoredSame(slots, entry, based.env, st.env, st'.env);
  }

  lemma {:induction false} RestoredSame(slots: seq<Slot>, entry: Regs, e: Env, e': Env, last: Env)
    requires Agree(e, e') && RestoredEnv(slots, |slots|, entry, e, last)
    ensures RestoredEnv(slots, |slots|, entry, e', last)
  {
    forall r | !Scratch(r)
      ensures Get(last.regs, r) == Restored(slots, |slots|, entry, e'.regs, r)
    {
      assert Get(e.regs, r) == Get(e'.regs, r);
    }
  }

  lemma {:induction false} BeforeRuns(f: seq<Line>, st: State, origin: nat) returns (st': State)
    requires Room(AllSlots(f), st.area, origin)
    ensures ExecAll(Before(f), st, origin) == Some(st')
    ensures Agree(st.env, st'.env) && |st'.area| == |st.area|
    ensures Saved(st'.area, AllSlots(f), |AllSlots(f)|, st.env.regs)
  {
    var slots := AllSlots(f);
    if slots == [] {
      st' := st;
    } else {
      st' := SaveBlockRuns(slots, st, origin);
    }
    if Collected(f, |f|) != [] {
      DeclsRun(8 * |slots|, st, origin);
      ExecConcat(DeclBlock(8 * |slots|), if slots == [] then [] else SaveBlock(slots), st, origin);
    }
  }

  lemma {:induction false} DeclsRun(total: nat, st: State, origin: nat)
    ensures ExecAll(DeclBlock(total), st, origin) == Some(st)
  {
    var d := DeclBlock(total);
    ExecTwo(d[1], d[2], st, st, st, origin);
    assert d[1..] == [d[1], d[2]];
  }

  lemma {:induction false} AtReturnRuns(f: seq<Line>, st: State, origin: nat, entry: Regs) returns (st': State)
    requires Room(AllSlots(f), st.area, origin) && Saved(st.area, AllSlots(f), |AllSlots(f)|, entry)
    ensures ExecAll(AtReturn(f), st, origin) == Some(st')
    ensures RestoredEnv(AllSlots(f), |AllSlots(f)|, entry, st.env, st'.env) && st'.area == st.area
  {
    if AllSlots(f) == [] {
      st' := st;
    } else {
      st' := RestoreBlockRuns(AllSlots(f), st, origin, entry);
    }
  }

  // ----- positions -----

  /** Where line `k` of the body, restore block first, is in the guarded body. */
  function At(body: seq<Line>, q: nat, before: seq<Guard>, restore: seq<Guard>, k: nat): nat
    requires q <= k <= |body|
  {
    q + |before| + |Restoring(body[q..], restore, k - q)|
  }

  function Lead(l: Line, restore: seq<Guard>): seq<Guard> {
    if l.Ret? then restore else []
  }

  lemma {:induction false} RestoringPrefix(f: seq<Line>, restore: seq<Guard>, m: nat, n: nat)
    requires m <= n <= |f|
    ensures Restoring(f, restore, m) <= Restoring(f, restore, n)
    decreases n
  {
    if m < n {
      RestoringPrefix(f, restore, m, n - 1);
    }
  }

  /** Line `line` with the guards `lead` in front stands at `a`, and `next` is just after it. */
  ghost predicate LineHere(code: seq<Out>, a: nat, next: nat, lead: seq<Guard>, line: Line) {
    && a + |lead| < |code| && code[a..a + |lead|] == Block(lead) && code[a + |lead|] == Orig(line)
    && next == a + |lead| + 1
  }

  lemma {:induction false} LineInPrefix(done: seq<Out>, lead: seq<Guard>, line: Line, upto: seq<Out>, all: seq<Out>)
    requires upto == done + (Block(lead) + [Orig(line)]) && upto <= all
    ensures LineHere(all, |done|, |upto|, lead, line)
  {
    assert all[|done|..|done| + |lead|] == upto[|done|..|done| + |lead|];
  }

  /** Line `j` of the part after the insertion point, with its block. */
  lemma {:induction false} RestoringAt(f: seq<Line>, restore: seq<Guard>, j: nat)
    requires j < |f|
    ensures LineHere(Restoring(f, restore, |f|), |Restoring(f, restore, j)|, |Restoring(f, restore, j + 1)|,
                     Lead(f[j], restore), f[j])
  {
    RestoringPrefix(f, restore, j + 1, |f|);
    LineInPrefix(Restoring(f, restore, j), Lead(f[j], restore), f[j], Restoring(f, restore, j + 1),
                 Restoring(f, restore, |f|));
  }

  lemma {:induction false} ShiftedLine(front: seq<Out>, all: seq<Out>, a: nat, next: nat, lead: seq<Guard>, line: Line)
    requires LineHere(all, a, next, lead, line)
    ensures LineHere(front + all, |front| + a, |front| + next, lead, line)
  {
    var b := |front| + a;
    assert (front + all)[b..b + |lead|] == all[a..a + |lead|];
  }

  lemma {:induction false} LineAt(body: seq<Line>, q: nat, before: seq<Guard>, restore: seq<Guard>, k: nat)
    requires q <= k < |body|
    ensures LineHere(Shape(body, q, before, restore), At(body, q, before, restore, k),
                     At(body, q, before, restore, k + 1), Lead(body[k], restore), body[k])
  {
    var front, rest, j := Copy(body[..q]) + Block(before), body[q..], k - q;
    assert rest[j] == body[k];
    LineAfter(front, rest, restore, j);
  }

  lemma {:induction false} LineAfter(front: seq<Out>, rest: seq<Line>, restore: seq<Guard>, j: nat)
    requires j < |rest|
    ensures LineHere(front + Restoring(rest, restore, |rest|), |front| + |Restoring(rest, restore, j)|,
                     |front| + |Restoring(rest, restore, j + 1)|, Lead(rest[j], restore), rest[j])
  {
    var all := Restoring(rest, restore, |rest|);
    var a, next := |Restoring(rest, restore, j)|, |Restoring(rest, restore, j + 1)|;
    assert LineHere(all, a, next, Lead(rest[j], restore), rest[j]) by { RestoringAt(rest, restore, j); }
    ShiftedLine(front, all, a, next, Lead(rest[j], restore), rest[j]);
  }

  /** Guarded code line by line: leading lines as they were, the inserted block, then every line `k` of
      the body at `at[k]` with the restore block in front if it returns. */
  ghost predicate Mirrors(code: seq<Out>, body: seq<Line>, q: nat, before: seq<Guard>, restore: seq<Guard>,
                          at: seq<nat>) {
    && q <= |body| && q + |before| <= |code| && code[q..q + |before|] == Block(before)
    && (forall k | 0 <= k < q :: code[k] == Orig(body[k]) && Leading(body[k]))
    && |at| == |body| + 1 && at[q] == q + |before| && at[|body|] == |code|
    && (forall k | q <= k < |body| :: LineHere(code, at[k], at[k + 1], Lead(body[k], restore), body[k]))
  }

  lemma {:induction false} ShapeMirrors(body: seq<Line>, q: nat, before: seq<Guard>, restore: seq<Guard>)
      returns (at: seq<nat>)
    requires q <= |body| && forall k | 0 <= k < q :: Leading(body[k])
    ensures Mirrors(Shape(body, q, before, restore), body, q, before, restore, at)
  {
    var code := Shape(body, q, before, restore);
    at := seq(|body| + 1, k requires 0 <= k <= |body| => if k < q then 0 else At(body, q, before, restore, k));
    FrontOf(body, q, before, restore);
    forall k | q <= k < |body|
      ensures LineHere(code, at[k], at[k + 1], Lead(body[k], restore), body[k])
    {
      LineAt(body, q, before, restore, k);
    }
  }

  lemma {:induction false} FrontOf(body: seq<Line>, q: nat, before: seq<Guard>, restore: seq<Guard>)
    requires q <= |body|
    ensures var code := Shape(body, q, before, restore);
            && q + |before| <= |code| && code[q..q + |before|] == Block(before)
            && (forall k | 0 <= k < q :: code[k] == Orig(body[k]))
            && At(body, q, before, restore, q) == q + |before| && At(body, q, before, restore, |body|) == |code|
  {
  }

  // ----- labels -----

  lemma {:induction false} FindSkips(code: seq<Out>, target: string, i: nat, n: nat)
    requires i <= n <= |code| && forall k | i <= k < n :: code[k] != Orig(Label(target))
    ensures Find(code, target, i) == Find(code, target, n)
    decreases n - i
  {
    if i < n {
      FindSkips(code, target, i + 1, n);
    }
  }

  lemma {:induction false} FindPast(code: seq<Out>, target: string, a: nat, next: nat, lead: seq<Guard>, line: Line)
    requires LineHere(code, a, next, lead, line)
    ensures Find(code, target, a) == if line == Label(target) then Some(a + |lead|) else Find(code, target, next)
  {
    forall j | a <= j < a + |lead|
      ensures code[j] != Orig(Label(target))
    {
      assert code[j] == code[a..a + |lead|][j - a];
    }
    FindSkips(code, target, a, a + |lead|);
  }

  /** The label is found from line `k` of the plain code exactly where it is found in the guarded code. */
  ghost predicate Found(code: seq<Out>, plain: seq<Out>, at: seq<nat>, target: string, k: nat)
    requires |at| == |plain| + 1 && k <= |plain|
  {
    var i := Find(plain, target, k);
    Find(code, target, at[k]) == if i == None then None else Some(at[i.value])
  }

  lemma {:induction false} FoundStep(code: seq<Out>, plain: seq<Out>, at: seq<nat>, target: string, k: nat,
                                     lead: seq<Guard>, line: Line)
    requires |at| == |plain| + 1 && k < |plain| && plain[k] == Orig(line) && (line.Label? ==> lead == [])
    requires LineHere(code, at[k], at[k + 1], lead, line) && Found(code, plain, at, target, k + 1)
    ensures Found(code, plain, at, target, k)
  {
    FindPast(code, target, at[k], at[k + 1], lead, line);
  }

  lemma {:induction false} FindFrom(code: seq<Out>, body: seq<Line>, q: nat, before: seq<Guard>, restore: seq<Guard>,
                                    at: seq<nat>, target: string, k: nat)
    requires Mirrors(code, body, q, before, restore, at) && q <= k <= |body|
    ensures Found(code, Copy(body), at, target, k)
    decreases |body| - k
  {
    if k < |body| {
      FindFrom(code, body, q, before, restore, at, target, k + 1);
      assert LineHere(code, at[k], at[k + 1], Lead(body[k], restore), body[k]);
      FoundStep(code, Copy(body), at, target, k, Lead(body[k], restore), body[k]);
    }
  }

  lemma {:induction false} FindSame(code: seq<Out>, body: seq<Line>, q: nat, before: seq<Guard>, restore: seq<Guard>,
                                    at: seq<nat>, target: string)
    requires Mirrors(code, body, q, before, restore, at)
    ensures var i := Find(Copy(body), target, 0);
            && (i.Some? ==> q <= i.value < |body|)
            && Find(code, target, 0) == if i == None then None else Some(at[i.value])
  {
    FindSkips(Copy(body), target, 0, q);
    FindSkips(code, target, 0, q);
    forall j | q <= j < q + |before|
      ensures code[j] != Orig(Label(target))
    {
      assert code[j] == code[q..q + |before|][j - q];
    }
    FindSkips(code, target, q, q + |before|);
    FindFrom(code, body, q, before, restore, at, target, q);
  }

  // ----- lockstep -----

  ghost predicate AgreeEffect(x: Effect, y: Effect) {
    match x
    case Next(e) => y.Next? && Agree(e, y.env)
    case Goto(target, e) => y.Goto? && y.target == target && Agree(e, y.env)
    case Stuck => y.Stuck?
  }

  /** The instruction does not look at the scratch registers. */
  ghost predicate Ignores(sem: Sem, text: string) {
    forall e, e' {:trigger AgreeEffect(sem(text, e), sem(text, e'))} | Agree(e, e') ::
      AgreeEffect(sem(text, e), sem(text, e'))
  }

  /** No instruction looks at the scratch registers. */
  ghost predicate Blind(sem: Sem, body: seq<Line>) {
    forall k | 0 <= k < |body| :: body[k].Instr? ==> Ignores(sem, body[k].text)
  }

  /** Only unconditional returns, and no instruction that looks at the scratch registers. */
  ghost predicate Clean(sem: Sem, body: seq<Line>) {
    Blind(sem, body) && forall k | 0 <= k < |body| :: body[k].Ret? ==> body[k].pred == None
  }

  /** Same outcome; at a halt the memory is the same, saved registers are back and others as they were. */
  ghost predicate Matches(r: Result, r': Result, slots: seq<Slot>, entry: Regs) {
    match r
    case Halted(st) => r'.Halted? && RestoredEnv(slots, |slots|, entry, st.env, r'.st.env)
    case Fault => r'.Fault?
    case OutOfFuel => true
  }

  lemma {:induction false} InstrStep(sem: Sem, code: seq<Out>, body: seq<Line>, q: nat, before: seq<Guard>,
                                     restore: seq<Guard>, at: seq<nat>, origin: nat, k: nat, st: State, st': State)
    requires Mirrors(code, body, q, before, restore, at)
    requires q <= k < |body| && !body[k].Ret? && Blind(sem, body) && Agree(st.env, st'.env)
    ensures var t, t' := Step(sem, Copy(body), origin, st, k), Step(sem, code, origin, st', at[k]);
            match t
            case Stop(r) => r == Fault && t' == t
            case Go(s, pc) => q <= pc <= |body| && t'.Go? && t'.pc == at[pc]
                              && Agree(s.env, t'.st.env) && t'.st.area == st'.area
  {
    assert LineHere(code, at[k], at[k + 1], Lead(body[k], restore), body[k]);
    if body[k].Instr? {
      var text := body[k].text;
      assert Ignores(sem, text);
      assert AgreeEffect(sem(text, st.env), sem(text, st'.env));
      if sem(text, st.env).Goto? {
        FindSame(code, body, q, before, restore, at, sem(text, st.env).target);
      }
    }
  }

  /** The guarded run is in step: same registers and memory, entry values still saved. */
  ghost predicate InStep(slots: seq<Slot>, entry: Regs, origin: nat, st: State, st': State) {
    Agree(st.env, st'.env) && Room(slots, st'.area, origin) && Saved(st'.area, slots, |slots|, entry)
  }

  ghost predicate BringsBack(restore: seq<Guard>, slots: seq<Slot>, entry: Regs, origin: nat, st: State, st': State) {
    var last := ExecAll(restore, st', origin);
    last.Some? && RestoredEnv(slots, |slots|, entry, st.env, last.value.env) && last.value.area == st'.area
  }

  /** The block brings the saved registers back from every state in step. */
  ghost predicate Restores(restore: seq<Guard>, slots: seq<Slot>, entry: Regs, origin: nat) {
    forall st, st' {:trigger BringsBack(restore, slots, entry, origin, st, st')}
      | InStep(slots, entry, origin, st, st') :: BringsBack(restore, slots, entry, origin, st, st')
  }

  lemma {:induction false} AtReturnRestores(f: seq<Line>, entry: Regs, origin: nat)
    ensures Restores(AtReturn(f), AllSlots(f), entry, origin)
  {
    var slots := AllSlots(f);
    forall st, st' | InStep(slots, entry, origin, st, st')
      ensures BringsBack(AtReturn(f), slots, entry, origin, st, st')
    {
      var last := AtReturnRuns(f, st', origin, entry);
      AgreeBack(st.env, st'.env);
      RestoredSame(slots, entry, st'.env, st.env, last.env);
    }
  }

  lemma {:induction false} RunReturn(sem: Sem, code: seq<Out>, origin: nat, st: State, pc: nat, fuel: nat)
    requires pc < |code| && code[pc] == Orig(Ret(None)) && fuel > 0
    ensures Run(sem, code, origin, st, pc, fuel) == Halted(st)
  {
  }

  lemma {:induction false} RunGo(sem: Sem, code: seq<Out>, origin: nat, st: State, pc: nat, st': State, pc': nat,
                                 fuel: nat)
    requires Step(sem, code, origin, st, pc) == Go(st', pc') && fuel > 0
    ensures Run(sem, code, origin, st, pc, fuel) == Run(sem, code, origin, st', pc', fuel - 1)
  {
  }

  lemma {:induction false} RunStop(sem: Sem, code: seq<Out>, origin: nat, st: State, pc: nat, fuel: nat)
    requires Step(sem, code, origin, st, pc).Stop? && fuel > 0
    ensures Run(sem, code, origin, st, pc, fuel) == Step(sem, code, origin, st, pc).result
  {
  }

  /** A return with its restore block. */
  lemma {:induction false} ReturnAt(sem: Sem, code: seq<Out>, a: nat, restore: seq<Guard>, slots: seq<Slot>,
                                    entry: Regs, origin: nat, st: State, st': State, fuel: nat)
    requires a + |restore| < |code| && code[a..a + |restore|] == Block(restore)
    requires code[a + |restore|] == Orig(Ret(None))
    requires Restores(restore, slots, entry, origin) && InStep(slots, entry, origin, st, st') && fuel > 0
    ensures Matches(Halted(st), Run(sem, code, origin, st', a, fuel + |restore|), slots, entry)
  {
    assert BringsBack(restore, slots, entry, origin, st, st');
    var last := ExecAll(restore, st', origin).value;
    RunBlock(sem, code, origin, st', a, restore, last, fuel + |restore|);
    RunReturn(sem, code, origin, last, a + |restore|, fuel);
  }

  /** The plain and the guarded run end the same way, the guarded one at most `extra` lines later. */
  ghost predicate Alike(sem: Sem, plain: seq<Out>, code: seq<Out>, origin: nat, slots: seq<Slot>, entry: Regs,
                        extra: nat, st: State, pc: nat, st': State, pc': nat, fuel: nat)
  {
    var r := Run(sem, plain, origin, st, pc, fuel);
    && Matches(r, Run(sem, code, origin, st', pc', fuel + extra), slots, entry)
    && (Run(sem, code, origin, st', pc', fuel) != OutOfFuel ==> r != OutOfFuel)
  }

  lemma {:induction false} AlikeGo(sem: Sem, plain: seq<Out>, code: seq<Out>, origin: nat, slots: seq<Slot>,
                                   entry: Regs, extra: nat, st: State, pc: nat, st': State, pc': nat, fuel: nat)
    requires var t, t' := Step(sem, plain, origin, st, pc), Step(sem, code, origin, st', pc');
             && t.Go? && t'.Go? && fuel > 0
             && Alike(sem, plain, code, origin, slots, entry, extra, t.st, t.pc, t'.st, t'.pc, fuel - 1)
    ensures Alike(sem, plain, code, origin, slots, entry, extra, st, pc, st', pc', fuel)
  {
    var t, t' := Step(sem, plain, origin, st, pc), Step(sem, code, origin, st', pc');
    RunGo(sem, plain, origin, st, pc, t.st, t.pc, fuel);
    RunGo(sem, code, origin, st', pc', t'.st, t'.pc, fuel);
    RunGo(sem, code, origin, st', pc', t'.st, t'.pc, fuel + extra);
  }

  lemma {:induction false} AlikeFault(sem: Sem, plain: seq<Out>, code: seq<Out>, origin: nat, slots: seq<Slot>,
                                      entry: Regs, extra: nat, st: State, pc: nat, st': State, pc': nat, fuel: nat)
    requires Step(sem, plain, origin, st, pc) == Stop(Fault) == Step(sem, code, origin, st', pc') && fuel > 0
    ensures Alike(sem, plain, code, origin, slots, entry, extra, st, pc, st', pc', fuel)
  {
    RunStop(sem, plain, origin, st, pc, fuel);
    RunStop(sem, code, origin, st', pc', fuel + extra);
  }

  lemma {:induction false} AlikeReturn(sem: Sem, plain: seq<Out>, code: seq<Out>, restore: seq<Guard>, slots: seq<Slot>,
                                       entry: Regs, origin: nat, st: State, pc: nat, st': State, a: nat, fuel: nat)
    requires pc < |plain| && plain[pc] == Orig(Ret(None)) && fuel > 0
    requires a + |restore| < |code| && code[a..a + |restore|] == Block(restore)
    requires code[a + |restore|] == Orig(Ret(None))
    requires Restores(restore, slots, entry, origin) && InStep(slots, entry, origin, st, st')
    ensures Alike(sem, plain, code, origin, slots, entry, |restore|, st, pc, st', a, fuel)
  {
    RunReturn(sem, plain, origin, st, pc, fuel);
    ReturnAt(sem, code, a, restore, slots, entry, origin, st, st', fuel);
  }

  lemma {:induction false} MirroredReturn(sem: Sem, code: seq<Out>, body: seq<Line>, q: nat, before: seq<Guard>,
                                          restore: seq<Guard>, at: seq<nat>, k: nat)
    requires Mirrors(code, body, q, before, restore, at) && q <= k < |body| && Clean(sem, body) && body[k].Ret?
    ensures body[k] == Ret(None) && LineHere(code, at[k], at[k + 1], restore, Ret(None))
  {
    assert LineHere(code, at[k], at[k + 1], Lead(body[k], restore), body[k]);
  }

  /** From corresponding lines both bodies end the same way, the guarded one at most a restore block later. */
  lemma {:induction false} Lockstep(sem: Sem, code: seq<Out>, body: seq<Line>, q: nat, before: seq<Guard>,
                                    restore: seq<Guard>, at: seq<nat>, slots: seq<Slot>, entry: Regs, origin: nat,
                                    k: nat, st: State, st': State, fuel: nat)
    requires Mirrors(code, body, q, before, restore, at) && q <= k <= |body| && Clean(sem, body)
    requires Restores(restore, slots, entry, origin) && InStep(slots, entry, origin, st, st')
    ensures Alike(sem, Copy(body), code, origin, slots, entry, |restore|, st, k, st', at[k], fuel)
    decreases fuel
  {
    var plain := Copy(body);
    if fuel == 0 {
    } else if k == |body| {
      AlikeFault(sem, plain, code, origin, slots, entry, |restore|, st, k, st', at[k], fuel);
    } else if body[k].Ret? {
      MirroredReturn(sem, code, body, q, before, restore, at, k);
      AlikeReturn(sem, plain, code, restore, slots, entry, origin, st, k, st', at[k], fuel);
    } else {
      InstrStep(sem, code, body, q, before, restore, at, origin, k, st, st');
      var t, t' := Step(sem, plain, origin, st, k), Step(sem, code, origin, st', at[k]);
      if t.Go? {
        Lockstep(sem, code, body, q, before, restore, at, slots, entry, origin, t.pc, t.st, t'.st, fuel - 1);
        AlikeGo(sem, plain, code, origin, slots, entry, |restore|, st, k, st', at[k], fuel);
      } else {
        AlikeFault(sem, plain, code, origin, slots, entry, |restore|, st, k, st', at[k], fuel);
      }
    }
  }

  lemma {:induction false} AgreeBack(e: Env, e': Env)
    requires Agree(e, e')
    ensures Agree(e', e)
  {
    forall r | !Scratch(r)
      ensures Get(e'.regs, r) == Get(e.regs, r)
    {
      assert Get(e.regs, r) == Get(e'.regs, r);
    }
  }

  // ----- the guard keeps the meaning -----

  lemma {:induction false} ShapeDrop(f: seq<Line>, b: nat, p: nat, before: seq<Guard>, restore: seq<Guard>)
    requires b <= p <= |f|
    ensures b <= |Shape(f, p, before, restore)|
    ensures Shape(f, p, before, restore)[b..] == Shape(f[b..], p - b, before, restore)
  {
    assert f[b..][p - b..] == f[p..] && f[b..][..p - b] == f[b..p];
    var head, tail := Copy(f[..p]), Block(before) + Restoring(f[p..], restore, |f| - p);
    assert head[b..] == Copy(f[b..p]);
    assert Shape(f, p, before, restore) == head + tail;
    assert (head + tail)[b..] == head[b..] + tail;
  }

  /** What stands after the opening brace of the guarded function. */
  lemma {:induction false} GuardedBody(f: seq<Line>, b: nat) returns (q: nat, at: seq<nat>)
    requires BraceFrom(f, 1) == Some(b)
    ensures q == LeadEnd(f, b + 1) - (b + 1)
    ensures b + 1 <= |Guarded(f)| && Mirrors(Guarded(f)[b + 1..], f[b + 1..], q, Before(f), AtReturn(f), at)
  {
    GuardedIsShape(f, b);
    q, at := ShapeBody(f, b, LeadEnd(f, b + 1), Before(f), AtReturn(f));
  }

  lemma {:induction false} ShapeBody(f: seq<Line>, b: nat, p: nat, before: seq<Guard>, restore: seq<Guard>)
      returns (q: nat, at: seq<nat>)
    requires b < p <= |f| && forall k | b < k < p :: Leading(f[k])
    ensures q == p - (b + 1)
    ensures var g := Shape(f, p, before, restore);
            b + 1 <= |g| && Mirrors(g[b + 1..], f[b + 1..], q, before, restore, at)
  {
    q := p - (b + 1);
    ShapeDrop(f, b + 1, p, before, restore);
    var body := f[b + 1..];
    forall k | 0 <= k < q
      ensures Leading(body[k])
    {
      assert body[k] == f[b + 1 + k];
    }
    at := ShapeMirrors(body, q, before, restore);
  }

  lemma {:induction false} SlotsHaveRoom(f: seq<Line>, area: seq<Byte>, origin: nat)
    requires |area| == AreaSize(8 * |AllSlots(f)|) && origin + |area| <= ADDRESS_SPACE
    ensures Room(AllSlots(f), area, origin)
  {
    SlotsAreGood(f, |f|);
  }

  /** From line 0 the run is at line `n` in state `st'` after `n` turns. */
  ghost predicate Reaches(sem: Sem, code: seq<Out>, origin: nat, st: State, n: nat, st': State, fuel: nat) {
    Run(sem, code, origin, st, 0, fuel)
    == if fuel <= n then OutOfFuel else Run(sem, code, origin, st', n, fuel - n)
  }

  /** The part before the first instruction: declarations, then in guarded code the inserted block. */
  lemma {:induction false} Entry(sem: Sem, code: seq<Out>, q: nat, before: seq<Guard>, s: State, origin: nat,
                                 st': State, fuel: nat)
    requires q + |before| <= |code| && code[q..q + |before|] == Block(before)
    requires forall k | 0 <= k < q :: code[k].Orig? && Leading(code[k].line)
    requires ExecAll(before, s, origin) == Some(st')
    ensures Reaches(sem, code, origin, s, q + |before|, st', fuel)
  {
    RunLeading(sem, code, origin, s, 0, q, fuel);
    if fuel > q {
      RunBlock(sem, code, origin, s, q, before, st', fuel - q);
    }
  }

  lemma {:induction false} Entered(sem: Sem, code: seq<Out>, body: seq<Line>, q: nat, before: seq<Guard>,
                                   restore: seq<Guard>, at: seq<nat>, s: State, origin: nat, st': State, fuel: nat)
    requires Mirrors(code, body, q, before, restore, at) && ExecAll(before, s, origin) == Some(st')
    ensures Reaches(sem, Copy(body), origin, s, q, s, fuel)
    ensures Reaches(sem, code, origin, s, q + |before|, st', fuel)
  {
    var plain := Copy(body);
    assert plain[q..q + 0] == Block([]);
    Entry(sem, plain, q, [], s, origin, s, fuel);
    Entry(sem, code, q, before, s, origin, st', fuel);
  }

  /** The original's end is the guarded end. */
  lemma {:induction false} BodyForward(sem: Sem, code: seq<Out>, body: seq<Line>, q: nat, before: seq<Guard>,
                                       restore: seq<Guard>, at: seq<nat>, slots: seq<Slot>, s: State, origin: nat,
                                       st': State, fuel: nat)
    requires Mirrors(code, body, q, before, restore, at) && Clean(sem, body)
    requires ExecAll(before, s, origin) == Some(st') && InStep(slots, s.env.regs, origin, s, st')
    requires Restores(restore, slots, s.env.regs, origin)
    ensures Matches(Run(sem, Copy(body), origin, s, 0, fuel),
                    Run(sem, code, origin, s, 0, fuel + (|before| + |restore|)), slots, s.env.regs)
  {
    Entered(sem, code, body, q, before, restore, at, s, origin, st', fuel);
    Entered(sem, code, body, q, before, restore, at, s, origin, st', fuel + (|before| + |restore|));
    if fuel > q {
      Lockstep(sem, code, body, q, before, restore, at, slots, s.env.regs, origin, q, s, st', fuel - q);
    }
  }

  /** The guarded code ends only if the original does. */
  lemma {:induction false} BodyBackward(sem: Sem, code: seq<Out>, body: seq<Line>, q: nat, before: seq<Guard>,
                                        restore: seq<Guard>, at: seq<nat>, slots: seq<Slot>, s: State, origin: nat,
                                        st': State, fuel: nat)
    requires Mirrors(code, body, q, before, restore, at) && Clean(sem, body)
    requires ExecAll(before, s, origin) == Some(st') && InStep(slots, s.env.regs, origin, s, st')
    requires Restores(restore, slots, s.env.regs, origin)
    ensures Run(sem, code, origin, s, 0, fuel) != OutOfFuel ==> Run(sem, Copy(body), origin, s, 0, fuel) != OutOfFuel
  {
    var plain, n := Copy(body), q + |before|;
    Entered(sem, code, body, q, before, restore, at, s, origin, st', fuel);
    if fuel > n {
      Lockstep(sem, code, body, q, before, restore, at, slots, s.env.regs, origin, q, s, st', fuel - n);
      if Run(sem, plain, origin, s, q, fuel - n) != OutOfFuel {
        MoreFuel(sem, plain, origin, s, q, fuel - n, fuel - q);
      }
    }
  }

  /** `r` is how the run ends. */
  ghost predicate Ends(sem: Sem, code: seq<Out>, origin: nat, st: State, r: Result) {
    r != OutOfFuel && exists fuel: nat :: Run(sem, code, origin, st, 0, fuel) == r
  }

  /** Each of two runs ends when the other does, and in a matching way. */
  ghost predicate SameEnds(sem: Sem, plain: seq<Out>, code: seq<Out>, origin: nat, s: State, slots: seq<Slot>) {
    && (forall r {:trigger EndsLike(sem, code, origin, s, slots, r)} | Ends(sem, plain, origin, s, r) ::
          EndsLike(sem, code, origin, s, slots, r))
    && (forall r {:trigger EndsBefore(sem, plain, origin, s, slots, r)} | Ends(sem, code, origin, s, r) ::
          EndsBefore(sem, plain, origin, s, slots, r))
  }

  /** The guarded run ends in a way that matches the original's end `r`. */
  ghost predicate EndsLike(sem: Sem, code: seq<Out>, origin: nat, s: State, slots: seq<Slot>, r: Result) {
    exists r' :: Ends(sem, code, origin, s, r') && Matches(r, r', slots, s.env.regs)
  }

  /** The original ends in a way that the guarded run's end `r` matches. */
  ghost predicate EndsBefore(sem: Sem, plain: seq<Out>, origin: nat, s: State, slots: seq<Slot>, r: Result) {
    exists r0 :: Ends(sem, plain, origin, s, r0) && Matches(r0, r, slots, s.env.regs)
  }

  lemma {:induction false} AlikeEnds(sem: Sem, plain: seq<Out>, code: seq<Out>, origin: nat, s: State, slots: seq<Slot>,
                                     extra: nat)
    requires forall fuel: nat :: Alike(sem, plain, code, origin, slots, s.env.regs, extra, s, 0, s, 0, fuel)
    ensures SameEnds(sem, plain, code, origin, s, slots)
  {
    forall r | Ends(sem, plain, origin, s, r)
      ensures EndsLike(sem, code, origin, s, slots, r)
    {
      var fuel: nat :| Run(sem, plain, origin, s, 0, fuel) == r;
      assert Alike(sem, plain, code, origin, slots, s.env.regs, extra, s, 0, s, 0, fuel);
      var r' := Run(sem, code, origin, s, 0, fuel + extra);
      assert Ends(sem, code, origin, s, r');
    }
    forall r' | Ends(sem, code, origin, s, r')
      ensures EndsBefore(sem, plain, origin, s, slots, r')
    {
      var fuel: nat :| Run(sem, code, origin, s, 0, fuel) == r';
      assert Alike(sem, plain, code, origin, slots, s.env.regs, extra, s, 0, s, 0, fuel);
      var r := Run(sem, plain, origin, s, 0, fuel);
      assert Ends(sem, plain, origin, s, r);
      MoreFuel(sem, code, origin, s, 0, fuel, fuel + extra);
    }
  }

  lemma {:induction false} BodyEnds(sem: Sem, code: seq<Out>, body: seq<Line>, q: nat, before: seq<Guard>,
                                    restore: seq<Guard>, at: seq<nat>, slots: seq<Slot>, s: State, origin: nat,
                                    st': State)
    requires Mirrors(code, body, q, before, restore, at) && Clean(sem, body)
    requires ExecAll(before, s, origin) == Some(st') && InStep(slots, s.env.regs, origin, s, st')
    requires Restores(restore, slots, s.env.regs, origin)
    ensures SameEnds(sem, Copy(body), code, origin, s, slots)
  {
    var plain, extra := Copy(body), |before| + |restore|;
    forall fuel: nat
      ensures Alike(sem, plain, code, origin, slots, s.env.regs, extra, s, 0, s, 0, fuel)
    {
      BodyForward(sem, code, body, q, before, restore, at, slots, s, origin, st', fuel);
      BodyBackward(sem, code, body, q, before, restore, at, slots, s, origin, st', fuel);
    }
    AlikeEnds(sem, plain, code, origin, s, slots, extra);
  }

  /** The guarded function ends exactly when the original does, and the same way. */
  lemma {:induction false} GuardKeepsMeaning(sem: Sem, f: seq<Line>, b: nat, s: State, origin: nat)
    requires BraceFrom(f, 1) == Some(b) && Clean(sem, f[b + 1..])
    requires |s.area| == AreaSize(8 * |AllSlots(f)|) && origin + |s.area| <= ADDRESS_SPACE
    ensures b + 1 <= |Guarded(f)|
    ensures SameEnds(sem, Copy(f[b + 1..]), Guarded(f)[b + 1..], origin, s, AllSlots(f))
  {
    var q, at := GuardedBody(f, b);
    var st' := Prepared(f, s, origin);
    BodyEnds(sem, Guarded(f)[b + 1..], f[b + 1..], q, Before(f), AtReturn(f), at, AllSlots(f), s, origin, st');
  }

  lemma {:induction false} Prepared(f: seq<Line>, s: State, origin: nat) returns (st': State)
    requires |s.area| == AreaSize(8 * |AllSlots(f)|) && origin + |s.area| <= ADDRESS_SPACE
    ensures ExecAll(Before(f), s, origin) == Some(st') && InStep(AllSlots(f), s.env.regs, origin, s, st')
    ensures Restores(AtReturn(f), AllSlots(f), s.env.regs, origin)
  {
    SlotsHaveRoom(f, s.area, origin);
    st' := BeforeRuns(f, s, origin);
    AtReturnRestores(f, s.env.regs, origin);
  }

  /** A guarded register comes back exactly when its entry value fits the width it was saved with; memory
      and all other registers are as the original leaves them. */
  lemma {:induction false} RegistersBack(slots: seq<Slot>, entry: Regs, st: State, st': State, r: string)
    requires AllGood(slots) && Matches(Halted(st), Halted(st'), slots, entry) && !Scratch(r)
    ensures st'.env.mem == st.env.mem
    ensures match First(slots, |slots|, r)
            case None => Get(st'.env.regs, r) == Get(st.env.regs, r)
            case Some(k) => Get(st'.env.regs, r) == Get(entry, r) <==> Get(entry, r) < Pow256(Width(slots[k].modifier))
  {
    assert Get(st'.env.regs, r) == Restored(slots, |slots|, entry, st.env.regs, r);
    match First(slots, |slots|, r)
    case None =>
    case Some(k) => ModSame(Get(entry, r), Pow256(Width(slots[k].modifier)));
  }

  lemma {:induction false} ModSame(v: nat, m: nat)
    requires m > 0
    ensures v % m == v <==> v < m
  {
  }
}
