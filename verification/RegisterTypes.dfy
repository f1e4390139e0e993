/** The register types of PTX and the guard: which declarations it saves, and that a register of every type
    but the 128-bit one has its entry value again when the guarded function returns. */
module RegisterTypes {
  import opened Common
  import opened Bytes
  import opened Decimal
  import opened RegisterGuard
  import opened GuardMachine

  /** The bits of a register of each type the guard knows. */
  const BITS: map<string, nat> := map[
    ".b8" := 8, ".s8" := 8, ".u8" := 8,
    ".b16" := 16, ".s16" := 16, ".u16" := 16, ".f16" := 16,
    ".b32" := 32, ".s32" := 32, ".u32" := 32, ".f32" := 32,
    ".b64" := 64, ".s64" := 64, ".u64" := 64, ".f64" := 64,
    ".f64x2" := 128]

  /** One more than the largest value of that many bits. */
  const LIMIT: map<nat, nat> := map[
    8 := 0x100, 16 := 0x1_0000, 32 := 0x1_0000_0000, 64 := 0x1_0000_0000_0000_0000,
    128 := 0x1_0000_0000_0000_0000_0000_0000_0000_0000]

  /** The registers the guard leaves alone whatever their type: the stack pointers and its own two. */
  const RESERVED: set<string> := {"%SP", "%SPL", "%rd_ptx_instr_base", "%rd_ptx_instr_addr"}

  /** A declaration is skipped exactly for another type, predicates among them, or a reserved name. */
  lemma {:induction false} SkippedIff(d: Line)
    requires d.RegDecl?
    ensures Skipped(d) <==> d.ty !in BITS || d.base in RESERVED
  {
  }

  /** The declaration's registers: the base itself, or the base numbered from zero. */
  ghost predicate Declares(d: Line, name: string)
    requires d.RegDecl?
  {
    if d.count == None || d.count.value > 0x7fff_ffff then name == d.base
    else exists k: nat :: k < d.count.value && name == d.base + Numeral(k)
  }

  ghost predicate Saves(d: Line) {
    d.RegDecl? && d.ty in BITS && d.base !in RESERVED
  }

  /** Line `i` declares the register, and no other guarded line its name or its base. */
  ghost predicate DeclaredOnce(f: seq<Line>, i: nat, name: string) {
    && i < |f| && Saves(f[i]) && Declares(f[i], name)
    && forall j | 0 <= j < |f| && j != i && Saves(f[j]) :: f[j].base != f[i].base && !Declares(f[j], name)
  }

  lemma {:induction false} NamesAre(d: Line, name: string)
    requires d.RegDecl?
    ensures name in Names(d) <==> Declares(d, name)
  {
    if d.count.Some? && d.count.value <= 0x7fff_ffff {
      var n := d.count.value;
      assert |Names(d)| == n && forall k | 0 <= k < n :: Names(d)[k] == d.base + Numeral(k);
      if name in Names(d) {
        var k :| 0 <= k < |Names(d)| && Names(d)[k] == name;
      }
      if Declares(d, name) {
        var k: nat :| k < n && name == d.base + Numeral(k);
        assert Names(d)[k] == name;
      }
    }
  }

  /** How many bytes the guard keeps of a register of this type. */
  lemma {:induction false} KeptLimit(ty: string)
    requires ty in BITS
    ensures Width(Describe(RegDecl(ty, "", None)).modifier) > 0
    ensures Pow256(Width(Describe(RegDecl(ty, "", None)).modifier))
         == if ty == ".f64x2" then 0x1_0000_0000_0000_0000 else LIMIT[BITS[ty]]
  {
    Powers();
  }

  /** The collected entry of a declaration whose base no other guarded line has. */
  lemma {:induction false} OnlyEntry(f: seq<Line>, n: nat, i: nat, name: string) returns (e: nat)
    requires i < n <= |f| && DeclaredOnce(f, i, name)
    ensures e < |Collected(f, n)| && Collected(f, n)[e] == Describe(f[i])
    decreases n
  {
    if i < n - 1 {
      e := OnlyEntry(f, n - 1, i, name);
    } else {
      var regs := Collected(f, i);
      e := |regs|;
      SkippedIff(f[i]);
      forall k | 0 <= k < |regs|
        ensures !Clashes(regs[k], f[i])
      {
        var j := EntryHasDeclaration(f, i, k);
        SkippedIff(f[j]);
      }
    }
  }

  /** The register is saved, and its first slot has its declaration's width. */
  lemma {:induction false} FirstSlot(f: seq<Line>, i: nat, name: string) returns (k: nat)
    requires DeclaredOnce(f, i, name)
    ensures First(AllSlots(f), |AllSlots(f)|, name) == Some(k)
    ensures k < |AllSlots(f)| && AllSlots(f)[k] == Slot(name, Describe(f[i]).modifier)
  {
    var regs, slots := Collected(f, |f|), AllSlots(f);
    NamesAre(f[i], name);
    var c :| 0 <= c < |Names(f[i])| && Names(f[i])[c] == name;
    var e := OnlyEntry(f, |f|, i, name);
    SlotAt(regs, e, c);
    assert slots[|Slots(regs, e)| + c].name == name;
    var first := First(slots, |slots|, name);
    k := first.value;
    var e', c' := SlotHasEntry(regs, |regs|, k);
    var j := EntryHasDeclaration(f, |f|, e');
    SkippedIff(f[j]);
    NamesAre(f[j], name);
    assert name == Names(f[j])[c'];
  }

  /** When guarded code that ends as the original does returns, the register has its entry value exactly if
      that value fits: always for a value of the type, except that of `.f64x2` only 64 bits are kept. */
  lemma {:induction false} TypedRegisterBack(sem: Sem, f: seq<Line>, plain: seq<Out>, code: seq<Out>, i: nat,
                                             name: string, s: State, origin: nat, last: State)
    requires DeclaredOnce(f, i, name) && SameEnds(sem, plain, code, origin, s, AllSlots(f))
    requires Ends(sem, code, origin, s, Halted(last))
    ensures var limit := if f[i].ty == ".f64x2" then 0x1_0000_0000_0000_0000 else LIMIT[BITS[f[i].ty]];
            Get(last.env.regs, name) == Get(s.env.regs, name) <==> Get(s.env.regs, name) < limit
  {
    var st := MatchingEnd(sem, plain, code, origin, s, AllSlots(f), last);
    RestoredTyped(f, i, name, s.env.regs, st, last);
  }

  lemma {:induction false} MatchingEnd(sem: Sem, plain: seq<Out>, code: seq<Out>, origin: nat, s: State,
                                       slots: seq<Slot>, last: State) returns (st: State)
    requires SameEnds(sem, plain, code, origin, s, slots) && Ends(sem, code, origin, s, Halted(last))
    ensures Matches(Halted(st), Halted(last), slots, s.env.regs)
  {
    assert EndsBefore(sem, plain, origin, s, slots, Halted(last));
    var r :| Ends(sem, plain, origin, s, r) && Matches(r, Halted(last), slots, s.env.regs);
    st := r.st;
  }

  lemma {:induction false} RestoredTyped(f: seq<Line>, i: nat, name: string, entry: Regs, st: State, last: State)
    requires DeclaredOnce(f, i, name) && Matches(Halted(st), Halted(last), AllSlots(f), entry)
    ensures var limit := if f[i].ty == ".f64x2" then 0x1_0000_0000_0000_0000 else LIMIT[BITS[f[i].ty]];
            Get(last.env.regs, name) == Get(entry, name) <==> Get(entry, name) < limit
  {
    var k := FirstSlot(f, i, name);
    KeptLimit(f[i].ty);
    SlotsAreGood(f, |f|);
    assert Good(AllSlots(f)[k]);
    RegistersBack(AllSlots(f), entry, st, last, name);
  }

  /** A guarded function with unconditional returns gives back every value of every declared register, of
      whatever type but `.f64x2`. */
  lemma {:induction false} EveryTypeIsKept(sem: Sem, f: seq<Line>, b: nat, i: nat, name: string, s: State, origin: nat,
                                           last: State)
    requires BraceFrom(f, 1) == Some(b) && Clean(sem, f[b + 1..]) && DeclaredOnce(f, i, name)
    requires |s.area| == AreaSize(8 * |AllSlots(f)|) && origin + |s.area| <= ADDRESS_SPACE && b + 1 <= |Guarded(f)|
    requires Ends(sem, Guarded(f)[b + 1..], origin, s, Halted(last))
    requires f[i].ty != ".f64x2" && Get(s.env.regs, name) < LIMIT[BITS[f[i].ty]]
    ensures Get(last.env.regs, name) == Get(s.env.regs, name)
  {
    GuardKeepsMeaning(sem, f, b, s, origin);
    TypedRegisterBack(sem, f, Copy(f[b + 1..]), Guarded(f)[b + 1..], i, name, s, origin, last);
  }

  // ----- declarations that share a base name -----

  /** Line `i` is collected: no line collected before it has its base name and, with it, a count or none; a
      count of one or zero is taken for none. */
  ghost predicate Collects(f: seq<Line>, i: nat) {
    && i < |f| && Saves(f[i])
    && forall j | 0 <= j < i && Collects(f, j) && f[j].base == f[i].base :: (CountOf(f[j]) > 1) != f[i].count.Some?
  }

  function CountOf(d: Line): nat
    requires d.RegDecl?
  {
    if d.count == None || d.count.value > 0x7fff_ffff then 1 else d.count.value
  }

  /** The lines collected among the first `n`, each with its entry. */
  ghost predicate EntriesOf(f: seq<Line>, n: nat, regs: seq<RegInfo>) {
    && (forall i | 0 <= i < n && Collects(f, i) :: Describe(f[i]) in regs)
    && (forall r | r in regs :: FromLine(f, n, r))
  }

  ghost predicate FromLine(f: seq<Line>, n: nat, r: RegInfo) {
    exists i: nat :: i < n && Collects(f, i) && r == Describe(f[i])
  }

  lemma {:induction false} CollectedAre(f: seq<Line>, n: nat)
    requires n <= |f|
    ensures EntriesOf(f, n, Collected(f, n))
  {
    if n > 0 {
      CollectedAre(f, n - 1);
      KeptIff(f, n - 1);
      CollectedMore(f, n);
    }
  }

  lemma {:induction false} CollectedMore(f: seq<Line>, n: nat)
    requires 0 < n <= |f| && EntriesOf(f, n - 1, Collected(f, n - 1))
    requires Kept(Collected(f, n - 1), f[n - 1]) <==> Collects(f, n - 1)
    ensures forall r | r in Collected(f, n) :: FromLine(f, n, r)
  {
    forall r | r in Collected(f, n)
      ensures FromLine(f, n, r)
    {
      if r in Collected(f, n - 1) {
        assert FromLine(f, n - 1, r);
        var i: nat :| i < n - 1 && Collects(f, i) && r == Describe(f[i]);
      } else {
        assert Collects(f, n - 1) && r == Describe(f[n - 1]);
      }
    }
  }

  lemma {:induction false} KeptIff(f: seq<Line>, i: nat)
    requires i < |f| && EntriesOf(f, i, Collected(f, i))
    ensures Kept(Collected(f, i), f[i]) <==> Collects(f, i)
  {
    var regs := Collected(f, i);
    if f[i].RegDecl? {
      SkippedIff(f[i]);
    }
    if Kept(regs, f[i]) {
      forall j | 0 <= j < i && Collects(f, j) && f[j].base == f[i].base
        ensures (CountOf(f[j]) > 1) != f[i].count.Some?
      {
        assert Describe(f[j]) in regs;
      }
    }
    if Collects(f, i) {
      forall e | 0 <= e < |regs|
        ensures !Clashes(regs[e], f[i])
      {
        assert FromLine(f, i, regs[e]);
      }
    }
  }

  /** A register is saved if and only if a collected line declares it. */
  lemma {:induction false} SavedIff(f: seq<Line>, name: string)
    ensures IsSaved(f, name) <==> exists i :: 0 <= i < |f| && Collects(f, i) && Declares(f[i], name)
  {
    var regs, slots := Collected(f, |f|), AllSlots(f);
    CollectedAre(f, |f|);
    if IsSaved(f, name) {
      var k :| 0 <= k < |slots| && slots[k].name == name;
      var e, c := SlotHasEntry(regs, |regs|, k);
      assert FromLine(f, |f|, regs[e]);
      var i: nat :| i < |f| && Collects(f, i) && regs[e] == Describe(f[i]);
      NamesAre(f[i], name);
      assert Names(f[i])[c] == name;
    }
    if i :| 0 <= i < |f| && Collects(f, i) && Declares(f[i], name) {
      NamesAre(f[i], name);
      assert Describe(f[i]) in regs;
      var e :| 0 <= e < |regs| && regs[e] == Describe(f[i]);
      var c :| 0 <= c < |Names(f[i])| && Names(f[i])[c] == name;
      SlotAt(regs, e, c);
      assert slots[|Slots(regs, e)| + c].name == name;
    }
  }

  /** Two different registers, `%r0` and `%r`: the second is not saved. */
  function Neighbours(): seq<Line> {
    [FuncHeader("f"), OpenBrace, RegDecl(".b32", "%r", Some(1)), RegDecl(".b64", "%r", None), Ret(None), CloseBrace]
  }

  lemma {:induction false} NeighbourIsLost()
    ensures Declares(Neighbours()[3], "%r") && !Declares(Neighbours()[2], "%r")
    ensures !IsSaved(Neighbours(), "%r")
  {
    var f := Neighbours();
    assert |("%r" + Numeral(0))| > |"%r"|;
    assert Collects(f, 2);
    assert !Collects(f, 3);
    SavedIff(f, "%r");
  }
}
