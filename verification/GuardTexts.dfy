/** What the register guard does to a text as a whole: every closed function is guarded where it stands, and
    what it declares for itself. */
module GuardTexts {
  import opened Common
  import opened RegisterGuard

  /** A header, its opening brace somewhere after it, and a closing brace, the first after that, as last line. */
  ghost predicate IsFunction(f: seq<Line>, o: nat) {
    && 0 < o < |f| - 1 && f[0].FuncHeader? && f[o].OpenBrace? && f[|f| - 1].CloseBrace?
    && (forall k | 0 < k < o :: !f[k].OpenBrace?)
    && (forall k | o < k < |f| - 1 :: !f[k].CloseBrace?)
  }

  lemma {:induction false} NextBraceIs(ls: seq<Line>, i: nat, j: nat, open: bool)
    requires i <= j < |ls| && (if open then ls[j].OpenBrace? else ls[j].CloseBrace?)
    requires forall k | i <= k < j :: !(if open then ls[k].OpenBrace? else ls[k].CloseBrace?)
    ensures NextBrace(ls, i, open) == Some(j)
    decreases j - i
  {
    if i < j {
      NextBraceIs(ls, i + 1, j, open);
    }
  }

  lemma {:induction false} NoNextBrace(ls: seq<Line>, i: nat, open: bool)
    requires forall k | i <= k < |ls| :: !(if open then ls[k].OpenBrace? else ls[k].CloseBrace?)
    ensures NextBrace(ls, i, open) == None
    decreases |ls| - i
  {
    if i < |ls| {
      NoNextBrace(ls, i + 1, open);
    }
  }

  /** A closed function at the head of a text is guarded, and the pass goes on behind it. */
  lemma {:induction false} FunctionIsGuarded(f: seq<Line>, o: nat, rest: seq<Line>)
    requires IsFunction(f, o)
    ensures GuardAll(f + rest) == Guarded(f) + GuardAll(rest)
  {
    var ls := f + rest;
    assert forall k | 0 <= k < |f| :: ls[k] == f[k];
    NextBraceIs(ls, 1, o, true);
    NextBraceIs(ls, o + 1, |f| - 1, false);
    GuardAllOne(ls, |f|);
    assert ls[..|f|] == f && ls[|f|..] == rest;
  }

  /** A line outside functions is copied. */
  lemma {:induction false} OtherLineIsCopied(l: Line, rest: seq<Line>)
    requires !l.FuncHeader?
    ensures GuardAll([l] + rest) == [Orig(l)] + GuardAll(rest)
  {
    assert ([l] + rest)[1..] == rest;
  }

  /** A header without an opening brace after it, or whose body is not closed, is copied with all that follows. */
  lemma {:induction false} OpenFunctionIsCopied(ls: seq<Line>, o: nat)
    requires ls != [] && ls[0].FuncHeader? && 0 < o <= |ls| && (o < |ls| ==> ls[o].OpenBrace?)
    requires forall k | 0 < k < o :: !ls[k].OpenBrace?
    requires forall k | o < k < |ls| :: !ls[k].CloseBrace?
    ensures GuardAll(ls) == Copy(ls)
  {
    if o == |ls| {
      NoNextBrace(ls, 1, true);
    } else {
      NextBraceIs(ls, 1, o, true);
      NoNextBrace(ls, o + 1, false);
    }
  }

  /** A text of whole functions and other lines. */
  datatype Stretch = Other(line: Line) | Function(lines: seq<Line>, brace: nat)

  ghost predicate Proper(x: Stretch) {
    match x
    case Other(l) => !l.FuncHeader?
    case Function(f, o) => IsFunction(f, o)
  }

  function LinesOf(x: Stretch): seq<Line> {
    match x
    case Other(l) => [l]
    case Function(f, _) => f
  }

  function TextOf(xs: seq<Stretch>): seq<Line> {
    if xs == [] then [] else LinesOf(xs[0]) + TextOf(xs[1..])
  }

  /** Functions guarded, other lines as they are. */
  function GuardedOf(xs: seq<Stretch>): seq<Out> {
    if xs == [] then []
    else (match xs[0] case Other(l) => [Orig(l)] case Function(f, _) => Guarded(f)) + GuardedOf(xs[1..])
  }

  /** In every text of whole functions and other lines, exactly the functions are guarded. */
  lemma {:induction false} EveryFunctionIsGuarded(xs: seq<Stretch>)
    requires forall x | x in xs :: Proper(x)
    ensures GuardAll(TextOf(xs)) == GuardedOf(xs)
  {
    if xs != [] {
      EveryFunctionIsGuarded(xs[1..]);
      assert Proper(xs[0]);
      match xs[0]
      case Other(l) => OtherLineIsCopied(l, TextOf(xs[1..]));
      case Function(f, o) => FunctionIsGuarded(f, o, TextOf(xs[1..]));
    }
  }

  /** What a guarded function declares: the save area of eight bytes a slot, and at least eight, and the two
      scratch registers; nothing when it has no register to guard. */
  lemma {:induction false} GuardDeclares(f: seq<Line>)
    ensures Collected(f, |f|) == [] ==> Before(f) == [] && AtReturn(f) == []
    ensures Collected(f, |f|) != [] ==>
              && |Before(f)| >= 3
              && Before(f)[0] == DeclArea(if AllSlots(f) == [] then 8 else 8 * |AllSlots(f)|)
              && Before(f)[1] == DeclScratch("%rd_ptx_instr_base")
              && Before(f)[2] == DeclScratch("%rd_ptx_instr_addr")
  {
  }

  // ----- where the blocks go -----

  /** A comment, an empty line, or a register or local declaration. */
  predicate Declaration(l: Line) {
    l.Blank? || l.RegDecl? || l.LocalDecl?
  }

  /** Only declarations between the header and the brace at `b`, and between the brace and line `p`, which is none. */
  ghost predicate InsertsAt(f: seq<Line>, b: nat, p: nat) {
    && 0 < b < p <= |f| && f[b].OpenBrace? && (p < |f| ==> !Declaration(f[p]))
    && (forall k | 0 < k < b :: Declaration(f[k])) && (forall k | b < k < p :: Declaration(f[k]))
  }

  lemma {:induction false} BraceIs(f: seq<Line>, i: nat, b: nat)
    requires i <= b < |f| && f[b].OpenBrace? && forall k | i <= k < b :: Declaration(f[k])
    ensures BraceFrom(f, i) == Some(b)
    decreases b - i
  {
    if i < b {
      BraceIs(f, i + 1, b);
    }
  }

  lemma {:induction false} LeadEndIs(f: seq<Line>, i: nat, p: nat)
    requires i <= p <= |f| && (p < |f| ==> !Declaration(f[p])) && forall k | i <= k < p :: Declaration(f[k])
    ensures LeadEnd(f, i) == p
    decreases p - i
  {
    if i < p {
      LeadEndIs(f, i + 1, p);
    }
  }

  /** Every return of the lines, with the block in front of it. */
  function Returning(ls: seq<Line>, restore: seq<Guard>): seq<Out> {
    if ls == [] then []
    else (if ls[0].Ret? then Block(restore) else []) + ([Orig(ls[0])] + Returning(ls[1..], restore))
  }

  lemma {:induction false} ReturningSnoc(ls: seq<Line>, l: Line, restore: seq<Guard>)
    ensures Returning(ls + [l], restore)
         == Returning(ls, restore) + ((if l.Ret? then Block(restore) else []) + [Orig(l)])
    decreases |ls|
  {
    if ls == [] {
      assert ls + [l] == [l] && [l][1..] == [];
    } else {
      assert (ls + [l])[1..] == ls[1..] + [l];
      ReturningSnoc(ls[1..], l, restore);
    }
  }

  lemma {:induction false} RestoringIs(ls: seq<Line>, restore: seq<Guard>, n: nat)
    requires n <= |ls|
    ensures Restoring(ls, restore, n) == Returning(ls[..n], restore)
  {
    if n > 0 {
      RestoringIs(ls, restore, n - 1);
      ReturningSnoc(ls[..n - 1], ls[n - 1], restore);
      assert ls[..n] == ls[..n - 1] + [ls[n - 1]];
    }
  }

  /** The guarded function: its declarations as they were, the inserted block, and the rest with the restore block
      in front of every return. */
  lemma {:induction false} GuardedIs(f: seq<Line>, b: nat, p: nat)
    requires InsertsAt(f, b, p)
    ensures Guarded(f) == Copy(f[..p]) + Block(Before(f)) + Returning(f[p..], AtReturn(f))
  {
    GuardedWithIs(f, b, p, Before(f), AtReturn(f));
  }

  lemma {:induction false} GuardedWithIs(f: seq<Line>, b: nat, p: nat, before: seq<Guard>, restore: seq<Guard>)
    requires InsertsAt(f, b, p)
    ensures GuardedWith(f, before, restore) == Copy(f[..p]) + Block(before) + Returning(f[p..], restore)
  {
    BraceIs(f, 1, b);
    LeadEndIs(f, b + 1, p);
    WithIsShape(f, b, before, restore);
    ShapeIs(f, p, before, restore);
  }

  lemma {:induction false} ShapeIs(f: seq<Line>, p: nat, before: seq<Guard>, restore: seq<Guard>)
    requires p <= |f|
    ensures Shape(f, p, before, restore) == Copy(f[..p]) + Block(before) + Returning(f[p..], restore)
  {
    RestoringIs(f[p..], restore, |f| - p);
    assert f[p..][..|f| - p] == f[p..];
  }
}
