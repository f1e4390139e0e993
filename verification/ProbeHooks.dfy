/** Where the probe's calls are in a patched kernel, said of the lexemes alone. */
module ProbeHooks {
  import opened Common
  import opened ProbeSplice
  import opened KernelPieces

  /** An opening brace that a declaration follows, with or without white space between. */
  predicate OnDeclaration(s: seq<Tok>, i: nat) {
    && i + 1 < |s| && s[i] == Open
    && (s[i + 1] == Reg || s[i + 1] == Shared
        || (s[i + 1].Space? && i + 2 < |s| && (s[i + 2] == Reg || s[i + 2] == Shared)))
  }

  /** White space that `ret;` follows. */
  predicate BeforeReturn(s: seq<Tok>, i: nat) {
    i + 1 < |s| && s[i].Space? && s[i + 1] == Ret
  }

  predicate HookAt(isRet: bool, s: seq<Tok>, i: nat) {
    if isRet then BeforeReturn(s, i) else OnDeclaration(s, i)
  }

  /** What stands behind a hooked lexeme and in front of its old successor. */
  predicate CallBehind(func: string, isRet: bool, r: seq<Tok>, x: Tok, from: nat, to: nat)
    requires from < to <= |r|
  {
    if isRet then x.Space? && r[from + 1..to] == [Call(func), Space("\n" + x.text)]
    else r[from + 1..to] == [Space("\n    "), Call(func), Space("\n")]
  }

  /** `r` is `s` with a call behind each hooked lexeme and nothing else added: lexeme `i` is at `at[i]`. */
  ghost predicate Hooked(func: string, isRet: bool, s: seq<Tok>, r: seq<Tok>, at: seq<nat>) {
    && |at| == |s| && (if s == [] then r == [] else at[0] == 0 && |r| == at[|s| - 1] + 1)
    && forall i: nat | i < |s| :: Placed(func, isRet, s, r, at, i)
  }

  /** Lexeme `i` is at `at[i]`, with a call behind it if it is hooked and its successor just behind it if not. */
  ghost predicate Placed(func: string, isRet: bool, s: seq<Tok>, r: seq<Tok>, at: seq<nat>, i: nat)
    requires |at| == |s| && i < |s|
  {
    at[i] < |r| && r[at[i]] == s[i] && (i + 1 < |s| ==> Gap(func, isRet, s, r, i, at[i], at[i + 1]))
  }

  /** Lexeme `i` is at `from` and its successor at `to`. */
  ghost predicate Gap(func: string, isRet: bool, s: seq<Tok>, r: seq<Tok>, i: nat, from: nat, to: nat)
    requires i < |s|
  {
    if HookAt(isRet, s, i) then from < to <= |r| && CallBehind(func, isRet, r, s[i], from, to) else to == from + 1
  }

  lemma {:induction false} InsertedIs(pr: Probe, s: seq<Tok>, i: nat)
    requires i + 1 < |s|
    ensures Inserted(pr, s, i + 1)
         == if !HookAt(pr.isRet, s, i) then []
            else if pr.isRet then [Call(pr.func), Space("\n" + s[i].text)]
            else [Space("\n    "), Call(pr.func), Space("\n")]
  {
  }

  /** The edit puts the probe's call behind every brace on a declaration, or in front of every return after
      white space, and changes nothing else. */
  lemma {:induction false} EditHooksExactly(pr: Probe, s: seq<Tok>) returns (at: seq<nat>)
    ensures Hooked(pr.func, pr.isRet, s, Edit(pr, s, 0, |s|), at)
  {
    at := seq(|s|, i requires 0 <= i < |s| => Moved(pr, s, i));
    forall i: nat | i < |s|
      ensures Placed(pr.func, pr.isRet, s, Edit(pr, s, 0, |s|), at, i)
    {
      EditPlaces(pr, s, at, i);
    }
    EditEnds(pr, s);
  }

  lemma {:induction false} EditPlaces(pr: Probe, s: seq<Tok>, at: seq<nat>, i: nat)
    requires |at| == |s| && i < |s| && at[i] == Moved(pr, s, i) && (i + 1 < |s| ==> at[i + 1] == Moved(pr, s, i + 1))
    ensures Placed(pr.func, pr.isRet, s, Edit(pr, s, 0, |s|), at, i)
  {
    EditKeepsLexemes(pr, s, i);
    if i + 1 < |s| {
      EditGap(pr, s, i);
    }
  }

  lemma {:induction false} EditGap(pr: Probe, s: seq<Tok>, i: nat)
    requires i + 1 < |s|
    ensures Gap(pr.func, pr.isRet, s, Edit(pr, s, 0, |s|), i, Moved(pr, s, i), Moved(pr, s, i + 1))
  {
    EditKeepsLexemes(pr, s, i);
    EditKeepsLexemes(pr, s, i + 1);
    InsertedIs(pr, s, i);
    GapOf(pr, s, Edit(pr, s, 0, |s|), i, Inserted(pr, s, i + 1), Moved(pr, s, i), Moved(pr, s, i + 1));
  }

  lemma {:induction false} GapOf(pr: Probe, s: seq<Tok>, r: seq<Tok>, i: nat, ins: seq<Tok>, from: nat, to: nat)
    requires i + 1 < |s| && to == from + 1 + |ins| < |r| && r[from + 1..to] == ins
    requires ins == if !HookAt(pr.isRet, s, i) then []
                    else if pr.isRet then [Call(pr.func), Space("\n" + s[i].text)]
                    else [Space("\n    "), Call(pr.func), Space("\n")]
    ensures Gap(pr.func, pr.isRet, s, r, i, from, to)
  {
  }

  lemma {:induction false} EditEnds(pr: Probe, s: seq<Tok>)
    ensures if s == [] then Edit(pr, s, 0, |s|) == []
            else Moved(pr, s, 0) == 0 && |Edit(pr, s, 0, |s|)| == Moved(pr, s, |s| - 1) + 1
  {
    if s != [] {
      assert Edit(pr, s, 0, 0) == [];
    }
  }

  // ----- how many calls -----

  /** The hooked lexemes among the first `n`. */
  function Hooks(isRet: bool, s: seq<Tok>, n: nat): nat {
    if n == 0 then 0 else Hooks(isRet, s, n - 1) + (if HookAt(isRet, s, n - 1) then 1 else 0)
  }

  function Count(s: seq<Tok>, c: Tok): nat {
    if s == [] then 0 else Count(s[1..], c) + (if s[0] == c then 1 else 0)
  }

  lemma {:induction false} CountConcat(a: seq<Tok>, b: seq<Tok>, c: Tok)
    ensures Count(a + b, c) == Count(a, c) + Count(b, c)
  {
    if a == [] {
      assert a + b == b;
    } else {
      assert (a + b)[1..] == a[1..] + b;
      CountConcat(a[1..], b, c);
    }
  }

  lemma {:induction false} CountOne(x: Tok, c: Tok)
    ensures Count([x], c) == if x == c then 1 else 0
  {
    assert [x][1..] == [];
  }

  lemma {:induction false} InsertedCalls(pr: Probe, s: seq<Tok>, i: nat)
    requires i + 1 < |s|
    ensures Count(Inserted(pr, s, i + 1), Call(pr.func)) == if HookAt(pr.isRet, s, i) then 1 else 0
  {
    InsertedIs(pr, s, i);
    if HookAt(pr.isRet, s, i) {
      var ins, c := Inserted(pr, s, i + 1), Call(pr.func);
      CountConcat(ins[..1], ins[1..], c);
      CountConcat(ins[1..][..1], ins[1..][1..], c);
      assert ins == ins[..1] + ins[1..] && ins[1..] == ins[1..][..1] + ins[1..][1..];
      CountOne(ins[0], c);
      CountOne(ins[1], c);
      CountOne(ins[|ins| - 1], c);
    }
  }

  lemma {:induction false} CallsUpTo(pr: Probe, s: seq<Tok>, n: nat)
    requires 0 < n <= |s|
    ensures Count(Edit(pr, s, 0, n), Call(pr.func)) == Count(s[..n], Call(pr.func)) + Hooks(pr.isRet, s, n - 1)
  {
    var x, c, ins := s[n - 1], Call(pr.func), Inserted(pr, s, n - 1);
    CountConcat(Edit(pr, s, 0, n - 1), ins + [x], c);
    CountConcat(ins, [x], c);
    CountConcat(s[..n - 1], [x], c);
    assert s[..n] == s[..n - 1] + [x];
    if n > 1 {
      CallsUpTo(pr, s, n - 1);
      InsertedCalls(pr, s, n - 2);
    }
  }

  /** The edit adds as many calls of the probe as there are lexemes to hook. */
  lemma {:induction false} CallsAdded(pr: Probe, s: seq<Tok>)
    ensures Count(Edit(pr, s, 0, |s|), Call(pr.func)) == Count(s, Call(pr.func)) + Hooks(pr.isRet, s, |s|)
  {
    if s != [] {
      assert s[..|s|] == s;
      CallsUpTo(pr, s, |s|);
    }
  }

  // ----- a turn of the patcher -----

  lemma {:induction false} KernelFound(pre: seq<Tok>, k: Piece, post: seq<Tok>, t: seq<Tok>)
    requires SoundKernel(k) && Entry(k.name) !in pre && t == pre + Flat(k) + post
    ensures IsFirst(t, k.name, |pre|) && ScanEnd(t, |pre|, 0) == Some(|pre| + |Flat(k)|)
    ensures t[..|pre|] == pre && SectionAt(t, |pre|, Flat(k), post)
  {
    KernelShape(k);
    BodylessScan(pre, k.name, Flat(k), 0, k, post, t);
  }

  /** A turn on a text whose first kernel of the target's name is `k`: the compiled probe comes in front, every
      place of `k` that the probe's kind hooks gets a call of the function compiled for that target, and all
      else is as it was. */
  lemma {:induction false} TurnCallsProbe(pre: seq<Tok>, k: Piece, post: seq<Tok>, isRet: bool,
                                          compile: Probe -> seq<Tok>, t: seq<Tok>, t': seq<Tok>)
      returns (r: seq<Tok>, at: seq<nat>)
    requires SoundKernel(k) && Entry(k.name) !in pre && t == pre + Flat(k) + post
    requires Turn(t, k.name, isRet, compile, t')
    ensures var func := (if isRet then "__retprobe_func__" else "__probe_func__") + k.name;
            && t' == compile(Probe(func, isRet)) + [Space("\n")] + pre + r + post
            && Hooked(func, isRet, Flat(k), r, at)
  {
    var pr := ProbeFor(k.name, isRet);
    r := Edit(pr, Flat(k), 0, |Flat(k)|);
    at := EditHooksExactly(pr, Flat(k));
    KernelFound(pre, k, post, t);
    SplicedText(t, k.name, pr, compile(pr), t', pre, Flat(k), post);
  }
}
