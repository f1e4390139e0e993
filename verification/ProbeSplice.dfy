/** The probe patcher: it finds kernels by their entry headers, finds where each body ends
    by counting braces, and splices calls into the named kernels, once per target, over a
    text that changes under it.  PTX is a string of lexemes; a header with its parameter
    list is one lexeme. */
module ProbeSplice {
  import opened Common

  datatype Tok =
    | Entry(name: string)   // .visible .entry name ( ... )
    | Open | Close
    | Space(text: string)
    | Ret                   // ret;
    | Reg | Shared          // .reg, .shared
    | Call(func: string)    // call func;
    | Other(text: string)

  predicate Brace(x: Tok) {
    x.Open? || x.Close?
  }

  // ----- the brace scan -----

  /** The scan as a function: none when it would run off the text or pop an empty stack. */
  function ScanEnd(t: seq<Tok>, i: nat, depth: nat): Option<nat>
    decreases |t| - i
  {
    if i >= |t| then None
    else if t[i].Open? then ScanEnd(t, i + 1, depth + 1)
    else if t[i].Close? then
      if depth == 0 then None else if depth == 1 then Some(i + 1) else ScanEnd(t, i + 1, depth - 1)
    else ScanEnd(t, i + 1, depth)
  }

  method ScanBody(t: seq<Tok>, begin: nat) returns (end: nat)
    requires ScanEnd(t, begin, 0).Some?
    ensures Some(end) == ScanEnd(t, begin, 0)
  {
    var stack: seq<char> := [];
    end := begin;
    var more := true;
    while more
      invariant more ==> ScanEnd(t, end, |stack|) == ScanEnd(t, begin, 0)
      invariant !more ==> Some(end) == ScanEnd(t, begin, 0)
      decreases more, |t| - end
    {
      while !Brace(t[end])
        invariant end < |t| && ScanEnd(t, end, |stack|) == ScanEnd(t, begin, 0)
        decreases |t| - end
      {
        end := end + 1;
      }
      if t[end].Open? {
        stack := stack + ['{'];
      } else {
        stack := stack[..|stack| - 1];
      }
      end := end + 1;
      more := stack != [];
    }
  }

  /** Open minus close braces in `t[lo..hi]`. */
  function Depth(t: seq<Tok>, lo: nat, hi: nat): int
    requires lo <= hi <= |t|
    decreases hi - lo
  {
    if lo == hi then 0
    else (if t[lo].Open? then 1 else if t[lo].Close? then -1 else 0) + Depth(t, lo + 1, hi)
  }

  ghost predicate NoBraces(t: seq<Tok>, lo: nat, hi: nat)
    requires lo <= hi <= |t|
  {
    forall k | lo <= k < hi :: !Brace(t[k])
  }

  /** Between `b` and `p` either no brace was met yet or one is still open. */
  ghost predicate Inside(t: seq<Tok>, b: nat, depth: nat, p: nat)
    requires b <= p <= |t|
  {
    depth + Depth(t, b, p) > 0 || (depth == 0 && NoBraces(t, b, p))
  }

  /** `e` is just past the brace that closes the first brace after `b`. */
  ghost predicate MatchEnd(t: seq<Tok>, b: nat, depth: nat, e: nat) {
    && b < e <= |t| && t[e - 1].Close? && depth + Depth(t, b, e) == 0
    && forall p | b <= p < e :: Inside(t, b, depth, p)
  }

  /** Moving the start past one lexeme that does not end the search. */
  lemma {:induction false} MatchShift(t: seq<Tok>, b: nat, depth: nat, e: nat, depth': nat)
    requires b < |t|
    requires depth' == depth + (if t[b].Open? then 1 else if t[b].Close? then -1 else 0)
    requires t[b].Close? ==> depth' > 0
    ensures MatchEnd(t, b, depth, e) <==> MatchEnd(t, b + 1, depth', e)
  {
    assert Inside(t, b, depth, b);
    if b < e <= |t| {
      forall p | b < p <= e
        ensures depth + Depth(t, b, p) == depth' + Depth(t, b + 1, p)
        ensures Inside(t, b, depth, p) <==> Inside(t, b + 1, depth', p)
      {
        assert NoBraces(t, b, p) <==> NoBraces(t, b + 1, p) && !Brace(t[b]);
      }
      assert depth + Depth(t, b, e) == depth' + Depth(t, b + 1, e);
      if MatchEnd(t, b, depth, e) {
        var b' := b + 1;
        assert b' < e;
        forall p | b' <= p < e
          ensures Inside(t, b', depth', p)
        {
          assert Inside(t, b, depth, p);
        }
      }
      if MatchEnd(t, b + 1, depth', e) {
        forall p | b <= p < e
          ensures Inside(t, b, depth, p)
        {
          assert p == b || Inside(t, b + 1, depth', p);
        }
      }
    }
  }

  /** The scan stops exactly at the matching brace, and has none exactly when there is none. */
  lemma {:induction false} ScanFindsMatch(t: seq<Tok>, b: nat, depth: nat, e: nat)
    ensures ScanEnd(t, b, depth) == Some(e) <==> MatchEnd(t, b, depth, e)
    decreases |t| - b
  {
    if b < |t| {
      if t[b].Close? && depth <= 1 {
        assert Depth(t, b, b + 1) == -1;
        assert b + 1 < e <= |t| ==> !Inside(t, b, depth, b + 1);
        assert Inside(t, b, depth, b);
      } else {
        var depth' := if t[b].Open? then depth + 1 else if t[b].Close? then depth - 1 else depth;
        MatchShift(t, b, depth, e, depth');
        ScanFindsMatch(t, b + 1, depth', e);
      }
    }
  }

  /** Never more closing than opening braces, and as many in all. */
  ghost predicate Balanced(t: seq<Tok>) {
    Depth(t, 0, |t|) == 0 && forall p | 0 <= p <= |t| :: Depth(t, 0, p) >= 0
  }

  lemma {:induction false} DepthSplit(t: seq<Tok>, lo: nat, mid: nat, hi: nat)
    requires lo <= mid <= hi <= |t|
    ensures Depth(t, lo, hi) == Depth(t, lo, mid) + Depth(t, mid, hi)
    decreases mid - lo
  {
    if lo < mid {
      DepthSplit(t, lo + 1, mid, hi);
    }
  }

  lemma {:induction false} DepthSlice(t: seq<Tok>, u: seq<Tok>, off: nat, lo: nat, hi: nat)
    requires lo <= hi <= |u| && off + |u| <= |t| && t[off..off + |u|] == u
    ensures Depth(t, off + lo, off + hi) == Depth(u, lo, hi)
    decreases hi - lo
  {
    if lo < hi {
      assert t[off + lo] == u[lo];
      DepthSlice(t, u, off, lo + 1, hi);
    }
  }

  /** A positive depth that comes down to zero is met by the scan on the way. */
  lemma {:induction false} ScanComesDown(t: seq<Tok>, i: nat, depth: nat)
    requires i <= |t| && depth + Depth(t, i, |t|) == 0 && depth > 0
    ensures ScanEnd(t, i, depth).Some?
    decreases |t| - i
  {
    if i < |t| {
      if t[i].Open? {
        ScanComesDown(t, i + 1, depth + 1);
      } else if t[i].Close? && depth > 1 {
        ScanComesDown(t, i + 1, depth - 1);
      } else if !t[i].Close? {
        ScanComesDown(t, i + 1, depth);
      }
    }
  }

  /** In a balanced text the scan succeeds from any top-level position that has a brace after it. */
  lemma {:induction false} BalancedTextScans(t: seq<Tok>, b: nat, k: nat)
    requires Balanced(t) && b <= k < |t| && Depth(t, 0, b) == 0 && Brace(t[k])
    ensures ScanEnd(t, b, 0).Some?
    decreases |t| - b
  {
    DepthSplit(t, 0, b, b + 1);
    DepthSplit(t, 0, b, |t|);
    assert Depth(t, 0, b + 1) >= 0;
    if t[b].Open? {
      ScanComesDown(t, b + 1, 1);
    } else {
      assert !t[b].Close?;
      BalancedTextScans(t, b + 1, k);
    }
  }

  // ----- the edit of one kernel section -----

  /** What the patcher compiles for, and how it hooks: before returns or at body starts. */
  datatype Probe = Probe(func: string, isRet: bool)

  predicate Decl(x: Tok) {
    x.Reg? || x.Shared?
  }

  /** The lexemes the replacement adds before position `i`: a call before each `ret;` that follows
      white space, or after each brace that opens on a declaration. */
  function Inserted(pr: Probe, s: seq<Tok>, i: nat): seq<Tok>
    requires i < |s|
  {
    if i == 0 then []
    else if pr.isRet then
      if s[i].Ret? && s[i - 1].Space? then [Call(pr.func), Space("\n" + s[i - 1].text)] else []
    else if s[i - 1].Open? && (Decl(s[i]) || (s[i].Space? && i + 1 < |s| && Decl(s[i + 1]))) then
      [Space("\n    "), Call(pr.func), Space("\n")]
    else []
  }

  function Edit(pr: Probe, s: seq<Tok>, lo: nat, hi: nat): seq<Tok>
    requires lo <= hi <= |s|
    decreases hi - lo
  {
    if lo == hi then [] else Edit(pr, s, lo, hi - 1) + (Inserted(pr, s, hi - 1) + [s[hi - 1]])
  }

  method EditSection(pr: Probe, s: seq<Tok>) returns (r: seq<Tok>)
    ensures r == Edit(pr, s, 0, |s|)
  {
    r := [];
    for i := 0 to |s|
      invariant r == Edit(pr, s, 0, i)
    {
      r := r + (Inserted(pr, s, i) + [s[i]]);
    }
  }

  /** Lexemes an edit may add: no braces and no entry header. */
  predicate Neutral(x: Tok) {
    !Brace(x) && !x.Entry?
  }

  ghost predicate AllNeutral(s: seq<Tok>) {
    forall k | 0 <= k < |s| :: Neutral(s[k])
  }

  lemma {:induction false} InsertedNeutral(pr: Probe, s: seq<Tok>, i: nat)
    requires i < |s|
    ensures AllNeutral(Inserted(pr, s, i))
    ensures Brace(s[i]) || s[i].Entry? ==> Inserted(pr, s, i) == []
  {
  }

  /** Where lexeme `i` ends up. */
  function Moved(pr: Probe, s: seq<Tok>, i: nat): nat
    requires i < |s|
  {
    |Edit(pr, s, 0, i)| + |Inserted(pr, s, i)|
  }

  lemma {:induction false} EditPrefix(pr: Probe, s: seq<Tok>, i: nat, n: nat)
    requires i <= n <= |s|
    ensures Edit(pr, s, 0, i) <= Edit(pr, s, 0, n)
    decreases n
  {
    if i < n {
      EditPrefix(pr, s, i, n - 1);
    }
  }

  /** The edit only inserts: every lexeme survives in order, the inserted ones right before it. */
  lemma {:induction false} EditKeepsLexemes(pr: Probe, s: seq<Tok>, i: nat)
    requires i < |s|
    ensures var r, at := Edit(pr, s, 0, |s|), Moved(pr, s, i);
            && at < |r| && r[at] == s[i]
            && r[at - |Inserted(pr, s, i)|..at] == Inserted(pr, s, i)
            && (i + 1 < |s| ==> at + 1 + |Inserted(pr, s, i + 1)| == Moved(pr, s, i + 1))
  {
    EditPrefix(pr, s, i + 1, |s|);
    var r, e, d := Edit(pr, s, 0, |s|), Edit(pr, s, 0, i + 1), Edit(pr, s, 0, i);
    var ins, at := Inserted(pr, s, i), Moved(pr, s, i);
    assert e == d + (ins + [s[i]]);
    assert r[at] == e[at] && r[|d|..at] == e[|d|..at];
    assert e[|d|..at] == ins;
  }

  ghost predicate NoEntry(s: seq<Tok>) {
    forall k | 0 <= k < |s| :: !s[k].Entry?
  }

  // ----- one target -----

  /** The first header of the target. */
  ghost predicate IsFirst(t: seq<Tok>, target: string, i: nat) {
    i < |t| && t[i] == Entry(target) && forall j | 0 <= j < i :: t[j] != Entry(target)
  }

  /** The search for the target comes to the header at `i`. */
  ghost predicate Visited(t: seq<Tok>, target: string, i: nat) {
    i < |t| && t[i].Entry? && Entry(target) !in t[..i]
  }

  /** Every header the search comes to, up to and including the first of that name, scans. */
  ghost predicate ScansTo(t: seq<Tok>, target: string) {
    forall i: nat | Visited(t, target, i) :: ScanEnd(t, i, 0).Some?
  }

  lemma {:induction false} FirstScans(t: seq<Tok>, target: string, b: nat)
    requires ScansTo(t, target) && IsFirst(t, target, b)
    ensures ScanEnd(t, b, 0).Some? && b < ScanEnd(t, b, 0).value <= |t|
  {
    assert Visited(t, target, b);
    ScanInRange(t, b, 0);
  }

  function Splice(t: seq<Tok>, b: nat, e: nat, section: seq<Tok>, compiled: seq<Tok>): seq<Tok>
    requires b <= e <= |t|
  {
    compiled + [Space("\n")] + (t[..b] + section + t[e..])
  }

  lemma {:induction false} ScanInRange(t: seq<Tok>, i: nat, depth: nat)
    requires ScanEnd(t, i, depth).Some?
    ensures i < ScanEnd(t, i, depth).value <= |t|
    decreases |t| - i
  {
    if t[i].Open? {
      ScanInRange(t, i + 1, depth + 1);
    } else if t[i].Close? {
      if depth > 1 {
        ScanInRange(t, i + 1, depth - 1);
      }
    } else {
      ScanInRange(t, i + 1, depth);
    }
  }

  /** What one target does to the text: nothing without a header of that name, else the first such
      kernel's section is edited in place and the compiled probe is prepended. */
  ghost predicate Patched(t: seq<Tok>, target: string, pr: Probe, compiled: seq<Tok>, t': seq<Tok>)
    requires ScansTo(t, target)
  {
    && (Entry(target) !in t ==> t' == t)
    && forall b: nat | IsFirst(t, target, b) ::
         (FirstScans(t, target, b);
          var e := ScanEnd(t, b, 0).value;
          t' == Splice(t, b, e, Edit(pr, t[b..e], 0, e - b), compiled))
  }

  /** The headers of the text, each once and in order. */
  ghost predicate Lists(kernels: seq<nat>, t: seq<Tok>) {
    && (forall k | 0 <= k < |kernels| :: kernels[k] < |t| && t[kernels[k]].Entry?)
    && (forall i: nat | i < |t| && t[i].Entry? :: i in kernels)
    && (forall k, l | 0 <= k < l < |kernels| :: kernels[k] < kernels[l])
  }

  /** When no earlier kernel has the target's name the search comes to kernel `k`. */
  lemma {:induction false} NthVisited(t: seq<Tok>, kernels: seq<nat>, target: string, k: nat)
    requires Lists(kernels, t) && k < |kernels| && forall j | 0 <= j < k :: t[kernels[j]] != Entry(target)
    ensures Visited(t, target, kernels[k])
    ensures t[kernels[k]].name == target ==> IsFirst(t, target, kernels[k])
  {
    forall j | 0 <= j < kernels[k]
      ensures t[j] != Entry(target)
    {
      if t[j].Entry? {
        var i :| 0 <= i < |kernels| && kernels[i] == j;
        assert i < k;
      }
    }
  }

  method FindKernels(t: seq<Tok>) returns (kernels: seq<nat>)
    ensures Lists(kernels, t)
  {
    kernels := [];
    for i := 0 to |t|
      invariant forall k | 0 <= k < |kernels| :: kernels[k] < i && t[kernels[k]].Entry?
      invariant forall j: nat | j < i && t[j].Entry? :: j in kernels
      invariant forall k, l | 0 <= k < l < |kernels| :: kernels[k] < kernels[l]
    {
      if t[i].Entry? {
        kernels := kernels + [i];
      }
    }
  }

  lemma {:induction false} SplicedIsPatched(t: seq<Tok>, target: string, pr: Probe, compiled: seq<Tok>, b: nat, e: nat,
                                            section: seq<Tok>)
    requires ScansTo(t, target) && IsFirst(t, target, b) && b <= e <= |t| && ScanEnd(t, b, 0) == Some(e)
    requires section == Edit(pr, t[b..e], 0, |t[b..e]|)
    ensures Patched(t, target, pr, compiled, Splice(t, b, e, section, compiled))
  {
    forall i: nat | IsFirst(t, target, i)
      ensures i == b
    {
    }
    assert t[b] == Entry(target);
  }

  lemma {:induction false} NoneIsPatched(t: seq<Tok>, kernels: seq<nat>, target: string, pr: Probe, compiled: seq<Tok>)
    requires ScansTo(t, target) && Lists(kernels, t)
    requires forall j | 0 <= j < |kernels| :: t[kernels[j]] != Entry(target)
    ensures Patched(t, target, pr, compiled, t)
  {
    forall i: nat | i < |t|
      ensures t[i] != Entry(target)
    {
      if t[i].Entry? {
        var j :| 0 <= j < |kernels| && kernels[j] == i;
      }
    }
  }

  /** One turn of the outer loop: find the kernels afresh, scan them in order, splice at the first match. */
  method PatchTarget(t: seq<Tok>, target: string, pr: Probe, compiled: seq<Tok>) returns (t': seq<Tok>)
    requires ScansTo(t, target)
    ensures Patched(t, target, pr, compiled, t')
  {
    var kernels := FindKernels(t);
    for k := 0 to |kernels|
      invariant forall j | 0 <= j < k :: t[kernels[j]] != Entry(target)
    {
      var begin := kernels[k];
      NthVisited(t, kernels, target, k);
      var end := ScanBody(t, begin);
      if t[begin].name == target {
        ScanInRange(t, begin, 0);
        var section := EditSection(pr, t[begin..end]);
        SplicedIsPatched(t, target, pr, compiled, begin, end, section);
        return Splice(t, begin, end, section, compiled);
      }
    }
    NoneIsPatched(t, kernels, target, pr, compiled);
    return t;
  }

  // ----- every header keeps scanning -----

  /** The braces from `i` on, opening ones true. */
  function Braces(t: seq<Tok>, i: nat): seq<bool>
    decreases |t| - i
  {
    if i >= |t| then []
    else if t[i].Open? then [true] + Braces(t, i + 1)
    else if t[i].Close? then [false] + Braces(t, i + 1)
    else Braces(t, i + 1)
  }

  /** Whether a scan over these braces ends. */
  predicate Closes(bs: seq<bool>, depth: nat) {
    bs != [] && (if bs[0] then Closes(bs[1..], depth + 1) else depth == 1 || (depth > 1 && Closes(bs[1..], depth - 1)))
  }

  lemma {:induction false} ScansIff(t: seq<Tok>, i: nat, depth: nat)
    ensures ScanEnd(t, i, depth).Some? <==> Closes(Braces(t, i), depth)
    decreases |t| - i
  {
    if i < |t| {
      if t[i].Open? {
        ScansIff(t, i + 1, depth + 1);
        assert ([true] + Braces(t, i + 1))[1..] == Braces(t, i + 1);
      } else if t[i].Close? {
        assert ([false] + Braces(t, i + 1))[1..] == Braces(t, i + 1);
        if depth > 1 {
          ScansIff(t, i + 1, depth - 1);
        }
      } else {
        ScansIff(t, i + 1, depth);
      }
    }
  }

  lemma {:induction false} BracesConcat(a: seq<Tok>, b: seq<Tok>, i: nat)
    requires i <= |a|
    ensures Braces(a + b, i) == Braces(a, i) + Braces(b, 0)
    decreases |a| - i
  {
    if i == |a| {
      BracesShift(a, b, 0);
    } else {
      assert (a + b)[i] == a[i];
      BracesConcat(a, b, i + 1);
      if a[i].Open? {
        Regroup([true], Braces(a, i + 1), Braces(b, 0));
      } else if a[i].Close? {
        Regroup([false], Braces(a, i + 1), Braces(b, 0));
      }
    }
  }

  lemma {:induction false} BracesShift(a: seq<Tok>, b: seq<Tok>, i: nat)
    requires i <= |b|
    ensures Braces(a + b, |a| + i) == Braces(b, i)
    decreases |b| - i
  {
    if i < |b| {
      assert (a + b)[|a| + i] == b[i];
      BracesShift(a, b, i + 1);
    }
  }

  lemma {:induction false} NeutralBraces(ins: seq<Tok>, x: Tok)
    requires AllNeutral(ins)
    ensures Braces(ins + [x], 0) == Braces([x], 0)
    decreases |ins|
  {
    if ins == [] {
      assert ins + [x] == [x];
    } else {
      var more := ins[1..];
      assert ins + [x] == [ins[0]] + (more + [x]);
      NeutralBraces(more, x);
      BracesShift([ins[0]], more + [x], 0);
      assert Neutral(ins[0]);
    }
  }

  lemma {:induction false} EditBraces(pr: Probe, s: seq<Tok>, n: nat)
    requires n <= |s|
    ensures Braces(Edit(pr, s, 0, n), 0) == Braces(s[..n], 0)
  {
    if n > 0 {
      var ins, x := Inserted(pr, s, n - 1), s[n - 1];
      EditBraces(pr, s, n - 1);
      InsertedNeutral(pr, s, n - 1);
      NeutralBraces(ins, x);
      BracesConcat(Edit(pr, s, 0, n - 1), ins + [x], 0);
      BracesConcat(s[..n - 1], [x], 0);
      assert s[..n] == s[..n - 1] + [x];
    }
  }

  /** Every header of `a` is one of `b`. */
  ghost predicate Keeps(a: seq<Tok>, b: seq<Tok>) {
    forall x | x in a && x.Entry? :: x in b
  }

  lemma {:induction false} EditKeepsHeaders(pr: Probe, s: seq<Tok>, n: nat)
    requires n <= |s|
    ensures Keeps(s[..n], Edit(pr, s, 0, n))
  {
    if n > 0 {
      EditKeepsHeaders(pr, s, n - 1);
      assert s[..n] == s[..n - 1] + [s[n - 1]];
    }
  }

  lemma {:induction false} KeepsConcat(a: seq<Tok>, b: seq<Tok>, a': seq<Tok>, b': seq<Tok>)
    requires Keeps(a, a') && Keeps(b, b')
    ensures Keeps(a + b, a' + b')
  {
  }

  /** Header `k` of `u` is header `i` of `t`: the same braces after it, the same headers before it. */
  ghost predicate SameHeader(t: seq<Tok>, i: nat, u: seq<Tok>, k: nat) {
    i < |t| && k < |u| && t[i].Entry? && Braces(u, k) == Braces(t, i) && Keeps(t[..i], u[..k])
  }

  /** A header of the edited text is one of the original, with the same headers before it. */
  lemma {:induction false} EditedHeader(pr: Probe, s: seq<Tok>, n: nat, j: nat) returns (i: nat)
    requires n <= |s| && j < |Edit(pr, s, 0, n)| && Edit(pr, s, 0, n)[j].Entry?
    ensures SameHeader(s[..n], i, Edit(pr, s, 0, n), j)
    decreases n
  {
    var before, ins, x := Edit(pr, s, 0, n - 1), Inserted(pr, s, n - 1), s[n - 1];
    InsertedNeutral(pr, s, n - 1);
    assert s[..n] == s[..n - 1] + [x];
    if j < |before| {
      i := EditedHeader(pr, s, n - 1, j);
      HeaderKept(s[..n - 1], x, before, ins, i, j);
    } else {
      i := n - 1;
      EditKeepsHeaders(pr, s, n - 1);
      HeaderLast(s[..n - 1], x, before, ins, j);
    }
  }

  lemma {:induction false} HeaderKept(p: seq<Tok>, x: Tok, before: seq<Tok>, ins: seq<Tok>, i: nat, j: nat)
    requires SameHeader(p, i, before, j) && AllNeutral(ins)
    ensures SameHeader(p + [x], i, before + (ins + [x]), j)
  {
    NeutralBraces(ins, x);
    BracesConcat(before, ins + [x], j);
    BracesConcat(p, [x], i);
    assert (before + (ins + [x]))[..j] == before[..j] && (p + [x])[..i] == p[..i];
  }

  lemma {:induction false} HeaderLast(p: seq<Tok>, x: Tok, before: seq<Tok>, ins: seq<Tok>, j: nat)
    requires AllNeutral(ins) && |before| <= j < |before| + |ins| + 1 && (before + (ins + [x]))[j].Entry?
    requires Keeps(p, before)
    ensures SameHeader(p + [x], |p|, before + (ins + [x]), j)
  {
    LastBraces(before, ins, x, j);
    BracesShift(p, [x], 0);
    assert (before + (ins + [x]))[..j] == before + ins && (p + [x])[..|p|] == p;
  }

  lemma {:induction false} LastBraces(before: seq<Tok>, ins: seq<Tok>, x: Tok, j: nat)
    requires AllNeutral(ins) && |before| <= j < |before| + |ins| + 1 && (before + (ins + [x]))[j].Entry?
    ensures j == |before| + |ins| && Braces(before + (ins + [x]), j) == Braces([x], 0)
  {
    var k := j - |before|;
    assert (ins + [x])[k].Entry?;
    forall m | 0 <= m < |ins|
      ensures !(ins + [x])[m].Entry?
    {
      assert Neutral(ins[m]);
    }
    BracesShift(before, ins + [x], k);
    BracesShift(ins, [x], 0);
  }

  /** A header that scans still does when the braces after it are the same. */
  lemma {:induction false} SameBracesScan(t: seq<Tok>, i: nat, t': seq<Tok>, j: nat)
    requires ScanEnd(t, i, 0).Some? && Braces(t', j) == Braces(t, i)
    ensures ScanEnd(t', j, 0).Some?
  {
    ScansIff(t, i, 0);
    ScansIff(t', j, 0);
  }

  /** The headers of `u` are those of `t`, braces and all. */
  ghost predicate SameHeaders(t: seq<Tok>, u: seq<Tok>) {
    && Braces(u, 0) == Braces(t, 0) && Keeps(t, u)
    && forall k: nat {:trigger Comes(t, u, k)} | k < |u| && u[k].Entry? :: Comes(t, u, k)
  }

  ghost predicate Comes(t: seq<Tok>, u: seq<Tok>, k: nat) {
    exists i: nat :: SameHeader(t, i, u, k)
  }

  lemma {:induction false} EditedHeaders(pr: Probe, s: seq<Tok>, e: seq<Tok>)
    requires e == Edit(pr, s, 0, |s|)
    ensures SameHeaders(s, e)
  {
    EditBraces(pr, s, |s|);
    EditKeepsHeaders(pr, s, |s|);
    assert s[..|s|] == s;
    forall k: nat | k < |e| && e[k].Entry?
      ensures Comes(s, e, k)
    {
      var i := EditedHeader(pr, s, |s|, k);
      assert SameHeader(s, i, e, k);
    }
  }

  /** A header of the spliced text comes from the text before, braces and all. */
  lemma {:induction false} SplicedHeader(a: seq<Tok>, s: seq<Tok>, c: seq<Tok>, front: seq<Tok>, e: seq<Tok>, j: nat)
      returns (i: nat)
    requires NoEntry(front) && SameHeaders(s, e)
    requires j < |front + (a + e + c)| && (front + (a + e + c))[j].Entry?
    ensures SameHeader(a + s + c, i, front + (a + e + c), j)
  {
    var u, k := a + e + c, j - |front|;
    forall m | 0 <= m < |front|
      ensures !(front + u)[m].Entry?
    {
      assert !front[m].Entry?;
    }
    i := MiddleHeader(a, s, c, e, k);
    BracesShift(front, u, k);
    assert (front + u)[..j] == front + u[..k];
  }

  lemma {:induction false} MiddleHeader(a: seq<Tok>, s: seq<Tok>, c: seq<Tok>, e: seq<Tok>, k: nat)
      returns (i: nat)
    requires SameHeaders(s, e) && k < |a + e + c| && (a + e + c)[k].Entry?
    ensures SameHeader(a + s + c, i, a + e + c, k)
  {
    PartAt(a, e, c, k);
    if k < |a| {
      i := k;
      HeaderInFront(a, s, c, e, k);
    } else if k < |a| + |e| {
      assert Comes(s, e, k - |a|);
      i := HeaderInside(a, s, c, e, k - |a|);
    } else {
      i := k - |e| + |s|;
      HeaderBehind(a, s, c, e, k - |a| - |e|);
    }
  }

  lemma {:induction false} PartAt(a: seq<Tok>, e: seq<Tok>, c: seq<Tok>, k: nat)
    requires k < |a + e + c|
    ensures (a + e + c)[k]
         == if k < |a| then a[k] else if k < |a| + |e| then e[k - |a|] else c[k - |a| - |e|]
  {
  }

  lemma {:induction false} HeaderBehind(a: seq<Tok>, s: seq<Tok>, c: seq<Tok>, e: seq<Tok>, k: nat)
    requires Keeps(s, e) && k < |c| && c[k].Entry?
    ensures SameHeader(a + s + c, |a| + |s| + k, a + e + c, |a| + |e| + k)
  {
    KeepsConcat(a, s, a, e);
    HeaderAfter(a + s, c, a + e, k);
  }

  lemma {:induction false} HeaderInFront(a: seq<Tok>, s: seq<Tok>, c: seq<Tok>, e: seq<Tok>, k: nat)
    requires k < |a| && a[k].Entry? && Braces(e, 0) == Braces(s, 0)
    ensures SameHeader(a + s + c, k, a + e + c, k)
  {
    assert (a + s)[..k] == (a + e)[..k];
    BracesConcat(a, e, k);
    BracesConcat(a, s, k);
    HeaderBefore(a + s, c, a + e, k, k);
  }

  lemma {:induction false} HeaderInside(a: seq<Tok>, s: seq<Tok>, c: seq<Tok>, e: seq<Tok>, y: nat)
      returns (i: nat)
    requires Comes(s, e, y)
    ensures SameHeader(a + s + c, i, a + e + c, |a| + y)
  {
    var x: nat :| SameHeader(s, x, e, y);
    i := |a| + x;
    HeaderShifted(a, s, x, e, y);
    HeaderBefore(a + s, c, a + e, |a| + x, |a| + y);
  }

  lemma {:induction false} HeaderShifted(a: seq<Tok>, s: seq<Tok>, x: nat, e: seq<Tok>, y: nat)
    requires SameHeader(s, x, e, y)
    ensures SameHeader(a + s, |a| + x, a + e, |a| + y)
  {
    BracesShift(a, e, y);
    BracesShift(a, s, x);
    KeepsConcat(a, s[..x], a, e[..y]);
    assert (a + e)[..|a| + y] == a + e[..y] && (a + s)[..|a| + x] == a + s[..x];
  }

  lemma {:induction false} HeaderBefore(p: seq<Tok>, c: seq<Tok>, q: seq<Tok>, i: nat, k: nat)
    requires SameHeader(p, i, q, k)
    ensures SameHeader(p + c, i, q + c, k)
  {
    BracesConcat(q, c, k);
    BracesConcat(p, c, i);
    assert (q + c)[..k] == q[..k] && (p + c)[..i] == p[..i];
  }

  lemma {:induction false} HeaderAfter(p: seq<Tok>, c: seq<Tok>, q: seq<Tok>, k: nat)
    requires Keeps(p, q) && k < |c| && c[k].Entry?
    ensures SameHeader(p + c, |p| + k, q + c, |q| + k)
  {
    BracesShift(q, c, k);
    BracesShift(p, c, k);
    KeepsConcat(p, c[..k], q, c[..k]);
    assert (q + c)[..|q| + k] == q + c[..k] && (p + c)[..|p| + k] == p + c[..k];
  }

  // ----- all targets -----

  function ProbeFor(target: string, isRet: bool): Probe {
    Probe((if isRet then "__retprobe_func__" else "__probe_func__") + target, isRet)
  }

  lemma {:induction false} PatchedAt(t: seq<Tok>, target: string, pr: Probe, compiled: seq<Tok>, t': seq<Tok>, b: nat,
                                     e: nat, s: seq<Tok>)
    requires ScansTo(t, target) && Patched(t, target, pr, compiled, t') && IsFirst(t, target, b)
    requires b <= e <= |t| && t[b..e] == s && ScanEnd(t, b, 0) == Some(e)
    ensures t' == Splice(t, b, e, Edit(pr, s, 0, |s|), compiled)
  {
  }

  /** After a turn the search for any target still scans every header it comes to, if it did before. */
  lemma {:induction false} PatchedScans(t: seq<Tok>, target: string, pr: Probe, compiled: seq<Tok>, t': seq<Tok>,
                                        other: string)
    requires ScansTo(t, target) && Patched(t, target, pr, compiled, t') && NoEntry(compiled) && ScansTo(t, other)
    ensures ScansTo(t', other)
  {
    if Entry(target) in t {
      var b, e := PatchedIsSplice(t, target, pr, compiled, t');
      SplicedScans(t, b, e, pr, compiled, other);
    }
  }

  lemma {:induction false} PatchedIsSplice(t: seq<Tok>, target: string, pr: Probe, compiled: seq<Tok>, t': seq<Tok>)
      returns (b: nat, e: nat)
    requires ScansTo(t, target) && Patched(t, target, pr, compiled, t') && Entry(target) in t
    ensures b <= e <= |t| && t' == Splice(t, b, e, Edit(pr, t[b..e], 0, e - b), compiled)
  {
    b := FirstIndex(t, target);
    FirstScans(t, target, b);
    e := ScanEnd(t, b, 0).value;
    PatchedAt(t, target, pr, compiled, t', b, e, t[b..e]);
  }

  lemma {:induction false} FirstIndex(t: seq<Tok>, target: string) returns (b: nat)
    requires Entry(target) in t
    ensures IsFirst(t, target, b)
  {
    b := 0;
    while t[b] != Entry(target)
      invariant b < |t| && Entry(target) in t[b..] && forall j | 0 <= j < b :: t[j] != Entry(target)
      decreases |t| - b
    {
      assert t[b..] == [t[b]] + t[b + 1..];
      b := b + 1;
    }
  }

  lemma {:induction false} ThreeParts(t: seq<Tok>, b: nat, e: nat)
    requires b <= e <= |t|
    ensures t[..b] + t[b..e] + t[e..] == t
  {
  }

  lemma {:induction false} SplicedScans(t: seq<Tok>, b: nat, e: nat, pr: Probe, compiled: seq<Tok>, target: string)
    requires ScansTo(t, target) && b <= e <= |t| && NoEntry(compiled)
    ensures ScansTo(Splice(t, b, e, Edit(pr, t[b..e], 0, e - b), compiled), target)
  {
    ThreeParts(t, b, e);
    EditedHeaders(pr, t[b..e], Edit(pr, t[b..e], 0, e - b));
    PartsScan(t[..b], t[b..e], t[e..], compiled + [Space("\n")], Edit(pr, t[b..e], 0, e - b), target);
  }

  lemma {:induction false} PartsScan(a: seq<Tok>, s: seq<Tok>, c: seq<Tok>, front: seq<Tok>, e: seq<Tok>,
                                     target: string)
    requires NoEntry(front) && SameHeaders(s, e) && ScansTo(a + s + c, target)
    ensures ScansTo(front + (a + e + c), target)
  {
    var t, t' := a + s + c, front + (a + e + c);
    forall j: nat | Visited(t', target, j)
      ensures ScanEnd(t', j, 0).Some?
    {
      var i := SplicedHeader(a, s, c, front, e, j);
      assert Visited(t, target, i);
      SameBracesScan(t, i, t', j);
    }
  }

  /** One turn per target, each on the text the previous one left. */
  ghost predicate InTurn(texts: seq<seq<Tok>>, targets: seq<string>, isRet: bool, compile: Probe -> seq<Tok>) {
    && |texts| == |targets| + 1
    && forall k | 0 <= k < |targets| :: Turn(texts[k], targets[k], isRet, compile, texts[k + 1])
  }

  ghost predicate Turn(t: seq<Tok>, target: string, isRet: bool, compile: Probe -> seq<Tok>, t': seq<Tok>) {
    ScansTo(t, target) && Patched(t, target, ProbeFor(target, isRet), compile(ProbeFor(target, isRet)), t')
  }

  ghost predicate PatchedText(t: seq<Tok>, targets: seq<string>, isRet: bool, compile: Probe -> seq<Tok>,
                              t': seq<Tok>) {
    exists texts :: InTurn(texts, targets, isRet, compile) && texts[0] == t && texts[|targets|] == t'
  }

  lemma {:induction false} NextTurn(texts: seq<seq<Tok>>, targets: seq<string>, k: nat, isRet: bool,
                                    compile: Probe -> seq<Tok>, t': seq<Tok>)
    requires k < |targets| && InTurn(texts, targets[..k], isRet, compile)
    requires Turn(texts[k], targets[k], isRet, compile, t')
    ensures InTurn(texts + [t'], targets[..k + 1], isRet, compile)
  {
    var more, upto := texts + [t'], targets[..k + 1];
    forall j | 0 <= j < |upto|
      ensures Turn(more[j], upto[j], isRet, compile, more[j + 1])
    {
      if j < k {
        assert Turn(texts[j], targets[..k][j], isRet, compile, texts[j + 1]);
      }
    }
  }

  /** The search for each target scans every header it comes to. */
  ghost predicate AllScan(t: seq<Tok>, targets: seq<string>) {
    forall x | x in targets :: ScansTo(t, x)
  }

  /** The whole patch before the header filter, on any text in which the scans it makes end: the kernels are
      found and scanned afresh in every turn, so no offset is stale, and the scans still end after it. */
  method PatchAll(t: seq<Tok>, targets: seq<string>, isRet: bool, compile: Probe -> seq<Tok>) returns (t': seq<Tok>)
    requires AllScan(t, targets)
    requires forall pr :: NoEntry(compile(pr))
    ensures PatchedText(t, targets, isRet, compile, t') && AllScan(t', targets)
  {
    t' := t;
    ghost var texts := [t];
    for k := 0 to |targets|
      invariant |texts| == k + 1 && texts[0] == t && texts[k] == t' && AllScan(t', targets)
      invariant InTurn(texts, targets[..k], isRet, compile)
    {
      var pr := ProbeFor(targets[k], isRet);
      var next := PatchTarget(t', targets[k], pr, compile(pr));
      forall x | x in targets
        ensures ScansTo(next, x)
      {
        PatchedScans(t', targets[k], pr, compile(pr), next, x);
      }
      NextTurn(texts, targets, k, isRet, compile, next);
      t', texts := next, texts + [next];
    }
    assert targets[..|targets|] == targets;
  }
}
