/** What the probe patcher does to a text seen as kernels and the stretches between them: each turn edits
    the first kernel of the target's name and nothing else. */
module KernelPieces {
  import opened Common
  import opened ProbeSplice

  // ----- texts made of pieces -----

  /** A PTX text at and between the kernels of interest: kernels with a header, a braceless head and a body
      in braces, and plain stretches of anything else, headers of other names among it. */
  datatype Piece = Plain(toks: seq<Tok>) | Kernel(name: string, head: seq<Tok>, body: seq<Tok>)

  function Flat(p: Piece): seq<Tok> {
    match p
    case Plain(toks) => toks
    case Kernel(name, head, body) => [Entry(name)] + head + [Open] + body + [Close]
  }

  function Join(flat: Piece -> seq<Tok>, ps: seq<Piece>, lo: nat, hi: nat): seq<Tok>
    requires lo <= hi <= |ps|
    decreases hi - lo
  {
    if lo == hi then [] else Join(flat, ps, lo, hi - 1) + flat(ps[hi - 1])
  }

  function Text(ps: seq<Piece>, lo: nat, hi: nat): seq<Tok>
    requires lo <= hi <= |ps|
  {
    Join(Flat, ps, lo, hi)
  }

  /** No header of these names. */
  ghost predicate NoneNamed(s: seq<Tok>, names: set<string>) {
    forall k | 0 <= k < |s| :: s[k].Entry? ==> s[k].name !in names
  }

  ghost predicate SoundKernel(p: Piece) {
    p.Kernel? && AllNeutral(p.head) && Balanced(p.body) && NoEntry(p.body)
  }

  ghost predicate WellFormed(p: Piece, names: set<string>) {
    match p
    case Plain(toks) => NoneNamed(toks, names)
    case Kernel(name, _, _) => name in names && SoundKernel(p)
  }

  ghost predicate AllWellFormed(ps: seq<Piece>, names: set<string>) {
    forall k | 0 <= k < |ps| :: WellFormed(ps[k], names)
  }

  predicate Named(p: Piece, target: string) {
    p.Kernel? && p.name == target
  }

  // ----- one kernel, edited -----

  /** A section with its opening brace at `h` is edited between its fixed lexemes. */
  ghost predicate IsSection(s: seq<Tok>, h: nat) {
    1 <= h < |s| - 1 && s[0].Entry? && s[h].Open? && s[|s| - 1].Close?
  }

  ghost function EditedPiece(pr: Probe, s: seq<Tok>, h: nat): Piece
    requires IsSection(s, h)
  {
    Kernel(s[0].name, Edit(pr, s, 1, h), Edit(pr, s, h + 1, |s| - 1))
  }

  ghost function EditKernel(pr: Probe, k: Piece): Piece
    requires k.Kernel?
  {
    EditedPiece(pr, Flat(k), 1 + |k.head|)
  }

  lemma {:induction false} EditSplit(pr: Probe, s: seq<Tok>, lo: nat, mid: nat, hi: nat)
    requires lo <= mid <= hi <= |s|
    ensures Edit(pr, s, lo, hi) == Edit(pr, s, lo, mid) + Edit(pr, s, mid, hi)
    decreases hi - mid
  {
    if mid < hi {
      EditSplit(pr, s, lo, mid, hi - 1);
      Regroup(Edit(pr, s, lo, mid), Edit(pr, s, mid, hi - 1), Inserted(pr, s, hi - 1) + [s[hi - 1]]);
    }
  }

  lemma {:induction false} EditOne(pr: Probe, s: seq<Tok>, i: nat)
    requires i < |s| && (Brace(s[i]) || s[i].Entry?)
    ensures Edit(pr, s, i, i + 1) == [s[i]]
  {
    InsertedNeutral(pr, s, i);
    assert Edit(pr, s, i, i) == [];
  }

  lemma {:induction false} EditNeutral(pr: Probe, s: seq<Tok>, lo: nat, hi: nat)
    requires lo <= hi <= |s| && AllNeutral(s[lo..hi])
    ensures AllNeutral(Edit(pr, s, lo, hi))
    decreases hi - lo
  {
    if lo < hi {
      assert s[lo..hi - 1] == s[lo..hi][..hi - 1 - lo];
      EditNeutral(pr, s, lo, hi - 1);
      InsertedNeutral(pr, s, hi - 1);
      assert s[hi - 1] == s[lo..hi][hi - 1 - lo];
    }
  }

  lemma {:induction false} EditNoEntry(pr: Probe, s: seq<Tok>, lo: nat, hi: nat)
    requires lo <= hi <= |s| && NoEntry(s[lo..hi])
    ensures NoEntry(Edit(pr, s, lo, hi))
    decreases hi - lo
  {
    if lo < hi {
      assert s[lo..hi - 1] == s[lo..hi][..hi - 1 - lo];
      EditNoEntry(pr, s, lo, hi - 1);
      InsertedNeutral(pr, s, hi - 1);
      assert s[hi - 1] == s[lo..hi][hi - 1 - lo];
    }
  }

  lemma {:induction false} DepthConcat(a: seq<Tok>, b: seq<Tok>, q: nat)
    requires q <= |b|
    ensures Depth(a + b, 0, |a| + q) == Depth(a, 0, |a|) + Depth(b, 0, q)
  {
    var t := a + b;
    DepthSplit(t, 0, |a|, |a| + q);
    assert t[0..0 + |a|] == a && t[|a|..|a| + |b|] == b;
    DepthSlice(t, a, 0, 0, |a|);
    DepthSlice(t, b, |a|, 0, q);
  }

  lemma {:induction false} DepthPrefix(a: seq<Tok>, b: seq<Tok>, p: nat)
    requires p <= |a|
    ensures Depth(a + b, 0, p) == Depth(a, 0, p)
  {
    assert (a + b)[0..0 + |a|] == a;
    DepthSlice(a + b, a, 0, 0, p);
  }

  lemma {:induction false} NeutralDepth(t: seq<Tok>, lo: nat, hi: nat)
    requires lo <= hi <= |t| && NoBraces(t, lo, hi)
    ensures Depth(t, lo, hi) == 0
    decreases hi - lo
  {
    if lo < hi {
      NeutralDepth(t, lo + 1, hi);
    }
  }

  ghost predicate NeverNegative(t: seq<Tok>) {
    forall p | 0 <= p <= |t| :: Depth(t, 0, p) >= 0
  }

  /** Appending neutral lexemes and one more keeps the running depth nonnegative if the total stays so. */
  lemma {:induction false} AppendOne(r: seq<Tok>, ins: seq<Tok>, x: Tok, d: int)
    requires NeverNegative(r) && AllNeutral(ins)
    requires d == Depth(r, 0, |r|) + (if x.Open? then 1 else if x.Close? then -1 else 0) && d >= 0
    ensures var r' := r + (ins + [x]); NeverNegative(r') && Depth(r', 0, |r'|) == d
  {
    var b := ins + [x];
    var r' := r + b;
    forall q | 0 <= q <= |ins|
      ensures Depth(b, 0, q) == 0
    {
      NeutralDepth(b, 0, q);
    }
    DepthSplit(b, 0, |ins|, |b|);
    assert Depth(b, |ins|, |b|) == Depth(b, |ins|, |ins| + 1);
    DepthConcat(r, b, |b|);
    forall p | 0 <= p <= |r'|
      ensures Depth(r', 0, p) >= 0
    {
      if p <= |r| {
        DepthPrefix(r, b, p);
      } else {
        DepthConcat(r, b, p - |r|);
      }
    }
  }

  /** The edit of a stretch has the stretch's depth and never dips below where it did not. */
  lemma {:induction false} EditDepth(pr: Probe, s: seq<Tok>, lo: nat, hi: nat)
    requires lo <= hi <= |s| && forall q | lo <= q <= hi :: Depth(s, lo, q) >= 0
    ensures var r := Edit(pr, s, lo, hi); NeverNegative(r) && Depth(r, 0, |r|) == Depth(s, lo, hi)
    decreases hi - lo
  {
    if lo < hi {
      EditDepth(pr, s, lo, hi - 1);
      InsertedNeutral(pr, s, hi - 1);
      DepthSplit(s, lo, hi - 1, hi);
      assert Depth(s, hi - 1, hi) == Depth(s, hi - 1, hi - 1 + 1);
      assert Depth(s, lo, hi) >= 0;
      AppendOne(Edit(pr, s, lo, hi - 1), Inserted(pr, s, hi - 1), s[hi - 1], Depth(s, lo, hi));
    }
  }

  lemma {:induction false} KernelShape(k: Piece)
    requires k.Kernel?
    ensures var s, h := Flat(k), 1 + |k.head|;
            && |s| == h + 2 + |k.body| && s[0] == Entry(k.name) && s[1..h] == k.head && s[h] == Open
            && s[h + 1..|s| - 1] == k.body && s[|s| - 1] == Close
  {
  }

  /** The fixed lexemes of a section stay; the stretches between them are edited on their own. */
  lemma {:induction false} EditAround(pr: Probe, s: seq<Tok>, h: nat)
    requires IsSection(s, h)
    ensures Edit(pr, s, 0, |s|)
         == [s[0]] + Edit(pr, s, 1, h) + [s[h]] + Edit(pr, s, h + 1, |s| - 1) + [s[|s| - 1]]
  {
    var n := |s|;
    EditOne(pr, s, 0);
    EditOne(pr, s, h);
    EditOne(pr, s, n - 1);
    EditSplit(pr, s, 0, 1, h);
    EditSplit(pr, s, 0, h, h + 1);
    EditSplit(pr, s, 0, h + 1, n - 1);
    EditSplit(pr, s, 0, n - 1, n);
  }

  lemma {:induction false} EditedBody(pr: Probe, s: seq<Tok>, lo: nat, hi: nat)
    requires lo <= hi <= |s| && Balanced(s[lo..hi]) && NoEntry(s[lo..hi])
    ensures Balanced(Edit(pr, s, lo, hi)) && NoEntry(Edit(pr, s, lo, hi))
  {
    var body := s[lo..hi];
    forall q | lo <= q <= hi
      ensures Depth(s, lo, q) == Depth(body, 0, q - lo)
    {
      DepthSlice(s, body, lo, 0, q - lo);
    }
    EditDepth(pr, s, lo, hi);
    EditNoEntry(pr, s, lo, hi);
  }

  lemma {:induction false} AsKernel(x: Tok, head: seq<Tok>, y: Tok, body: seq<Tok>, z: Tok)
    requires x.Entry? && y.Open? && z.Close?
    ensures [x] + head + [y] + body + [z] == Flat(Kernel(x.name, head, body))
  {
  }

  /** Editing a section edits its head and body and keeps its shape. */
  lemma {:induction false} EditedSection(pr: Probe, s: seq<Tok>, h: nat)
    requires IsSection(s, h)
    ensures Edit(pr, s, 0, |s|) == Flat(EditedPiece(pr, s, h))
  {
    EditAround(pr, s, h);
    AsKernel(s[0], Edit(pr, s, 1, h), s[h], Edit(pr, s, h + 1, |s| - 1), s[|s| - 1]);
  }

  lemma {:induction false} EditedWellFormed(pr: Probe, s: seq<Tok>, h: nat)
    requires IsSection(s, h) && AllNeutral(s[1..h]) && Balanced(s[h + 1..|s| - 1]) && NoEntry(s[h + 1..|s| - 1])
    ensures SoundKernel(EditedPiece(pr, s, h))
  {
    EditNeutral(pr, s, 1, h);
    EditedBody(pr, s, h + 1, |s| - 1);
  }

  // ----- scanning a piece inside a text -----

  lemma {:induction false} ScanSkips(t: seq<Tok>, i: nat, n: nat, depth: nat)
    requires i <= n <= |t| && NoBraces(t, i, n)
    ensures ScanEnd(t, i, depth) == ScanEnd(t, n, depth)
    decreases n - i
  {
    if i < n {
      ScanSkips(t, i + 1, n, depth);
    }
  }

  lemma {:induction false} ScanThrough(t: seq<Tok>, i: nat, n: nat, depth: nat)
    requires i <= n <= |t| && depth >= 1
    requires forall q | i <= q <= n :: depth + Depth(t, i, q) >= 1
    ensures ScanEnd(t, i, depth) == ScanEnd(t, n, depth + Depth(t, i, n))
    decreases n - i
  {
    if i < n {
      DepthSplit(t, i, n - 1, n);
      assert Depth(t, n - 1, n) == Depth(t, n - 1, n - 1 + 1);
      ScanThrough(t, i, n - 1, depth);
      assert depth + Depth(t, i, n) >= 1;
    }
  }

  lemma {:induction false} HeadScan(t: seq<Tok>, off: nat, k: Piece)
    requires SoundKernel(k) && off + |Flat(k)| <= |t| && t[off..off + |Flat(k)|] == Flat(k)
    ensures ScanEnd(t, off, 0) == ScanEnd(t, off + 1 + |k.head| + 1, 1)
  {
    var s, h := Flat(k), 1 + |k.head|;
    KernelShape(k);
    forall y | off <= y <= off + h
      ensures if y < off + h then !Brace(t[y]) else t[y] == Open
    {
      assert t[y] == s[y - off];
      assert off < y < off + h ==> s[y - off] == k.head[y - off - 1];
    }
    ScanSkips(t, off, off + h, 0);
  }

  lemma {:induction false} BodyScan(t: seq<Tok>, b: nat, body: seq<Tok>)
    requires Balanced(body) && b + |body| < |t| && t[b..b + |body|] == body && t[b + |body|] == Close
    ensures ScanEnd(t, b, 1) == Some(b + |body| + 1)
  {
    forall q | b <= q <= b + |body|
      ensures Depth(t, b, q) == Depth(body, 0, q - b)
    {
      DepthSlice(t, body, b, 0, q - b);
    }
    ScanThrough(t, b, b + |body|, 1);
  }

  lemma {:induction false} SliceOf(t: seq<Tok>, off: nat, s: seq<Tok>, i: nat, j: nat)
    requires off + |s| <= |t| && t[off..off + |s|] == s && i <= j <= |s|
    ensures t[off + i..off + j] == s[i..j]
  {
    forall k | 0 <= k < j - i
      ensures t[off + i..off + j][k] == s[i..j][k]
    {
      assert t[off..off + |s|][i + k] == t[off + i + k];
    }
  }

  /** From a kernel's header the scan stops at the kernel's end. */
  lemma {:induction false} KernelScan(t: seq<Tok>, off: nat, k: Piece)
    requires SoundKernel(k) && off + |Flat(k)| <= |t| && t[off..off + |Flat(k)|] == Flat(k)
    ensures ScanEnd(t, off, 0) == Some(off + |Flat(k)|)
  {
    var s, b := Flat(k), off + |k.head| + 2;
    KernelShape(k);
    HeadScan(t, off, k);
    SliceOf(t, off, s, |k.head| + 2, |s| - 1);
    assert t[b + |k.body|] == t[off..off + |s|][|s| - 1];
    BodyScan(t, b, k.body);
  }

  // ----- the same on pieces -----

  ghost predicate FirstNamed(ps: seq<Piece>, target: string, j: nat) {
    j < |ps| && Named(ps[j], target) && forall i | 0 <= i < j :: !Named(ps[i], target)
  }

  /** The structural edit: the first kernel of that name edited, the probe in front, all else as it was. */
  ghost predicate PatchedPieces(ps: seq<Piece>, target: string, pr: Probe, compiled: seq<Tok>, ps': seq<Piece>) {
    && ((forall i | 0 <= i < |ps| :: !Named(ps[i], target)) ==> ps' == ps)
    && forall j: nat | FirstNamed(ps, target, j) :: ps' == EditAt(ps, j, pr, compiled)
  }

  lemma {:induction false} JoinSplit(f: Piece -> seq<Tok>, ps: seq<Piece>, lo: nat, mid: nat, hi: nat)
    requires lo <= mid <= hi <= |ps|
    ensures Join(f, ps, lo, hi) == Join(f, ps, lo, mid) + Join(f, ps, mid, hi)
    decreases hi - mid
  {
    if mid < hi {
      JoinSplit(f, ps, lo, mid, hi - 1);
      Regroup(Join(f, ps, lo, mid), Join(f, ps, mid, hi - 1), f(ps[hi - 1]));
    }
  }

  lemma {:induction false} JoinSame(f: Piece -> seq<Tok>, ps: seq<Piece>, lo: nat, qs: seq<Piece>, lo': nat, n: nat)
    requires lo + n <= |ps| && lo' + n <= |qs| && ps[lo..lo + n] == qs[lo'..lo' + n]
    ensures Join(f, ps, lo, lo + n) == Join(f, qs, lo', lo' + n)
    decreases n
  {
    if n > 0 {
      var m := n - 1;
      SliceInit(ps, lo, qs, lo', m);
      JoinSame(f, ps, lo, qs, lo', m);
      JoinLast(f, ps, lo, lo + n);
      JoinLast(f, qs, lo', lo' + n);
    }
  }

  lemma {:induction false} JoinLast(f: Piece -> seq<Tok>, ps: seq<Piece>, lo: nat, hi: nat)
    requires lo < hi <= |ps|
    ensures Join(f, ps, lo, hi) == Join(f, ps, lo, hi - 1) + f(ps[hi - 1])
  {
  }

  lemma {:induction false} SliceInit(ps: seq<Piece>, lo: nat, qs: seq<Piece>, lo': nat, m: nat)
    requires lo + m < |ps| && lo' + m < |qs| && ps[lo..lo + m + 1] == qs[lo'..lo' + m + 1]
    ensures ps[lo..lo + m] == qs[lo'..lo' + m] && ps[lo + m] == qs[lo' + m]
  {
    var a, b := ps[lo..lo + m + 1], qs[lo'..lo' + m + 1];
    assert ps[lo..lo + m] == a[..m] && qs[lo'..lo' + m] == b[..m];
    assert ps[lo + m] == a[m] && qs[lo' + m] == b[m];
  }

  lemma {:induction false} JoinOne(f: Piece -> seq<Tok>, ps: seq<Piece>, j: nat)
    requires j < |ps|
    ensures Join(f, ps, j, j + 1) == f(ps[j])
  {
    assert Join(f, ps, j, j) == [];
  }

  lemma {:induction false} JoinAround(f: Piece -> seq<Tok>, ps: seq<Piece>, j: nat)
    requires j < |ps|
    ensures Join(f, ps, 0, |ps|) == Join(f, ps, 0, j) + f(ps[j]) + Join(f, ps, j + 1, |ps|)
  {
    JoinSplit(f, ps, 0, j + 1, |ps|);
  }

  /** The text of pieces with one in front and piece `j` replaced. */
  lemma {:induction false} JoinReplaced(f: Piece -> seq<Tok>, ps: seq<Piece>, j: nat, ps': seq<Piece>)
    requires j < |ps| && |ps'| == |ps| + 1 && ps'[1..1 + j] == ps[0..0 + j]
    requires var n := |ps| - (j + 1); ps'[j + 2..j + 2 + n] == ps[j + 1..j + 1 + n]
    ensures Join(f, ps', 0, |ps'|)
         == f(ps'[0]) + Join(f, ps, 0, j) + f(ps'[j + 1]) + Join(f, ps, j + 1, |ps|)
  {
    var n, a := |ps| - (j + 1), j + 1;
    JoinAround(f, ps', a);
    JoinSplit(f, ps', 0, 1, a);
    JoinOne(f, ps', 0);
    JoinSame(f, ps, 0, ps', 1, j);
    JoinSame(f, ps, a, ps', a + 1, n);
  }

  lemma {:induction false} OnlyHeader(p: Piece, names: set<string>, x: nat)
    requires WellFormed(p, names) && x < |Flat(p)| && Flat(p)[x].Entry? && Flat(p)[x].name in names
    ensures p.Kernel? && x == 0 && p.name == Flat(p)[x].name
  {
    if p.Kernel? {
      var s, h := Flat(p), 1 + |p.head|;
      KernelShape(p);
      forall y | 0 < y < |s|
        ensures !s[y].Entry?
      {
        if y < h {
          assert s[y] == s[1..h][y - 1];
        } else if h < y < |s| - 1 {
          assert s[y] == s[h + 1..|s| - 1][y - h - 1];
        }
      }
    }
  }

  /** Headers of interest in a text of pieces stand exactly at its kernels. */
  lemma {:induction false} HeaderIsKernel(ps: seq<Piece>, names: set<string>, n: nat, i: nat) returns (j: nat)
    requires AllWellFormed(ps, names) && n <= |ps| && i < |Text(ps, 0, n)|
    requires Text(ps, 0, n)[i].Entry? && Text(ps, 0, n)[i].name in names
    ensures j < n && ps[j].Kernel? && i == |Text(ps, 0, j)| && ps[j].name == Text(ps, 0, n)[i].name
    decreases n
  {
    var before := Text(ps, 0, n - 1);
    if i < |before| {
      j := HeaderIsKernel(ps, names, n - 1, i);
    } else {
      j := n - 1;
      OnlyHeader(ps[n - 1], names, i - |before|);
    }
  }

  /** `b` is followed in `t` by the section `s` and then by `rest`. */
  ghost predicate SectionAt(t: seq<Tok>, b: nat, s: seq<Tok>, rest: seq<Tok>) {
    b + |s| <= |t| && t[b..b + |s|] == s && t[b + |s|..] == rest
  }

  lemma {:induction false} PartsAt(t: seq<Tok>, a: seq<Tok>, s: seq<Tok>, rest: seq<Tok>)
    requires t == a + s + rest
    ensures SectionAt(t, |a|, s, rest) && t[..|a|] == a
    ensures |s| > 0 ==> t[|a|] == s[0]
  {
  }

  lemma {:induction false} KernelHasHeader(ps: seq<Piece>, j: nat)
    requires j < |ps| && ps[j].Kernel?
    ensures var t, a := Text(ps, 0, |ps|), Text(ps, 0, j);
            && SectionAt(t, |a|, Flat(ps[j]), Text(ps, j + 1, |ps|)) && t[..|a|] == a
            && t[|a|] == Entry(ps[j].name)
  {
    JoinAround(Flat, ps, j);
    KernelShape(ps[j]);
    PartsAt(Text(ps, 0, |ps|), Text(ps, 0, j), Flat(ps[j]), Text(ps, j + 1, |ps|));
  }

  /** The first header of a name stands at the first kernel of that name. */
  lemma {:induction false} FirstHeader(ps: seq<Piece>, names: set<string>, target: string, j: nat)
    requires AllWellFormed(ps, names) && FirstNamed(ps, target, j) && target in names
    ensures IsFirst(Text(ps, 0, |ps|), target, |Text(ps, 0, j)|)
  {
    KernelHasHeader(ps, j);
    var t, a := Text(ps, 0, |ps|), Text(ps, 0, j);
    forall i | 0 <= i < |a|
      ensures t[i] != Entry(target)
    {
      assert t[i] == a[i];
      if a[i].Entry? && a[i].name in names {
        var l := HeaderIsKernel(ps, names, j, i);
        assert !Named(ps[l], target);
      }
    }
  }

  lemma {:induction false} NoHeader(ps: seq<Piece>, names: set<string>, target: string)
    requires AllWellFormed(ps, names) && target in names && forall i | 0 <= i < |ps| :: !Named(ps[i], target)
    ensures Entry(target) !in Text(ps, 0, |ps|)
  {
    var t := Text(ps, 0, |ps|);
    forall i | 0 <= i < |t|
      ensures t[i] != Entry(target)
    {
      if t[i].Entry? && t[i].name in names {
        var l := HeaderIsKernel(ps, names, |ps|, i);
        assert !Named(ps[l], target);
      }
    }
  }

  lemma {:induction false} FirstNamedIndex(ps: seq<Piece>, target: string) returns (j: nat)
    requires exists i :: 0 <= i < |ps| && Named(ps[i], target)
    ensures FirstNamed(ps, target, j)
  {
    j := 0;
    while !Named(ps[j], target)
      invariant j < |ps| && forall i | 0 <= i < j :: !Named(ps[i], target)
      decreases |ps| - j
    {
      j := j + 1;
    }
  }

  /** The structural edit of piece `j`, the probe in front. */
  ghost function EditAt(ps: seq<Piece>, j: nat, pr: Probe, compiled: seq<Tok>): seq<Piece>
    requires j < |ps| && ps[j].Kernel?
  {
    [Plain(compiled + [Space("\n")])] + ps[..j] + [EditKernel(pr, ps[j])] + ps[j + 1..]
  }

  lemma {:induction false} EditAtText(ps: seq<Piece>, j: nat, pr: Probe, compiled: seq<Tok>)
    requires j < |ps| && ps[j].Kernel?
    ensures var ps' := EditAt(ps, j, pr, compiled);
            Text(ps', 0, |ps'|) == compiled + [Space("\n")] + Text(ps, 0, j) + Flat(EditKernel(pr, ps[j]))
                                 + Text(ps, j + 1, |ps|)
  {
    Around(ps, j, Plain(compiled + [Space("\n")]), EditKernel(pr, ps[j]));
    JoinReplaced(Flat, ps, j, EditAt(ps, j, pr, compiled));
  }

  lemma {:induction false} Around(ps: seq<Piece>, j: nat, front: Piece, k: Piece)
    requires j < |ps|
    ensures var ps', n := [front] + ps[..j] + [k] + ps[j + 1..], |ps| - (j + 1);
            && |ps'| == |ps| + 1 && ps'[0] == front && ps'[1..1 + j] == ps[0..0 + j] && ps'[j + 1] == k
            && ps'[j + 2..j + 2 + n] == ps[j + 1..j + 1 + n]
  {
  }

  lemma {:induction false} EditAtWellFormed(ps: seq<Piece>, names: set<string>, j: nat, pr: Probe, compiled: seq<Tok>)
    requires AllWellFormed(ps, names) && NoEntry(compiled) && j < |ps| && ps[j].Kernel?
    ensures AllWellFormed(EditAt(ps, j, pr, compiled), names)
  {
    KernelShape(ps[j]);
    assert WellFormed(ps[j], names);
    EditedWellFormed(pr, Flat(ps[j]), 1 + |ps[j].head|);
  }

  lemma {:induction false} EditedFlat(pr: Probe, k: Piece)
    requires k.Kernel?
    ensures Edit(pr, Flat(k), 0, |Flat(k)|) == Flat(EditKernel(pr, k))
  {
    KernelShape(k);
    EditedSection(pr, Flat(k), 1 + |k.head|);
  }

  /** The flat splice, at offsets found in the flat text, is the structural edit. */
  lemma {:induction false} SplicedKernel(ps: seq<Piece>, names: set<string>, j: nat, pr: Probe, compiled: seq<Tok>,
                                         t: seq<Tok>, t': seq<Tok>)
    requires AllWellFormed(ps, names) && t == Text(ps, 0, |ps|) && j < |ps| && ps[j].Kernel?
    requires FirstNamed(ps, ps[j].name, j)
    requires ScansTo(t, ps[j].name) && Patched(t, ps[j].name, pr, compiled, t')
    ensures var ps' := EditAt(ps, j, pr, compiled); t' == Text(ps', 0, |ps'|)
  {
    var a, s, rest := Text(ps, 0, j), Flat(ps[j]), Text(ps, j + 1, |ps|);
    assert WellFormed(ps[j], names);
    FirstHeader(ps, names, ps[j].name, j);
    KernelHasHeader(ps, j);
    KernelScan(t, |a|, ps[j]);
    SplicedText(t, ps[j].name, pr, compiled, t', a, s, rest);
    EditedFlat(pr, ps[j]);
    EditAtText(ps, j, pr, compiled);
  }

  lemma {:induction false} SplicedText(t: seq<Tok>, target: string, pr: Probe, compiled: seq<Tok>, t': seq<Tok>,
                                       a: seq<Tok>, s: seq<Tok>, rest: seq<Tok>)
    requires ScansTo(t, target) && Patched(t, target, pr, compiled, t') && IsFirst(t, target, |a|)
    requires t[..|a|] == a && SectionAt(t, |a|, s, rest) && ScanEnd(t, |a|, 0) == Some(|a| + |s|)
    ensures t' == compiled + [Space("\n")] + a + Edit(pr, s, 0, |s|) + rest
  {
    PatchedAt(t, target, pr, compiled, t', |a|, |a| + |s|, s);
    SpliceParts(t, a, s, rest, Edit(pr, s, 0, |s|), compiled);
  }

  lemma {:induction false} SpliceParts(t: seq<Tok>, a: seq<Tok>, s: seq<Tok>, rest: seq<Tok>, section: seq<Tok>,
                                       compiled: seq<Tok>)
    requires SectionAt(t, |a|, s, rest) && t[..|a|] == a
    ensures Splice(t, |a|, |a| + |s|, section, compiled) == compiled + [Space("\n")] + a + section + rest
  {
    Pasted(compiled + [Space("\n")], a, section, rest);
  }

  lemma {:induction false} Pasted(f: seq<Tok>, a: seq<Tok>, s: seq<Tok>, c: seq<Tok>)
    ensures f + a + s + c == f + (a + s + c)
  {
  }

  lemma {:induction false} FirstIsPatched(ps: seq<Piece>, target: string, j: nat, pr: Probe, compiled: seq<Tok>)
    requires FirstNamed(ps, target, j)
    ensures PatchedPieces(ps, target, pr, compiled, EditAt(ps, j, pr, compiled))
  {
    forall i: nat | FirstNamed(ps, target, i)
      ensures i == j
    {
    }
  }

  lemma {:induction false} SpliceIsStructural(ps: seq<Piece>, names: set<string>, target: string, pr: Probe,
                                              compiled: seq<Tok>, t: seq<Tok>, t': seq<Tok>) returns (ps': seq<Piece>)
    requires AllWellFormed(ps, names) && target in names && NoEntry(compiled) && t == Text(ps, 0, |ps|)
    requires ScansTo(t, target) && Patched(t, target, pr, compiled, t')
    ensures t' == Text(ps', 0, |ps'|) && PatchedPieces(ps, target, pr, compiled, ps') && AllWellFormed(ps', names)
  {
    if forall i | 0 <= i < |ps| :: !Named(ps[i], target) {
      ps' := ps;
      NoHeader(ps, names, target);
    } else {
      var j := FirstNamedIndex(ps, target);
      ps' := EditAt(ps, j, pr, compiled);
      SplicedKernel(ps, names, j, pr, compiled, t, t');
      EditAtWellFormed(ps, names, j, pr, compiled);
      FirstIsPatched(ps, target, j, pr, compiled);
    }
  }

  // ----- a text with its own sections is made of pieces -----

  /** What the scan takes for the kernel at `i` holds no other header. */
  ghost predicate OwnSection(t: seq<Tok>, i: nat) {
    exists e: nat :: ScanEnd(t, i, 0) == Some(e) && i < e <= |t| && NoEntry(t[i + 1..e])
  }

  ghost predicate OwnSections(t: seq<Tok>, names: set<string>) {
    forall i: nat | i < |t| && t[i].Entry? && t[i].name in names :: OwnSection(t, i)
  }

  lemma {:induction false} FirstBrace(t: seq<Tok>, b: nat, e: nat) returns (k: nat)
    requires b < |t| && MatchEnd(t, b, 0, e) && !Brace(t[b])
    ensures b < k < e - 1 && t[k].Open? && NoBraces(t, b, k)
  {
    k := b;
    while !Brace(t[k])
      invariant b <= k < e && NoBraces(t, b, k)
      decreases e - k
    {
      k := k + 1;
    }
    NeutralDepth(t, b, k);
    DepthSplit(t, b, k, k + 1);
    assert Depth(t, k, k + 1) == (if t[k].Open? then 1 else -1) + Depth(t, k + 1, k + 1);
    assert k + 1 < e ==> Inside(t, b, 0, k + 1);
  }

  lemma {:induction false} DepthFrom(t: seq<Tok>, b: nat, k: nat)
    requires b <= k < |t| && t[k].Open?
    ensures Depth(t, b, k + 1) == Depth(t, b, k) + 1
  {
    DepthSplit(t, b, k, k + 1);
    assert Depth(t, k, k + 1) == 1 + Depth(t, k + 1, k + 1);
  }

  /** The section of a header with no other header in it is a kernel. */
  lemma {:induction false} SectionIsKernel(t: seq<Tok>, b: nat, e: nat) returns (p: Piece)
    requires b < |t| && t[b].Entry? && MatchEnd(t, b, 0, e) && NoEntry(t[b + 1..e])
    ensures SoundKernel(p) && p.name == t[b].name && Flat(p) == t[b..e]
  {
    var k := FirstBrace(t, b, e);
    NeutralDepth(t, b, k);
    DepthFrom(t, b, k);
    BodyInside(t, b, k, e);
    p := Kernel(t[b].name, t[b + 1..k], t[k + 1..e - 1]);
    HeadNeutral(t, b, k, e);
    assert t[e - 1] == Close && t[k] == Open && t[b] == Entry(t[b].name);
    assert Flat(p) == t[b..e];
  }

  lemma {:induction false} HeadNeutral(t: seq<Tok>, b: nat, k: nat, e: nat)
    requires b < k < e - 1 && e <= |t| && NoBraces(t, b, k) && NoEntry(t[b + 1..e])
    ensures AllNeutral(t[b + 1..k]) && NoEntry(t[k + 1..e - 1])
  {
    var own := t[b + 1..e];
    forall j | b < j < e
      ensures !t[j].Entry?
    {
      assert t[j] == own[j - b - 1];
    }
  }

  /** Strictly between the braces the depth never comes down. */
  lemma {:induction false} BodyInside(t: seq<Tok>, b: nat, k: nat, e: nat)
    requires b < k && k + 1 < e <= |t| && t[k].Open? && MatchEnd(t, b, 0, e) && Depth(t, b, k + 1) == 1
    ensures Balanced(t[k + 1..e - 1])
  {
    var body := t[k + 1..e - 1];
    forall q | 0 <= q <= |body|
      ensures Depth(body, 0, q) >= 0 && Depth(t, b, k + 1 + q) == 1 + Depth(body, 0, q)
    {
      DepthSlice(t, body, k + 1, 0, q);
      DepthSplit(t, b, k + 1, k + 1 + q);
      assert Inside(t, b, 0, k + 1 + q) && Brace(t[k]);
    }
    DepthSplit(t, b, e - 1, e);
    assert Depth(t, e - 1, e) == -1 + Depth(t, e, e);
  }

  lemma {:induction false} FirstOf(t: seq<Tok>, names: set<string>) returns (b: nat)
    ensures b <= |t| && NoneNamed(t[..b], names) && (b < |t| ==> t[b].Entry? && t[b].name in names)
  {
    b := 0;
    while b < |t| && !(t[b].Entry? && t[b].name in names)
      invariant b <= |t| && NoneNamed(t[..b], names)
    {
      b := b + 1;
    }
  }

  lemma {:induction false} ScanShift(t: seq<Tok>, e: nat, i: nat, depth: nat)
    requires e <= |t|
    ensures ScanEnd(t, e + i, depth)
         == match ScanEnd(t[e..], i, depth) case None => None case Some(x) => Some(e + x)
    decreases |t| - e - i
  {
    if e + i < |t| {
      var u := t[e..];
      assert u[i] == t[e + i];
      if t[e + i].Open? {
        ScanShift(t, e, i + 1, depth + 1);
      } else if t[e + i].Close? {
        if depth > 1 {
          ScanShift(t, e, i + 1, depth - 1);
        }
      } else {
        ScanShift(t, e, i + 1, depth);
      }
    }
  }

  lemma {:induction false} SliceShift(t: seq<Tok>, e: nat, i: nat, x: nat)
    requires e + i < x <= |t|
    ensures t[e..][i + 1..x - e] == t[e + i + 1..x]
  {
  }

  lemma {:induction false} RestScans(t: seq<Tok>, names: set<string>, e: nat)
    requires e <= |t| && OwnSections(t, names)
    ensures OwnSections(t[e..], names)
  {
    var u := t[e..];
    forall i: nat | i < |u| && u[i].Entry? && u[i].name in names
      ensures OwnSection(u, i)
    {
      var k := e + i;
      assert u[i] == t[k];
      ScanShift(t, e, i, 0);
      assert OwnSection(t, k);
      var x: nat :| ScanEnd(t, k, 0) == Some(x) && k < x <= |t| && NoEntry(t[k + 1..x]);
      SliceShift(t, e, i, x);
      assert ScanEnd(u, i, 0) == Some(x - e) && NoEntry(u[i + 1..x - e]);
    }
  }

  /** Every text whose headers of interest each scan to a section of their own is made of pieces. */
  lemma {:induction false} Parsed(t: seq<Tok>, names: set<string>) returns (ps: seq<Piece>)
    requires OwnSections(t, names)
    ensures AllWellFormed(ps, names) && Text(ps, 0, |ps|) == t
    decreases |t|
  {
    var b := FirstOf(t, names);
    var plain := Plain(t[..b]);
    if b == |t| {
      ps := [plain];
      JoinOne(Flat, ps, 0);
      assert t[..b] == t;
    } else {
      assert OwnSection(t, b);
      var e: nat :| ScanEnd(t, b, 0) == Some(e) && b < e <= |t| && NoEntry(t[b + 1..e]);
      ScanFindsMatch(t, b, 0, e);
      var kernel := SectionIsKernel(t, b, e);
      RestScans(t, names, e);
      var rest := Parsed(t[e..], names);
      ps := [plain, kernel] + rest;
      TextOfThree(plain, kernel, rest);
      ThreeParts(t, b, e);
    }
  }

  lemma {:induction false} TextOfThree(x: Piece, y: Piece, rest: seq<Piece>)
    ensures var ps := [x, y] + rest; Text(ps, 0, |ps|) == Flat(x) + Flat(y) + Text(rest, 0, |rest|)
  {
    var ps := [x, y] + rest;
    JoinAround(Flat, ps, 1);
    JoinOne(Flat, ps, 0);
    TextOfRest([x, y], rest);
  }

  lemma {:induction false} TextOfRest(front: seq<Piece>, rest: seq<Piece>)
    ensures Join(Flat, front + rest, |front|, |front + rest|) == Text(rest, 0, |rest|)
  {
    var ps, n := front + rest, |front|;
    assert rest[0..0 + |rest|] == ps[n..n + |rest|];
    JoinSame(Flat, rest, 0, ps, n, |rest|);
  }

  // ----- all targets -----

  /** A history of structural edits, one per target, in order. */
  ghost predicate EditedInTurn(history: seq<seq<Piece>>, targets: seq<string>, isRet: bool,
                               compile: Probe -> seq<Tok>) {
    && |history| == |targets| + 1
    && forall k | 0 <= k < |targets| :: StructuralTurn(history[k], targets[k], isRet, compile, history[k + 1])
  }

  ghost predicate StructuralTurn(ps: seq<Piece>, target: string, isRet: bool, compile: Probe -> seq<Tok>,
                                 ps': seq<Piece>) {
    var pr := ProbeFor(target, isRet);
    PatchedPieces(ps, target, pr, compile(pr), ps')
  }

  ghost predicate IsTextOf(t: seq<Tok>, ps: seq<Piece>, names: set<string>) {
    AllWellFormed(ps, names) && t == Text(ps, 0, |ps|)
  }

  /** `t'` is `t` with, target after target, the first kernel of that name edited and the probe in front, and
      nothing else changed. */
  ghost predicate OnlyNamedKernels(t: seq<Tok>, targets: seq<string>, isRet: bool, compile: Probe -> seq<Tok>,
                                   t': seq<Tok>) {
    var names := set x | x in targets;
    exists history :: && EditedInTurn(history, targets, isRet, compile)
                      && IsTextOf(t, history[0], names) && IsTextOf(t', history[|targets|], names)
  }

  lemma {:induction false} NextEdited(history: seq<seq<Piece>>, targets: seq<string>, k: nat, isRet: bool,
                                      compile: Probe -> seq<Tok>, ps': seq<Piece>)
    requires k < |targets| && EditedInTurn(history, targets[..k], isRet, compile)
    requires StructuralTurn(history[k], targets[k], isRet, compile, ps')
    ensures EditedInTurn(history + [ps'], targets[..k + 1], isRet, compile)
  {
    var more, upto := history + [ps'], targets[..k + 1];
    forall j | 0 <= j < |upto|
      ensures StructuralTurn(more[j], upto[j], isRet, compile, more[j + 1])
    {
      if j < k {
        assert StructuralTurn(history[j], targets[..k][j], isRet, compile, history[j + 1]);
      }
    }
  }

  /** The patch changes only the named kernels, as long as each of them has a section of its own. */
  lemma {:induction false} PatchIsStructural(t: seq<Tok>, targets: seq<string>, isRet: bool, compile: Probe -> seq<Tok>,
                                             t': seq<Tok>)
    requires OwnSections(t, set x | x in targets) && forall pr :: NoEntry(compile(pr))
    requires PatchedText(t, targets, isRet, compile, t')
    ensures OnlyNamedKernels(t, targets, isRet, compile, t')
  {
    var names := set x | x in targets;
    var texts :| InTurn(texts, targets, isRet, compile) && texts[0] == t && texts[|targets|] == t';
    var ps := Parsed(t, names);
    var history := [ps];
    for k := 0 to |targets|
      invariant |history| == k + 1 && history[k] == ps
      invariant IsTextOf(texts[k], ps, names) && IsTextOf(t, history[0], names)
      invariant EditedInTurn(history, targets[..k], isRet, compile)
    {
      var pr := ProbeFor(targets[k], isRet);
      assert Turn(texts[k], targets[k], isRet, compile, texts[k + 1]);
      var next := SpliceIsStructural(ps, names, targets[k], pr, compile(pr), texts[k], texts[k + 1]);
      NextEdited(history, targets, k, isRet, compile, next);
      ps, history := next, history + [next];
    }
    assert targets[..|targets|] == targets;
  }

  // ----- balanced texts -----

  /** The header at `i` has its parameters' and attributes' lexemes, then its body's opening brace, at `k`. */
  ghost predicate OpensAt(t: seq<Tok>, i: nat, k: nat) {
    i < k < |t| && t[k].Open? && AllNeutral(t[i + 1..k])
  }

  ghost predicate HasBody(t: seq<Tok>, i: nat) {
    exists k: nat :: OpensAt(t, i, k)
  }

  /** Balanced braces, with every header outside them. */
  ghost predicate TopLevel(t: seq<Tok>) {
    Balanced(t) && forall i: nat | i < |t| && t[i].Entry? :: Depth(t, 0, i) == 0
  }

  /** In a balanced text a header with a brace after it scans, and to a section of its own if and only if it
      has a body of its own. */
  lemma {:induction false} OwnSectionIff(t: seq<Tok>, i: nat, k: nat)
    requires TopLevel(t) && i < k < |t| && t[i].Entry? && Brace(t[k])
    ensures ScanEnd(t, i, 0).Some? && (OwnSection(t, i) <==> HasBody(t, i))
  {
    BalancedTextScans(t, i, k);
    ScanInRange(t, i, 0);
    var e := ScanEnd(t, i, 0).value;
    ScanFindsMatch(t, i, 0, e);
    var b := FirstBrace(t, i, e);
    if OwnSection(t, i) {
      HeadNeutral(t, i, b, e);
      assert OpensAt(t, i, b);
    }
    if HasBody(t, i) {
      var o: nat :| OpensAt(t, i, o);
      SectionHasNoOther(t, i, b, o, e);
      assert NoEntry(t[i + 1..e]);
    }
  }

  lemma {:induction false} SectionHasNoOther(t: seq<Tok>, i: nat, b: nat, o: nat, e: nat)
    requires TopLevel(t) && i < |t| && t[i].Entry? && MatchEnd(t, i, 0, e) && OpensAt(t, i, o)
    requires i < b < e - 1 && t[b].Open? && NoBraces(t, i, b)
    ensures NoEntry(t[i + 1..e])
  {
    var head := t[i + 1..o];
    forall j | i < j < o
      ensures Neutral(t[j])
    {
      assert t[j] == head[j - i - 1];
    }
    assert b == o;
    NeutralDepth(t, i, b);
    DepthFrom(t, i, b);
    forall j | b < j < e
      ensures !t[j].Entry?
    {
      assert Inside(t, i, 0, j) && Brace(t[b]);
      DepthSplit(t, 0, i, j);
      assert Depth(t, 0, i) == 0 && Depth(t, 0, j) >= 1;
    }
  }

  // ----- a header without a body -----

  lemma {:induction false} EditLeft(pr: Probe, a: seq<Tok>, b: seq<Tok>, n: nat)
    requires n <= |a| && b != [] && b[0].Entry?
    ensures Edit(pr, a + b, 0, n) == Edit(pr, a, 0, n)
  {
    if n > 0 {
      EditLeft(pr, a, b, n - 1);
      assert Inserted(pr, a + b, n - 1) == Inserted(pr, a, n - 1);
    }
  }

  lemma {:induction false} EditRight(pr: Probe, a: seq<Tok>, b: seq<Tok>, n: nat)
    requires n <= |b| && b != [] && b[0].Entry?
    ensures Edit(pr, a + b, |a|, |a| + n) == Edit(pr, b, 0, n)
  {
    if n > 0 {
      EditRight(pr, a, b, n - 1);
      InsertedRight(pr, a, b, n - 1);
    }
  }

  lemma {:induction false} InsertedRight(pr: Probe, a: seq<Tok>, b: seq<Tok>, i: nat)
    requires i < |b| && b[0].Entry?
    ensures (a + b)[|a| + i] == b[i] && Inserted(pr, a + b, |a| + i) == Inserted(pr, b, i)
  {
    var t, j := a + b, |a| + i;
    assert t[j] == b[i] && (i > 0 ==> t[j - 1] == b[i - 1]) && (i + 1 < |b| ==> t[j + 1] == b[i + 1]);
  }

  /** In front of a header the edit looks no further. */
  lemma {:induction false} EditConcat(pr: Probe, a: seq<Tok>, b: seq<Tok>)
    requires b != [] && b[0].Entry?
    ensures Edit(pr, a + b, 0, |a + b|) == Edit(pr, a, 0, |a|) + Edit(pr, b, 0, |b|)
  {
    EditSplit(pr, a + b, 0, |a|, |a + b|);
    EditLeft(pr, a, b, |a|);
    EditRight(pr, a, b, |b|);
  }

  /** A scan from in front of a kernel, with no brace before it, stops at the kernel's end. */
  lemma {:induction false} ScanOver(t: seq<Tok>, off: nat, s: seq<Tok>, n: nat, k: Piece)
    requires n <= |s| && NoBraces(s, 0, n) && SoundKernel(k) && s[n..] == Flat(k)
    requires off + |s| <= |t| && t[off..off + |s|] == s
    ensures ScanEnd(t, off, 0) == Some(off + |s|)
  {
    SliceOf(t, off, s, n, |s|);
    KernelScan(t, off + n, k);
    SliceNoBraces(t, off, s, n);
    ScanSkips(t, off, off + n, 0);
  }

  lemma {:induction false} SliceNoBraces(t: seq<Tok>, off: nat, s: seq<Tok>, n: nat)
    requires n <= |s| && off + |s| <= |t| && t[off..off + |s|] == s && NoBraces(s, 0, n)
    ensures NoBraces(t, off, off + n)
  {
    forall j | off <= j < off + n
      ensures !Brace(t[j])
    {
      assert t[off..off + |s|][j - off] == t[j];
    }
  }

  /** A return the patcher hooks: one that follows white space. */
  ghost predicate ReturnsAt(body: seq<Tok>, r: nat) {
    0 < r < |body| && body[r].Ret? && body[r - 1].Space?
  }

  /** The return at `at` has a call of the probe in front of it. */
  ghost predicate HookedAt(e: seq<Tok>, func: string, at: nat) {
    2 <= at < |e| && e[at].Ret? && e[at - 2] == Call(func)
  }

  lemma {:induction false} EditHooks(pr: Probe, s: seq<Tok>, i: nat)
    requires pr.isRet && ReturnsAt(s, i)
    ensures HookedAt(Edit(pr, s, 0, |s|), pr.func, Moved(pr, s, i))
  {
    EditKeepsLexemes(pr, s, i);
    var e, at, ins := Edit(pr, s, 0, |s|), Moved(pr, s, i), Inserted(pr, s, i);
    FirstOfSlice(e, at, ins);
  }

  lemma {:induction false} FirstOfSlice(e: seq<Tok>, at: nat, ins: seq<Tok>)
    requires 0 < |ins| <= at <= |e| && e[at - |ins|..at] == ins
    ensures e[at - |ins|] == ins[0]
  {
    assert e[at - |ins|..at][0] == e[at - |ins|];
  }

  lemma {:induction false} ReturnIsHooked(pr: Probe, k: Piece, r: nat)
    requires pr.isRet && k.Kernel? && ReturnsAt(k.body, r)
    ensures HookedAt(Flat(EditKernel(pr, k)), pr.func, Moved(pr, Flat(k), |k.head| + 2 + r))
  {
    BodyReturn(k, r);
    EditHooks(pr, Flat(k), |k.head| + 2 + r);
    EditedFlat(pr, k);
  }

  lemma {:induction false} BodyReturn(k: Piece, r: nat)
    requires k.Kernel? && ReturnsAt(k.body, r)
    ensures ReturnsAt(Flat(k), |k.head| + 2 + r)
  {
    var s, b := Flat(k), |k.head| + 2;
    KernelShape(k);
    assert s[b..|s| - 1][r] == s[b + r] && s[b..|s| - 1][r - 1] == s[b + r - 1];
  }

  /** A header without a body, anywhere in a text, takes the next kernel for its own: a probe on it edits that
      kernel exactly as a probe on the kernel itself would, with a call in front of its returns. */
  lemma {:induction false} BodylessTakesNext(pre: seq<Tok>, name: string, gap: seq<Tok>, k: Piece, post: seq<Tok>,
                                             pr: Probe, compiled: seq<Tok>, t: seq<Tok>, t': seq<Tok>)
    requires Entry(name) !in pre && AllNeutral(gap) && SoundKernel(k)
    requires t == pre + ([Entry(name)] + gap + Flat(k)) + post
    requires ScansTo(t, name) && Patched(t, name, pr, compiled, t')
    ensures var front := [Entry(name)] + gap;
            t' == compiled + [Space("\n")] + pre + (Edit(pr, front, 0, |front|) + Flat(EditKernel(pr, k))) + post
    ensures forall r: nat | pr.isRet && ReturnsAt(k.body, r) ::
              HookedAt(Flat(EditKernel(pr, k)), pr.func, Moved(pr, Flat(k), |k.head| + 2 + r))
  {
    var front := [Entry(name)] + gap;
    BodylessSplice(pre, name, front, k, post, pr, compiled, t, t');
    KernelShape(k);
    EditConcat(pr, front, Flat(k));
    EditedFlat(pr, k);
    forall r: nat | pr.isRet && ReturnsAt(k.body, r)
      ensures HookedAt(Flat(EditKernel(pr, k)), pr.func, Moved(pr, Flat(k), |k.head| + 2 + r))
    {
      ReturnIsHooked(pr, k, r);
    }
  }

  lemma {:induction false} BodylessSplice(pre: seq<Tok>, name: string, front: seq<Tok>, k: Piece, post: seq<Tok>,
                                          pr: Probe, compiled: seq<Tok>, t: seq<Tok>, t': seq<Tok>)
    requires Entry(name) !in pre && NoBraces(front, 0, |front|) && SoundKernel(k) && front != []
    requires front[0] == Entry(name) && t == pre + (front + Flat(k)) + post
    requires ScansTo(t, name) && Patched(t, name, pr, compiled, t')
    ensures var s := front + Flat(k); t' == compiled + [Space("\n")] + pre + Edit(pr, s, 0, |s|) + post
  {
    var s := front + Flat(k);
    assert s[|front|..] == Flat(k) && NoBraces(s, 0, |front|);
    BodylessScan(pre, name, s, |front|, k, post, t);
    SplicedText(t, name, pr, compiled, t', pre, s, post);
  }

  lemma {:induction false} BodylessScan(pre: seq<Tok>, name: string, s: seq<Tok>, n: nat, k: Piece, post: seq<Tok>,
                                        t: seq<Tok>)
    requires Entry(name) !in pre && n < |s| && NoBraces(s, 0, n) && SoundKernel(k) && s[n..] == Flat(k)
    requires s[0] == Entry(name) && t == pre + s + post
    ensures IsFirst(t, name, |pre|) && ScanEnd(t, |pre|, 0) == Some(|pre| + |s|)
    ensures t[..|pre|] == pre && SectionAt(t, |pre|, s, post)
  {
    PartsAt(t, pre, s, post);
    ScanOver(t, |pre|, s, n, k);
    assert forall j | 0 <= j < |pre| :: t[j] == pre[j];
  }
}
