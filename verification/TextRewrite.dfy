/** The in-place sweep over an executable segment: every `syscall`/`sysenter` other than
    the tracer's own is overwritten by the two bytes of `call *%rax`. */
module TextRewrite {
  import opened Common

  type Byte = bv8

  /** What the disassembler reports for the first instruction of a byte string. */
  datatype Insn = Insn(len: nat, syscall: bool)

  type Decoder = seq<Byte> -> Option<Insn>

  const CALL: Byte := 0xff
  const RAX: Byte := 0xd0

  /** One answer of the decoder: it stays inside the bytes, knows `call *%rax`, and
      reports system calls as two bytes, that is without prefixes. */
  predicate Sound(dec: Decoder, s: seq<Byte>) {
    && (dec(s).Some? ==> 0 < dec(s).value.len <= |s| && (dec(s).value.syscall ==> dec(s).value.len == 2))
    && (|s| >= 2 && s[0] == CALL && s[1] == RAX ==> dec(s) == Some(Insn(2, false)))
  }

  /** The answer is determined by the bytes of the instruction it reports. */
  predicate Determined(dec: Decoder, s: seq<Byte>, t: seq<Byte>) {
    (&& dec(s).Some? && dec(s).value.len <= |s| && dec(s).value.len <= |t|
     && s[..dec(s).value.len] == t[..dec(s).value.len]) ==> dec(t) == dec(s)
  }

  ghost predicate Valid(dec: Decoder) {
    && (forall s {:trigger Sound(dec, s)} :: Sound(dec, s))
    && (forall s, t {:trigger Determined(dec, s, t)} :: Determined(dec, s, t))
  }

  datatype Site = Site(at: nat, len: nat, syscall: bool)

  /** The instructions a linear sweep visits from `off`, until the end or the first byte that does not decode. */
  ghost function Sweep(dec: Decoder, s: seq<Byte>, off: nat): seq<Site>
    requires Valid(dec)
    decreases |s| - off
  {
    if off >= |s| then []
    else
      assert Sound(dec, s[off..]);
      match dec(s[off..])
      case None => []
      case Some(i) => [Site(off, i.len, i.syscall)] + Sweep(dec, s, off + i.len)
  }

  function Patch(s: seq<Byte>, off: nat): (r: seq<Byte>)
    requires off + 2 <= |s|
  {
    s[off := CALL][off + 1 := RAX]
  }

  ghost function Rewrite(dec: Decoder, s: seq<Byte>, off: nat, keep: int): (r: seq<Byte>)
    requires Valid(dec)
    ensures |r| == |s|
    decreases |s| - off
  {
    if off >= |s| then s
    else
      assert Sound(dec, s[off..]);
      match dec(s[off..])
      case None => s
      case Some(i) =>
        Rewrite(dec, if i.syscall && off != keep then Patch(s, off) else s, off + i.len, keep)
  }

  /** `keep` is the offset of `syscall_addr` in this segment, or any value outside it. */
  method RewriteSegment(code: array<Byte>, dec: Decoder, keep: int)
    requires Valid(dec)
    modifies code
    ensures code[..] == Rewrite(dec, old(code[..]), 0, keep)
  {
    var off: nat := 0;
    while off < code.Length
      invariant Rewrite(dec, code[..], off, keep) == Rewrite(dec, old(code[..]), 0, keep)
      decreases code.Length - off
    {
      var insn := dec(code[off..]);
      assert code[off..] == code[..][off..];
      assert Sound(dec, code[off..]);
      if insn.None? {
        break;
      }
      if insn.value.syscall {
        if off != keep {
          ghost var before := code[..];
          code[off] := CALL;
          code[off + 1] := RAX;
          assert code[..] == Patch(before, off);
        }
      }
      off := off + insn.value.len;
    }
  }

  /** The same sweep with every system call but the kept one turned into an ordinary instruction. */
  ghost function Redirected(sites: seq<Site>, keep: int): (r: seq<Site>)
    ensures |r| == |sites|
    ensures forall k | 0 <= k < |sites| :: r[k] == sites[k].(syscall := sites[k].syscall && sites[k].at == keep)
  {
    seq(|sites|, k requires 0 <= k < |sites| => sites[k].(syscall := sites[k].syscall && sites[k].at == keep))
  }

  /** One turn of the rewrite, at an instruction that decodes. */
  lemma {:induction false} RewriteUnfolds(dec: Decoder, s: seq<Byte>, off: nat, keep: int)
      returns (i: Insn, s': seq<Byte>)
    requires Valid(dec) && off < |s| && dec(s[off..]).Some?
    ensures dec(s[off..]) == Some(i) && i.len > 0 && off + i.len <= |s| && |s'| == |s| && (i.syscall ==> i.len == 2)
    ensures s' == if i.syscall && off != keep then Patch(s, off) else s
    ensures Rewrite(dec, s, off, keep) == Rewrite(dec, s', off + i.len, keep)
  {
    assert Sound(dec, s[off..]);
    i := dec(s[off..]).value;
    s' := if i.syscall && off != keep then Patch(s, off) else s;
  }

  lemma {:induction false} RewriteKeepsPrefix(dec: Decoder, s: seq<Byte>, off: nat, keep: int)
    requires Valid(dec) && off <= |s|
    ensures Rewrite(dec, s, off, keep)[..off] == s[..off]
    decreases |s| - off
  {
    if off < |s| && dec(s[off..]).Some? {
      var i, s' := RewriteUnfolds(dec, s, off, keep);
      RewriteKeepsPrefix(dec, s', off + i.len, keep);
      TurnKeepsPrefix(Rewrite(dec, s', off + i.len, keep), s, s', off, i, keep);
    }
  }

  lemma {:induction false} TurnKeepsPrefix(r: seq<Byte>, s: seq<Byte>, s': seq<Byte>, off: nat, i: Insn, keep: int)
    requires off + i.len <= |s| == |s'| == |r| && (i.syscall ==> i.len == 2)
    requires s' == if i.syscall && off != keep then Patch(s, off) else s
    requires r[..off + i.len] == s'[..off + i.len]
    ensures r[..off] == s[..off]
  {
    ShorterPrefix(r, s', off + i.len, off);
    if i.syscall && off != keep {
      PatchKeepsPrefix(s, off);
    }
  }

  lemma {:induction false} ShorterPrefix(r: seq<Byte>, s: seq<Byte>, n: nat, m: nat)
    requires m <= n <= |s| == |r| && r[..n] == s[..n]
    ensures r[..m] == s[..m]
  {
    assert r[..m] == r[..n][..m] && s[..m] == s[..n][..m];
  }

  lemma {:induction false} PatchKeepsPrefix(s: seq<Byte>, off: nat)
    requires off + 2 <= |s|
    ensures Patch(s, off)[..off] == s[..off]
  {
  }

  lemma {:induction false} SweepSeesSuffix(dec: Decoder, s: seq<Byte>, t: seq<Byte>, off: nat)
    requires Valid(dec) && |s| == |t| && off <= |s| && s[off..] == t[off..]
    ensures Sweep(dec, s, off) == Sweep(dec, t, off)
    decreases |s| - off
  {
    if off < |s| && dec(s[off..]).Some? {
      assert Sound(dec, s[off..]);
      var n := off + dec(s[off..]).value.len;
      assert s[n..] == s[off..][n - off..] == t[n..];
      SweepSeesSuffix(dec, s, t, n);
    }
  }

  /** The same turn, for sweep and rewrite. */
  lemma {:induction false} RewriteTurn(dec: Decoder, s: seq<Byte>, off: nat, keep: int) returns (i: Insn, s': seq<Byte>)
    requires Valid(dec) && off < |s| && dec(s[off..]).Some?
    ensures Sound(dec, s[off..]) && dec(s[off..]) == Some(i) && i.len > 0 && off + i.len <= |s| && |s'| == |s|
    ensures i.syscall ==> i.len == 2
    ensures s' == if i.syscall && off != keep then Patch(s, off) else s
    ensures Sweep(dec, s, off) == [Site(off, i.len, i.syscall)] + Sweep(dec, s', off + i.len)
    ensures Rewrite(dec, s, off, keep) == Rewrite(dec, s', off + i.len, keep)
    ensures Rewrite(dec, s', off + i.len, keep)[..off + i.len] == s'[..off + i.len]
  {
    assert Sound(dec, s[off..]);
    i, s' := RewriteUnfolds(dec, s, off, keep);
    var n := off + i.len;
    assert s'[n..] == s[n..];
    SweepSeesSuffix(dec, s, s', n);
    SweepUnfolds(dec, s, off, i);
    RewriteKeepsPrefix(dec, s', n, keep);
  }

  lemma {:induction false} SweepUnfolds(dec: Decoder, s: seq<Byte>, off: nat, i: Insn)
    requires Valid(dec) && off < |s| && dec(s[off..]) == Some(i)
    ensures Sweep(dec, s, off) == [Site(off, i.len, i.syscall)] + Sweep(dec, s, off + i.len)
  {
    assert Sound(dec, s[off..]);
  }

  /** The sweep of the rewritten code visits the same boundaries, and the only system call
      it can still meet is the tracer's own. */
  lemma {:induction false} SameBoundaries(dec: Decoder, s: seq<Byte>, off: nat, keep: int)
    requires Valid(dec) && off <= |s|
    ensures Sweep(dec, Rewrite(dec, s, off, keep), off) == Redirected(Sweep(dec, s, off), keep)
    decreases |s| - off
  {
    if off < |s| && dec(s[off..]).Some? {
      var i, s' := RewriteTurn(dec, s, off, keep);
      SameBoundaries(dec, s', off + i.len, keep);
      HeadSwept(dec, s, s', off, keep, i);
      RedirectedCons(Site(off, i.len, i.syscall), Sweep(dec, s', off + i.len), keep);
    }
  }

  /** A sweep of the result starts with the instruction that is now at `off`. */
  lemma {:induction false} HeadSwept(dec: Decoder, s: seq<Byte>, s': seq<Byte>, off: nat, keep: int, i: Insn)
    requires Valid(dec) && off < |s| && dec(s[off..]) == Some(i) && off + i.len <= |s| && Sound(dec, s[off..])
    requires s' == (if i.syscall && off != keep then Patch(s, off) else s)
    requires var r := Rewrite(dec, s', off + i.len, keep);
             |r| == |s| && r[..off + i.len] == s'[..off + i.len]
    ensures var r := Rewrite(dec, s', off + i.len, keep);
            Sweep(dec, r, off) == [Site(off, i.len, i.syscall && off == keep)] + Sweep(dec, r, off + i.len)
  {
    HeadDecodes(dec, s, s', Rewrite(dec, s', off + i.len, keep), off, keep);
  }

  lemma {:induction false} RedirectedCons(x: Site, rest: seq<Site>, keep: int)
    ensures Redirected([x] + rest, keep) == [x.(syscall := x.syscall && x.at == keep)] + Redirected(rest, keep)
  {
  }

  /** The first instruction after the rewrite: the call in place of a system call, else unchanged. */
  lemma {:induction false} HeadDecodes(dec: Decoder, s: seq<Byte>, s': seq<Byte>, r: seq<Byte>, off: nat, keep: int)
    requires Valid(dec) && off < |s| && dec(s[off..]).Some?
    requires Sound(dec, s[off..])
    requires var i := dec(s[off..]).value;
             && s' == (if i.syscall && off != keep then Patch(s, off) else s)
             && |r| == |s| && r[..off + i.len] == s'[..off + i.len]
    ensures dec(r[off..]) == var i := dec(s[off..]).value; Some(i.(syscall := i.syscall && off == keep))
  {
    var i := dec(s[off..]).value;
    assert Sound(dec, s[off..]);
    if i.syscall && off != keep {
      assert r[off..][0] == r[..off + 2][off] && r[off..][1] == r[..off + 2][off + 1];
      assert Sound(dec, r[off..]);
    } else {
      assert r[off..][..i.len] == r[..off + i.len][off..] == s[off..][..i.len];
      assert Determined(dec, s[off..], r[off..]);
    }
  }

  /** `k` is one of the two bytes of a system call the sweep meets, other than the kept one. */
  ghost predicate Redirects(sites: seq<Site>, keep: int, k: nat) {
    exists j :: 0 <= j < |sites| && sites[j].syscall && sites[j].at != keep && sites[j].at <= k < sites[j].at + 2
  }

  lemma {:induction false} RedirectsCons(x: Site, sites: seq<Site>, keep: int, k: nat)
    ensures Redirects([x] + sites, keep, k)
       <==> (x.syscall && x.at != keep && x.at <= k < x.at + 2) || Redirects(sites, keep, k)
  {
    var all := [x] + sites;
    if Redirects(sites, keep, k) {
      var j :| 0 <= j < |sites| && sites[j].syscall && sites[j].at != keep && sites[j].at <= k < sites[j].at + 2;
      assert all[j + 1] == sites[j];
    }
    assert all[0] == x && forall j | 1 <= j < |all| :: all[j] == sites[j - 1];
  }

  /** Bytes outside the redirected system calls stay. */
  lemma {:induction false} OtherBytesStay(dec: Decoder, s: seq<Byte>, off: nat, keep: int, k: nat)
    requires Valid(dec) && off <= |s| && k < |s| && !Redirects(Sweep(dec, s, off), keep, k)
    ensures Rewrite(dec, s, off, keep)[k] == s[k]
    decreases |s| - off
  {
    if off < |s| && dec(s[off..]).Some? {
      var i, s' := RewriteTurn(dec, s, off, keep);
      RedirectsCons(Site(off, i.len, i.syscall), Sweep(dec, s', off + i.len), keep, k);
      OtherBytesStay(dec, s', off + i.len, keep, k);
      if i.syscall && off != keep {
        PatchElsewhere(s, off, k);
      }
    }
  }

  lemma {:induction false} PatchElsewhere(s: seq<Byte>, off: nat, k: nat)
    requires off + 2 <= |s| && k < |s| && !(off <= k < off + 2)
    ensures Patch(s, off)[k] == s[k]
  {
  }

  /** At each system call but the kept one stands `ff d0`. */
  ghost predicate AreCalls(sites: seq<Site>, r: seq<Byte>, keep: int) {
    forall j | 0 <= j < |sites| && sites[j].syscall && sites[j].at != keep :: IsCall(r, sites[j].at)
  }

  predicate IsCall(r: seq<Byte>, at: nat) {
    at + 1 < |r| && r[at] == 0xff && r[at + 1] == 0xd0
  }

  lemma {:induction false} AreCallsCons(x: Site, rest: seq<Site>, r: seq<Byte>, keep: int)
    requires AreCalls(rest, r, keep) && (x.syscall && x.at != keep ==> IsCall(r, x.at))
    ensures AreCalls([x] + rest, r, keep)
  {
    var all := [x] + rest;
    forall j | 0 <= j < |all| && all[j].syscall && all[j].at != keep
      ensures IsCall(r, all[j].at)
    {
      assert j > 0 ==> all[j] == rest[j - 1];
    }
  }

  /** Each system call but the kept one becomes `ff d0`. */
  lemma {:induction false} SyscallsBecomeCalls(dec: Decoder, s: seq<Byte>, off: nat, keep: int)
    requires Valid(dec) && off <= |s|
    ensures AreCalls(Sweep(dec, s, off), Rewrite(dec, s, off, keep), keep)
    decreases |s| - off
  {
    if off < |s| && dec(s[off..]).Some? {
      var i, s' := RewriteTurn(dec, s, off, keep);
      var r := Rewrite(dec, s', off + i.len, keep);
      SyscallsBecomeCalls(dec, s', off + i.len, keep);
      if i.syscall && off != keep {
        PatchStays(s, s', r, off);
      }
      AreCallsCons(Site(off, i.len, i.syscall), Sweep(dec, s', off + i.len), r, keep);
    }
  }

  lemma {:induction false} PatchStays(s: seq<Byte>, s': seq<Byte>, r: seq<Byte>, off: nat)
    requires off + 2 <= |s| == |r| && s' == Patch(s, off) && r[..off + 2] == s'[..off + 2]
    ensures IsCall(r, off)
  {
    assert r[off] == r[..off + 2][off] && r[off + 1] == r[..off + 2][off + 1];
  }

  /** The only system call met is the kept one. */
  ghost predicate OnlyKept(sites: seq<Site>, keep: int) {
    forall j | 0 <= j < |sites| && sites[j].syscall :: sites[j].at == keep
  }

  lemma {:induction false} OnlyKeptCons(x: Site, rest: seq<Site>, keep: int)
    requires OnlyKept([x] + rest, keep)
    ensures (x.syscall ==> x.at == keep) && OnlyKept(rest, keep)
  {
    var all := [x] + rest;
    assert all[0] == x;
    forall j | 0 <= j < |rest| && rest[j].syscall
      ensures rest[j].at == keep
    {
      assert all[j + 1] == rest[j];
    }
  }

  lemma {:induction false} NothingLeft(dec: Decoder, s: seq<Byte>, off: nat, keep: int)
    requires Valid(dec) && off <= |s|
    requires OnlyKept(Sweep(dec, s, off), keep)
    ensures Rewrite(dec, s, off, keep) == s
    decreases |s| - off
  {
    if off < |s| && dec(s[off..]).Some? {
      var i, s' := RewriteTurn(dec, s, off, keep);
      OnlyKeptCons(Site(off, i.len, i.syscall), Sweep(dec, s', off + i.len), keep);
      NothingLeft(dec, s', off + i.len, keep);
    }
  }

  /** A second rewrite is a no-op. */
  lemma {:induction false} RewriteIsIdempotent(dec: Decoder, s: seq<Byte>, keep: int)
    requires Valid(dec)
    ensures var r := Rewrite(dec, s, 0, keep); Rewrite(dec, r, 0, keep) == r
  {
    SameBoundaries(dec, s, 0, keep);
    NothingLeft(dec, Rewrite(dec, s, 0, keep), 0, keep);
  }

  /** The sites follow one another from `off`, each as the decoder reports it, up to the end or to bytes that do
      not decode. */
  ghost predicate SweptFrom(dec: Decoder, s: seq<Byte>, off: nat, sites: seq<Site>)
    decreases |sites|
  {
    if sites == [] then off >= |s| || dec(s[off..]) == None
    else
      && off < |s| && sites[0].at == off && dec(s[off..]) == Some(Insn(sites[0].len, sites[0].syscall))
      && SweptFrom(dec, s, off + sites[0].len, sites[1..])
  }

  lemma {:induction false} SweepIs(dec: Decoder, s: seq<Byte>, off: nat)
    requires Valid(dec)
    ensures SweptFrom(dec, s, off, Sweep(dec, s, off))
    decreases |s| - off
  {
    if off < |s| && dec(s[off..]).Some? {
      assert Sound(dec, s[off..]);
      var i := dec(s[off..]).value;
      SweepIs(dec, s, off + i.len);
      assert Sweep(dec, s, off)[1..] == Sweep(dec, s, off + i.len);
    }
  }
}
