/** The persistent zeroing kernel: at most one program per multiprocessor, each striding
    over the blocks by the number of multiprocessors. */
module PersistentKernel {

  function Cdiv(n: nat, d: nat): nat
    requires d > 0
  {
    (n + d - 1) / d
  }

  /** How many turns the program's loop takes. */
  function Turns(pid: nat, blocks: nat, sms: nat): nat
    requires sms > 0
  {
    blocks / sms + (if pid < blocks % sms then 1 else 0)
  }

  function Grid(blocks: nat, sms: nat): nat {
    if sms < blocks then sms else blocks
  }

  /** The block a program works on in a given turn. */
  function BlockAt(pid: nat, turn: nat, sms: nat): nat {
    pid + turn * sms
  }

  // ----- arithmetic -----

  /** A nonzero multiple is at least as large as its unit. */
  lemma {:induction false} MultipleBound(d: int, s: nat)
    ensures d >= 1 ==> d * s >= s
    ensures d <= -1 ==> d * s + s <= 0
  {
    if d >= 1 {
      assert d * s == s + (d - 1) * s;
    } else if d <= -1 {
      assert d * s + s == (d + 1) * s;
    }
  }

  lemma {:induction false} Distribute(a: int, b: int, s: int)
    ensures (a - b) * s == a * s - b * s
  {
  }

  lemma {:induction false} Recompose(b: nat, s: nat)
    requires s > 0
    ensures b == b % s + (b / s) * s
  {
  }

  lemma {:induction false} DivUnique(b: nat, s: nat, q: nat, r: nat)
    requires s > 0 && b == r + q * s && r < s
    ensures b / s == q && b % s == r
  {
    Recompose(b, s);
    Distribute(q, b / s, s);
    MultipleBound(q - b / s, s);
  }

  lemma {:induction false} QuotientMonotone(a: nat, b: nat, s: nat)
    requires s > 0 && a <= b
    ensures a / s <= b / s
  {
    Recompose(a, s);
    Recompose(b, s);
    Distribute(a / s, b / s, s);
    MultipleBound(a / s - b / s, s);
  }

  // ----- the partition of the blocks -----

  /** `b` is reached by program `pid` in turn `turn` of the launch. */
  ghost predicate Visits(pid: nat, turn: nat, blocks: nat, sms: nat, b: nat)
    requires sms > 0
  {
    pid < Grid(blocks, sms) && turn < Turns(pid, blocks, sms) && BlockAt(pid, turn, sms) == b
  }

  lemma {:induction false} VisitsInRange(pid: nat, turn: nat, blocks: nat, sms: nat, b: nat)
    requires sms > 0 && Visits(pid, turn, blocks, sms, b)
    ensures b < blocks && pid == b % sms && turn == b / sms
  {
    DivUnique(b, sms, turn, pid);
    BelowRange(pid, turn, blocks, blocks / sms, blocks % sms, sms);
  }

  lemma {:induction false} BelowRange(pid: nat, turn: nat, blocks: nat, q: nat, r: nat, sms: nat)
    requires sms > 0 && pid < sms && blocks == q * sms + r
    requires turn < q || (turn == q && pid < r)
    ensures pid + turn * sms < blocks
  {
    if turn < q {
      MultipleBound(q - turn, sms);
      Distribute(q, turn, sms);
    }
  }

  lemma {:induction false} EveryBlockVisited(blocks: nat, sms: nat, b: nat)
    requires sms > 0 && b < blocks
    ensures Visits(b % sms, b / sms, blocks, sms, b)
  {
    Recompose(b, sms);
    Recompose(blocks, sms);
    QuotientMonotone(b, blocks, sms);
    var q, t := blocks / sms, b / sms;
    if t == q {
      assert b % sms < blocks % sms;
    }
    if blocks <= sms {
      DivUnique(b, sms, if b == sms then 1 else 0, if b == sms then 0 else b);
    }
  }

  /** The launch partitions the blocks: a block in range is visited by one program in one turn,
      the remainder and the quotient by the stride, and a block out of range by none. */
  lemma {:induction false} BlocksPartitioned(blocks: nat, sms: nat, b: nat, pid: nat, turn: nat)
    requires sms > 0
    ensures Visits(pid, turn, blocks, sms, b) <==> b < blocks && pid == b % sms && turn == b / sms
  {
    if b < blocks {
      EveryBlockVisited(blocks, sms, b);
    }
    if Visits(pid, turn, blocks, sms, b) {
      VisitsInRange(pid, turn, blocks, sms, b);
    }
  }

  /** As many programs as there are blocks or multiprocessors, whichever is less, and none of them idle. */
  lemma {:induction false} NoIdleProgram(pid: nat, blocks: nat, sms: nat)
    requires sms > 0
    ensures pid < Grid(blocks, sms) <==> pid < blocks && pid < sms
    ensures pid < Grid(blocks, sms) ==> Turns(pid, blocks, sms) > 0
  {
    if pid < blocks && pid < sms {
      EveryBlockVisited(blocks, sms, pid);
      DivUnique(pid, sms, 0, pid);
    }
  }

  // ----- the stores -----

  /** Lane `lane` of that turn stores to element `e`; lanes at or past `numel` are masked. */
  ghost predicate Stores(pid: nat, turn: nat, lane: nat, numel: nat, bs: nat, sms: nat, e: nat)
    requires sms > 0 && bs > 0
  {
    && pid < Grid(Cdiv(numel, bs), sms) && turn < Turns(pid, Cdiv(numel, bs), sms)
    && lane < bs && e == lane + BlockAt(pid, turn, sms) * bs && e < numel
  }

  lemma {:induction false} ElementBlock(numel: nat, bs: nat, e: nat)
    requires bs > 0 && e < numel
    ensures e / bs < Cdiv(numel, bs)
  {
    QuotientMonotone(e + bs, numel + bs - 1, bs);
    Recompose(e, bs);
    DivUnique(e + bs, bs, e / bs + 1, e % bs);
  }

  lemma {:induction false} StoredBy(numel: nat, bs: nat, sms: nat, e: nat)
    requires sms > 0 && bs > 0 && e < numel
    ensures Stores((e / bs) % sms, (e / bs) / sms, e % bs, numel, bs, sms, e)
  {
    ElementBlock(numel, bs, e);
    Recompose(e, bs);
    EveryBlockVisited(Cdiv(numel, bs), sms, e / bs);
  }

  lemma {:induction false} StorerIs(p: nat, t: nat, l: nat, numel: nat, bs: nat, sms: nat, e: nat)
    requires sms > 0 && bs > 0 && Stores(p, t, l, numel, bs, sms, e)
    ensures e < numel && l == e % bs && p == (e / bs) % sms && t == (e / bs) / sms
  {
    DivUnique(e, bs, BlockAt(p, t, sms), l);
    VisitsInRange(p, t, Cdiv(numel, bs), sms, e / bs);
  }

  /** Every element is stored by exactly one lane of one turn of one program, and none at or past `numel`. */
  lemma {:induction false} ElementsPartitioned(numel: nat, bs: nat, sms: nat, e: nat, p: nat, t: nat, l: nat)
    requires sms > 0 && bs > 0
    ensures Stores(p, t, l, numel, bs, sms, e)
       <==> e < numel && p == (e / bs) % sms && t == (e / bs) / sms && l == e % bs
  {
    if e < numel {
      StoredBy(numel, bs, sms, e);
    }
    if Stores(p, t, l, numel, bs, sms, e) {
      StorerIs(p, t, l, numel, bs, sms, e);
    }
  }

  // ----- the kernel in place -----

  ghost predicate InBlock(e: nat, block: nat, bs: nat) {
    block * bs <= e < block * bs + bs
  }

  /** Element `e` lies in a block of one of the first `turns` turns of program `pid`. */
  ghost predicate Covered(pid: nat, turns: nat, bs: nat, sms: nat, e: nat) {
    exists t: nat :: t < turns && InBlock(e, BlockAt(pid, t, sms), bs)
  }

  ghost predicate CoveredBelow(pids: nat, blocks: nat, bs: nat, sms: nat, e: nat)
    requires sms > 0
  {
    exists p: nat :: p < pids && Covered(p, Turns(p, blocks, sms), bs, sms, e)
  }

  lemma {:induction false} ItsBlock(numel: nat, bs: nat, e: nat) returns (b: nat)
    requires bs > 0 && e < numel
    ensures b < Cdiv(numel, bs) && InBlock(e, b, bs)
  {
    b := e / bs;
    ElementBlock(numel, bs, e);
    Recompose(e, bs);
  }

  lemma {:induction false} Visitor(blocks: nat, sms: nat, b: nat) returns (p: nat, t: nat)
    requires sms > 0 && b < blocks
    ensures Visits(p, t, blocks, sms, b)
  {
    p, t := b % sms, b / sms;
    EveryBlockVisited(blocks, sms, b);
  }

  lemma {:induction false} ElementCovered(numel: nat, bs: nat, sms: nat, e: nat)
    requires bs > 0 && sms > 0 && e < numel
    ensures CoveredBelow(Grid(Cdiv(numel, bs), sms), Cdiv(numel, bs), bs, sms, e)
  {
    var b := ItsBlock(numel, bs, e);
    var p, t := Visitor(Cdiv(numel, bs), sms, b);
    VisitedIsCovered(Cdiv(numel, bs), bs, sms, e, b, p, t);
  }

  lemma {:induction false} VisitedIsCovered(blocks: nat, bs: nat, sms: nat, e: nat, b: nat, p: nat, t: nat)
    requires sms > 0 && Visits(p, t, blocks, sms, b) && InBlock(e, b, bs)
    ensures CoveredBelow(Grid(blocks, sms), blocks, bs, sms, e)
  {
    assert InBlock(e, BlockAt(p, t, sms), bs);
    assert Covered(p, Turns(p, blocks, sms), bs, sms, e);
  }

  /** One masked vector store of zeros. */
  method StoreBlock(output: array<int>, numel: nat, block: nat, bs: nat)
    requires numel <= output.Length
    modifies output
    ensures forall e | 0 <= e < output.Length ::
              output[e] == if e < numel && InBlock(e, block, bs) then 0 else old(output[e])
  {
    var base := block * bs;
    for lane := 0 to bs
      invariant forall e | 0 <= e < output.Length ::
                  output[e] == if e < numel && base <= e < base + lane then 0 else old(output[e])
    {
      if base + lane < numel {
        output[base + lane] := 0;
      }
    }
  }

  method Program(output: array<int>, numel: nat, bs: nat, sms: nat, pid: nat)
    requires bs > 0 && sms > 0 && numel <= output.Length
    modifies output
    ensures forall e | 0 <= e < output.Length ::
              output[e] == if e < numel && Covered(pid, Turns(pid, Cdiv(numel, bs), sms), bs, sms, e)
                           then 0 else old(output[e])
  {
    var blocks := Cdiv(numel, bs);
    var turns := blocks / sms;
    if pid < blocks % sms {
      turns := turns + 1;
    }
    var block := pid - sms;
    for turn := 0 to turns
      invariant block == BlockAt(pid, turn, sms) - sms
      invariant forall e | 0 <= e < output.Length ::
                  output[e] == if e < numel && Covered(pid, turn, bs, sms, e) then 0 else old(output[e])
    {
      block := block + sms;
      assert BlockAt(pid, turn + 1, sms) == BlockAt(pid, turn, sms) + sms;
      StoreBlock(output, numel, block, bs);
      forall e: nat
        ensures Covered(pid, turn + 1, bs, sms, e) <==> Covered(pid, turn, bs, sms, e) || InBlock(e, block, bs)
      {
      }
    }
  }

  /** The launch: zero exactly the first `numel` elements. */
  method ZeroPersistent(output: array<int>, numel: nat, bs: nat, sms: nat)
    requires bs > 0 && sms > 0 && numel <= output.Length
    modifies output
    ensures forall e | 0 <= e < output.Length :: output[e] == if e < numel then 0 else old(output[e])
  {
    ghost var blocks := Cdiv(numel, bs);
    var grid := Grid(Cdiv(numel, bs), sms);
    for pid := 0 to grid
      invariant forall e | 0 <= e < output.Length ::
                  output[e] == if e < numel && CoveredBelow(pid, blocks, bs, sms, e) then 0 else old(output[e])
    {
      Program(output, numel, bs, sms, pid);
      forall e: nat
        ensures CoveredBelow(pid + 1, blocks, bs, sms, e)
           <==> CoveredBelow(pid, blocks, bs, sms, e) || Covered(pid, Turns(pid, blocks, sms), bs, sms, e)
      {
      }
    }
    forall e: nat | e < numel
      ensures CoveredBelow(grid, blocks, bs, sms, e)
    {
      ElementCovered(numel, bs, sms, e);
    }
  }
}
