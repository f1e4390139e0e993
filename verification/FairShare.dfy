/** The fair-share scheduler: each round it grants the process whose extra call would
    give the largest Jain index.  Counts are unbounded and the index is an exact real. */
module FairShare {
  import opened Common

  datatype Entry = Entry(pid: nat, cnt: nat)

  function Sum(c: seq<nat>): nat {
    if c == [] then 0 else Sum(c[..|c| - 1]) + c[|c| - 1]
  }

  function SumSq(c: seq<nat>): nat {
    if c == [] then 0 else SumSq(c[..|c| - 1]) + c[|c| - 1] * c[|c| - 1]
  }

  function Counts(entries: seq<Entry>): seq<nat> {
    seq(|entries|, i requires 0 <= i < |entries| => entries[i].cnt)
  }

  function Times(x: real, y: real): real {
    x * y
  }

  function Index(n: nat, sum: real, sum2: real): real
    requires n > 0 && sum2 > 0.0
  {
    TimesPositive(n as real, sum2);
    Times(sum, sum) / Times(n as real, sum2)
  }

  /** Jain's fairness index of a nonempty list of counts; one when nothing was granted. */
  function Jain(c: seq<nat>): real
    requires c != []
  {
    if SumSq(c) == 0 then 1.0 else Index(|c|, Sum(c) as real, SumSq(c) as real)
  }

  function Grant(c: seq<nat>, i: nat): seq<nat>
    requires i < |c|
  {
    c[i := c[i] + 1]
  }

  /** The lookahead value the loop computes for an entry with count `c`. */
  function Lookahead(n: nat, sum: nat, sum2: nat, c: nat): real
    requires n > 0
  {
    var newSum := sum as real + 1.0;
    var newSum2 := sum2 as real - c as real * c as real + (c as real + 1.0) * (c as real + 1.0);
    NewSum2(sum2, c);
    Index(n, newSum, newSum2)
  }

  /** `i` is the first entry that holds the least count. */
  ghost predicate FirstLeast(c: seq<nat>, i: nat) {
    && i < |c|
    && (forall j | 0 <= j < |c| :: c[i] <= c[j])
    && (forall j | 0 <= j < i :: c[i] < c[j])
  }

  lemma {:induction false} QuotientOrder(x: real, a: real, b: real)
    requires x > 0.0 && a > 0.0 && b > 0.0
    ensures x / a > x / b <==> a < b
    ensures x / a > 0.0
  {
    var p, q := x / a, x / b;
    assert p * a == x && q * b == x;
    if a < b {
      assert q * a < q * b;
    } else {
      assert q * b <= q * a;
    }
  }

  lemma {:induction false} TimesOrder(n: real, a: real, b: real)
    requires n > 0.0
    ensures Times(n, a) < Times(n, b) <==> a < b
  {
  }

  lemma {:induction false} TimesPositive(x: real, y: real)
    requires x > 0.0 && y > 0.0
    ensures Times(x, y) > 0.0
  {
  }

  lemma {:induction false} NewSum2(sum2: nat, c: nat)
    ensures sum2 as real - c as real * c as real + (c as real + 1.0) * (c as real + 1.0)
         == (sum2 + 2 * c + 1) as real
  {
    assert (c as real + 1.0) * (c as real + 1.0) == c as real * c as real + 2.0 * c as real + 1.0;
  }

  /** With the total fixed, a larger index is exactly a smaller sum of squares. */
  lemma {:induction false} IndexOrder(n: nat, sum: real, a: real, b: real)
    requires n > 0 && sum > 0.0 && a > 0.0 && b > 0.0
    ensures Index(n, sum, a) > Index(n, sum, b) <==> a < b
    ensures Index(n, sum, a) > 0.0
  {
    TimesOrder(n as real, a, b);
    TimesPositive(n as real, a);
    TimesPositive(n as real, b);
    TimesPositive(sum, sum);
    QuotientOrder(Times(sum, sum), Times(n as real, a), Times(n as real, b));
  }

  /** A larger lookahead is exactly a smaller count. */
  lemma {:induction false} LookaheadOrder(n: nat, sum: nat, sum2: nat, c: nat, d: nat)
    requires n > 0
    ensures Lookahead(n, sum, sum2, c) > Lookahead(n, sum, sum2, d) <==> c < d
    ensures Lookahead(n, sum, sum2, c) > 0.0
  {
    NewSum2(sum2, c);
    NewSum2(sum2, d);
    IndexOrder(n, sum as real + 1.0, (sum2 + 2 * c + 1) as real, (sum2 + 2 * d + 1) as real);
  }

  ghost predicate PrefersFewer(score: nat -> real) {
    && (forall c: nat :: score(c) > 0.0)
    && (forall c: nat, d: nat :: score(c) > score(d) <==> c < d)
  }

  /** The two accumulations before the search. */
  method Totals(entries: seq<Entry>) returns (sum: nat, sum2: nat)
    ensures sum == Sum(Counts(entries)) && sum2 == SumSq(Counts(entries))
  {
    ghost var c := Counts(entries);
    sum, sum2 := 0, 0;
    for i := 0 to |entries|
      invariant sum == Sum(c[..i]) && sum2 == SumSq(c[..i])
    {
      assert c[..i + 1][..i] == c[..i];
      sum := sum + entries[i].cnt;
      sum2 := sum2 + entries[i].cnt * entries[i].cnt;
    }
    assert c[..|c|] == c;
  }

  /** The strict-improvement loop, for any score that falls as the count rises. */
  method Search(entries: seq<Entry>, score: nat -> real) returns (bestPid: nat)
    requires entries != [] && PrefersFewer(score)
    ensures exists i: nat :: i < |entries| && FirstLeast(Counts(entries), i) && bestPid == entries[i].pid
  {
    ghost var c := Counts(entries);
    var bestF := -1.0;
    ghost var best: nat := 0;
    bestPid := 0;
    for i := 0 to |entries|
      invariant i == 0 ==> bestF == -1.0
      invariant i > 0 ==> best < i && bestPid == entries[best].pid && bestF == score(c[best])
      invariant i > 0 ==> FirstLeast(c[..i], best)
    {
      var f := score(entries[i].cnt);
      if f > bestF {
        bestF, bestPid, best := f, entries[i].pid, i;
      }
    }
    assert c[..|c|] == c;
  }

  /** The round: no grant when no process is known, else the pid of the first least count. */
  method Select(entries: seq<Entry>) returns (grant: Option<nat>)
    ensures grant.None? <==> entries == []
    ensures grant.Some? ==>
              exists i: nat :: i < |entries| && FirstLeast(Counts(entries), i) && grant.value == entries[i].pid
  {
    var n := |entries|;
    if n == 0 {
      return None;
    }
    var sum, sum2 := Totals(entries);
    var score := (c: nat) => Lookahead(n, sum, sum2, c);
    forall c: nat, d: nat
      ensures score(c) > 0.0 && (score(c) > score(d) <==> c < d)
    {
      LookaheadOrder(n, sum, sum2, c, d);
    }
    var pid := Search(entries, score);
    return Some(pid);
  }

  // ----- sums under one grant -----

  lemma {:induction false} GrantSums(c: seq<nat>, i: nat)
    requires i < |c|
    ensures Sum(Grant(c, i)) == Sum(c) + 1
    ensures SumSq(Grant(c, i)) == SumSq(c) + 2 * c[i] + 1
  {
    var g := Grant(c, i);
    var last := |c| - 1;
    if i == last {
      assert g[..last] == c[..last];
      assert (c[i] + 1) * (c[i] + 1) == c[i] * c[i] + 2 * c[i] + 1;
    } else {
      assert g[..last] == Grant(c[..last], i);
      GrantSums(c[..last], i);
    }
  }

  /** The lookahead is Jain's index of the counts after the grant, so the round maximises it. */
  lemma {:induction false} LookaheadIsJain(c: seq<nat>, i: nat)
    requires i < |c|
    ensures Lookahead(|c|, Sum(c), SumSq(c), c[i]) == Jain(Grant(c, i))
  {
    GrantSums(c, i);
    LookaheadOfSums(|c|, Sum(c), SumSq(c), c[i], Sum(Grant(c, i)), SumSq(Grant(c, i)));
  }

  lemma {:induction false} LookaheadOfSums(n: nat, sum: nat, sum2: nat, c: nat, sum': nat, sum2': nat)
    requires n > 0 && sum' == sum + 1 && sum2' == sum2 + 2 * c + 1
    ensures Lookahead(n, sum, sum2, c) == Index(n, sum' as real, sum2' as real)
  {
    NewSum2(sum2, c);
    assert sum' as real == sum as real + 1.0;
  }

  /** The round's choice is the best one-step choice, and a least count. */
  lemma {:induction false} FirstLeastMaximisesJain(c: seq<nat>, i: nat, j: nat)
    requires FirstLeast(c, i) && j < |c|
    ensures Jain(Grant(c, i)) >= Jain(Grant(c, j))
  {
    LookaheadIsJain(c, i);
    LookaheadIsJain(c, j);
    LookaheadOrder(|c|, Sum(c), SumSq(c), c[j], c[i]);
  }

  // ----- whole runs -----

  function LeastIndex(c: seq<nat>): (i: nat)
    requires c != []
    ensures FirstLeast(c, i)
  {
    if |c| == 1 then 0
    else
      var last := |c| - 1;
      var i := LeastIndex(c[..last]);
      assert forall j | 0 <= j < last :: c[..last][j] == c[j];
      if c[last] < c[i] then last else i
  }

  /** The counts after `rounds` rounds in which the chosen process makes one call. */
  function Rounds(c: seq<nat>, rounds: nat): (r: seq<nat>)
    requires c != []
    ensures |r| == |c|
  {
    if rounds == 0 then c
    else
      var before := Rounds(c, rounds - 1);
      Grant(before, LeastIndex(before))
  }

  /** Any way of handing out `rounds` grants on top of `c`. */
  ghost predicate Allocation(c: seq<nat>, rounds: nat, y: seq<nat>) {
    |y| == |c| && (forall i | 0 <= i < |c| :: y[i] >= c[i]) && Sum(y) == Sum(c) + rounds
  }

  /** Whoever was granted anything ends at most one above everybody. */
  ghost predicate Levelled(c: seq<nat>, g: seq<nat>) {
    && |g| == |c|
    && (forall i | 0 <= i < |c| :: g[i] >= c[i])
    && (forall i, j | 0 <= i < |c| && 0 <= j < |c| && g[i] > c[i] :: g[i] <= g[j] + 1)
  }

  lemma {:induction false} RoundsAreLevelled(c: seq<nat>, rounds: nat)
    requires c != []
    ensures Levelled(c, Rounds(c, rounds)) && Allocation(c, rounds, Rounds(c, rounds))
  {
    if rounds > 0 {
      RoundsAreLevelled(c, rounds - 1);
      var before := Rounds(c, rounds - 1);
      GrantSums(before, LeastIndex(before));
      GrantKeepsLevel(c, before);
    }
  }

  lemma {:induction false} GrantKeepsLevel(c: seq<nat>, g: seq<nat>)
    requires c != [] && Levelled(c, g)
    ensures Levelled(c, Grant(g, LeastIndex(g)))
  {
  }

  lemma {:induction false} Convex(y: nat, g: nat, m: nat)
    requires m <= g && (y < g ==> g <= m + 1)
    ensures y * y + (2 * m + 1) * g >= g * g + (2 * m + 1) * y
  {
    var d: int, e: int := y - g, y + g - (2 * m + 1);
    assert y * y + (2 * m + 1) * g - (g * g + (2 * m + 1) * y) == d * e;
    assert (d >= 0 && e >= 0) || (d <= 0 && e <= 0);
    SameSign(d, e);
  }

  lemma {:induction false} SameSign(d: int, e: int)
    requires (d >= 0 && e >= 0) || (d <= 0 && e <= 0)
    ensures d * e >= 0
  {
  }

  lemma {:induction false} Distribute(k: int, a: int, b: int)
    ensures k * (a + b) == k * a + k * b
  {
  }

  /** Each square exceeds its partner by at least the `k`-multiple of their difference. */
  ghost predicate Above(y: seq<nat>, g: seq<nat>, k: nat)
    requires |y| == |g|
  {
    forall i | 0 <= i < |g| :: y[i] * y[i] + k * g[i] >= g[i] * g[i] + k * y[i]
  }

  lemma {:induction false} SumAbove(y: seq<nat>, g: seq<nat>, k: nat)
    requires |y| == |g| && Above(y, g, k)
    ensures SumSq(y) + k * Sum(g) >= SumSq(g) + k * Sum(y)
  {
    if y != [] {
      var last := |y| - 1;
      var y', g' := y[..last], g[..last];
      assert Above(y', g', k) by {
        assert forall i | 0 <= i < last :: y'[i] == y[i] && g'[i] == g[i];
      }
      SumAbove(y', g', k);
      Distribute(k, Sum(y'), y[last]);
      Distribute(k, Sum(g'), g[last]);
    }
  }

  lemma {:induction false} LevelledAbove(c: seq<nat>, g: seq<nat>, y: seq<nat>, m: nat, k: nat)
    requires |y| == |c| && Levelled(c, g) && (forall i | 0 <= i < |c| :: y[i] >= c[i])
    requires (forall i | 0 <= i < |g| :: m <= g[i]) && m in g && k == 2 * m + 1
    ensures Above(y, g, k)
  {
    var j :| 0 <= j < |g| && g[j] == m;
    forall i | 0 <= i < |g|
      ensures y[i] * y[i] + k * g[i] >= g[i] * g[i] + k * y[i]
    {
      assert y[i] < g[i] ==> g[i] <= g[j] + 1;
      Convex(y[i], g[i], m);
    }
  }

  /** Levelled counts have the least sum of squares of all allocations with the same total. */
  lemma {:induction false} LevelledIsLeast(c: seq<nat>, g: seq<nat>, rounds: nat, y: seq<nat>)
    requires c != [] && Levelled(c, g) && Allocation(c, rounds, g) && Allocation(c, rounds, y)
    ensures SumSq(g) <= SumSq(y)
  {
    var m := g[LeastIndex(g)];
    var k := 2 * m + 1;
    LevelledAbove(c, g, y, m, k);
    SumAbove(y, g, k);
    assert Sum(y) == Sum(g);
  }

  lemma {:induction false} ZeroSquares(c: seq<nat>)
    ensures SumSq(c) == 0 <==> Sum(c) == 0
  {
    if c != [] {
      ZeroSquares(c[..|c| - 1]);
      var x := c[|c| - 1];
      assert x > 0 ==> x * x > 0;
    }
  }

  /** Greedy fairness is globally optimal: after any number of rounds Jain's index is at
      least that of every other way to hand out as many grants. */
  lemma {:induction false} RoundsMaximiseJain(c: seq<nat>, rounds: nat, y: seq<nat>)
    requires c != [] && Allocation(c, rounds, y)
    ensures Jain(Rounds(c, rounds)) >= Jain(y)
  {
    var g := Rounds(c, rounds);
    RoundsAreLevelled(c, rounds);
    LevelledIsLeast(c, g, rounds, y);
    ZeroSquares(g);
    ZeroSquares(y);
    if SumSq(g) > 0 {
      IndexOrder(|c|, Sum(g) as real, SumSq(y) as real, SumSq(g) as real);
    }
  }

  ghost predicate SpreadAtMost(c: seq<nat>, d: nat) {
    forall i, j | 0 <= i < |c| && 0 <= j < |c| :: c[i] <= c[j] + d
  }

  /** The spread never exceeds its starting value, or one. */
  lemma {:induction false} SpreadNeverGrows(c: seq<nat>, rounds: nat, d: nat)
    requires c != [] && SpreadAtMost(c, d) && d >= 1
    ensures SpreadAtMost(Rounds(c, rounds), d)
  {
    RoundsAreLevelled(c, rounds);
  }

  /** The grants it takes to lift every process to the level `top`. */
  function Deficit(c: seq<nat>, top: nat): int {
    |c| * top - Sum(c)
  }

  lemma {:induction false} SumBelow(g: seq<nat>, top: nat, k: nat)
    requires k < |g| && g[k] < top
    requires forall i | 0 <= i < |g| :: g[i] <= top
    ensures Sum(g) < |g| * top
  {
    var last := |g| - 1;
    assert (|g| - 1) * top + top == |g| * top;
    if k == last {
      SumAtMost(g[..last], top);
    } else {
      SumBelow(g[..last], top, k);
    }
  }

  lemma {:induction false} SumAtMost(g: seq<nat>, top: nat)
    requires forall i | 0 <= i < |g| :: g[i] <= top
    ensures Sum(g) <= |g| * top
  {
    if g != [] {
      SumAtMost(g[..|g| - 1], top);
      assert (|g| - 1) * top + top == |g| * top;
    }
  }

  /** After enough rounds to lift everybody to the tallest start, counts differ by at most one, for good. */
  lemma {:induction false} EventuallyEven(c: seq<nat>, top: nat, rounds: nat)
    requires c != [] && (forall i | 0 <= i < |c| :: c[i] <= top) && rounds >= Deficit(c, top)
    ensures SpreadAtMost(Rounds(c, rounds), 1)
  {
    var g := Rounds(c, rounds);
    RoundsAreLevelled(c, rounds);
    forall i, j | 0 <= i < |g| && 0 <= j < |g|
      ensures g[i] <= g[j] + 1
    {
      if g[i] > g[j] + 1 {
        assert g[i] == c[i];
        forall k | 0 <= k < |g|
          ensures g[k] <= top
        {
          assert g[k] == c[k] || g[k] <= g[j] + 1;
        }
        SumBelow(g, top, j);
      }
    }
  }

  // ----- what the index measures -----

  /** How far the counts are from `x`, squared and summed. */
  function Off(c: seq<nat>, x: nat): nat {
    if c == [] then 0
    else
      var d: int := c[|c| - 1] - x;
      SquareNonNegative(d);
      Off(c[..|c| - 1], x) + d * d
  }

  lemma {:induction false} SquareNonNegative(d: int)
    ensures d * d >= 0 && (d * d == 0 <==> d == 0)
  {
  }

  lemma {:induction false} OffIs(c: seq<nat>, x: nat)
    ensures Off(c, x) == SumSq(c) - 2 * x * Sum(c) + |c| * (x * x)
    ensures Off(c, x) == 0 <==> forall i | 0 <= i < |c| :: c[i] == x
  {
    if c != [] {
      var init, y := c[..|c| - 1], c[|c| - 1];
      var d: int := y - x;
      OffIs(init, x);
      SquareNonNegative(d);
      SquareOff(y, x);
      DistributeTwo(x, Sum(init), y);
      OneMore(|init|, x * x);
    }
  }

  lemma {:induction false} SquareOff(y: nat, x: nat)
    ensures (y - x) * (y - x) == y * y - 2 * x * y + x * x
  {
  }

  lemma {:induction false} DistributeTwo(x: nat, s: nat, y: nat)
    ensures 2 * x * (s + y) == 2 * x * s + 2 * x * y
  {
  }

  lemma {:induction false} OneMore(n: nat, q: nat)
    ensures (n + 1) * q == n * q + q
  {
  }

  /** `|c|` times the squares, less the square of the sum. */
  function Gap(c: seq<nat>): int {
    |c| * SumSq(c) - Sum(c) * Sum(c)
  }

  lemma {:induction false} GapNext(n: nat, q: nat, s: nat, y: nat)
    ensures (n + 1) * (q + y * y) - (s + y) * (s + y) == n * q - s * s + (q - 2 * y * s + n * (y * y))
  {
    assert (n + 1) * (q + y * y) == n * q + n * (y * y) + q + y * y;
    assert (s + y) * (s + y) == s * s + 2 * y * s + y * y;
  }

  /** The gap is never negative, and none exactly when all counts are equal. */
  lemma {:induction false} GapIsSpread(c: seq<nat>)
    ensures Gap(c) >= 0
    ensures Gap(c) == 0 <==> forall i, j | 0 <= i < |c| && 0 <= j < |c| :: c[i] == c[j]
  {
    if c != [] {
      var init, y := c[..|c| - 1], c[|c| - 1];
      GapIsSpread(init);
      OffIs(init, y);
      GapNext(|init|, SumSq(init), Sum(init), y);
      assert Gap(c) == Gap(init) + Off(init, y);
      if forall i, j | 0 <= i < |c| && 0 <= j < |c| :: c[i] == c[j] {
        assert forall i | 0 <= i < |init| :: init[i] == c[i] == c[|c| - 1];
      }
      if Gap(c) == 0 {
        assert forall i | 0 <= i < |c| :: c[i] == y;
      }
    }
  }

  lemma {:induction false} QuotientIs(a: real, b: real, q: real)
    requires b > 0.0 && q == a / b
    ensures q * b == a && (q <= 1.0 <==> a <= b) && (q == 1.0 <==> a == b)
  {
    assert q * b == a;
  }

  /** The square of the sum over the number of counts times the sum of squares. */
  lemma {:induction false} JainIs(c: seq<nat>)
    requires c != [] && SumSq(c) > 0
    ensures Jain(c) * (|c| * SumSq(c)) as real == (Sum(c) * Sum(c)) as real
    ensures Jain(c) <= 1.0 <==> Gap(c) >= 0
    ensures Jain(c) == 1.0 <==> Gap(c) == 0
  {
    var n, s, q := |c|, Sum(c), SumSq(c);
    TimesPositive(n as real, q as real);
    assert Times(n as real, q as real) == (n * q) as real && Times(s as real, s as real) == (s * s) as real;
    QuotientIs((s * s) as real, (n * q) as real, Jain(c));
  }

  /** The index is at most one, and one exactly when everybody has the same count. */
  lemma {:induction false} JainIsOneIff(c: seq<nat>)
    requires c != []
    ensures Jain(c) <= 1.0
    ensures Jain(c) == 1.0 <==> forall i, j | 0 <= i < |c| && 0 <= j < |c| :: c[i] == c[j]
  {
    GapIsSpread(c);
    if SumSq(c) > 0 {
      JainIs(c);
    } else {
      ZeroCounts(c);
    }
  }

  lemma {:induction false} ZeroCounts(c: seq<nat>)
    requires SumSq(c) == 0
    ensures forall i | 0 <= i < |c| :: c[i] == 0
  {
    if c != [] {
      SquareNonNegative(c[|c| - 1]);
      ZeroCounts(c[..|c| - 1]);
    }
  }
}
