/** The hand-off cell: the scheduler writes the granted pid into one shared cell and a
    waiting process spins until it reads its own pid, then clears the cell in a
    separate step.  Every interleaving of those steps is a run. */
module HandOff {

  type Waiter = int
  type Pid = int

  datatype Phase = Running | Spinning | Seen

  /** `written` and `released` count, per pid, scheduler writes and waiters let go. */
  datatype State = State(cell: Pid, phase: map<Waiter, Phase>, written: multiset<Pid>, released: multiset<Pid>)

  datatype Action =
    | Write(pid: Pid)     // bpf_map_update_elem(run_fd, 0, bestPid)
    | Enter(w: Waiter)    // the kernel returns and its process starts to spin
    | Look(w: Waiter)     // one turn of the spin: read the cell
    | Clear(w: Waiter)    // the read matched: store zero and leave

  function Start(pids: map<Waiter, Pid>): State {
    State(0, map w | w in pids :: Running, multiset{}, multiset{})
  }

  predicate Enabled(pids: map<Waiter, Pid>, s: State, a: Action) {
    match a
    case Write(_) => true
    case Enter(w) => w in pids && w in s.phase && s.phase[w] == Running
    case Look(w) => w in pids && w in s.phase && s.phase[w] == Spinning
    case Clear(w) => w in pids && w in s.phase && s.phase[w] == Seen
  }

  function Step(pids: map<Waiter, Pid>, s: State, a: Action): State
    requires Enabled(pids, s, a)
  {
    match a
    case Write(p) => s.(cell := p, written := s.written + multiset{p})
    case Enter(w) => s.(phase := s.phase[w := Spinning])
    case Look(w) => if s.cell == pids[w] then s.(phase := s.phase[w := Seen]) else s
    case Clear(w) => s.(cell := 0, phase := s.phase[w := Running], released := s.released + multiset{pids[w]})
  }

  predicate Admissible(pids: map<Waiter, Pid>, s: State, run: seq<Action>)
    decreases |run|
  {
    run == [] || (Enabled(pids, s, run[0]) && Admissible(pids, Step(pids, s, run[0]), run[1..]))
  }

  function Run(pids: map<Waiter, Pid>, s: State, run: seq<Action>): State
    requires Admissible(pids, s, run)
    decreases |run|
  {
    if run == [] then s else Run(pids, Step(pids, s, run[0]), run[1..])
  }

  /** The write the scheduler's loop does not guard: a real pid, into an empty cell. */
  predicate PoliteAction(s: State, a: Action) {
    a.Write? ==> a.pid != 0 && s.cell == 0
  }

  predicate Polite(pids: map<Waiter, Pid>, s: State, run: seq<Action>)
    requires Admissible(pids, s, run)
    decreases |run|
  {
    run == [] || (PoliteAction(s, run[0]) && Polite(pids, Step(pids, s, run[0]), run[1..]))
  }

  /** No pid is released more often than the scheduler wrote it, in any run. */
  ghost predicate Conserves(pids: map<Waiter, Pid>) {
    forall run | Admissible(pids, Start(pids), run) ::
      Run(pids, Start(pids), run).released <= Run(pids, Start(pids), run).written
  }

  /** One waiter per pid, and no pid is the cell's empty value. */
  ghost predicate OneWaiterPerPid(pids: map<Waiter, Pid>) {
    && (forall w | w in pids :: pids[w] != 0)
    && (forall v, w | v in pids && w in pids && pids[v] == pids[w] :: v == w)
  }

  // ----- one waiter per pid is enough -----

  ghost predicate HasSeen(pids: map<Waiter, Pid>, s: State, p: Pid) {
    exists w :: w in pids && w in s.phase && pids[w] == p && s.phase[w] == Seen
  }

  /** Grants of `p` that are still owed: one seen but not yet cleared, or one sitting in the cell. */
  ghost function Owed(pids: map<Waiter, Pid>, s: State, p: Pid): nat {
    if HasSeen(pids, s, p) then 1 else if s.cell == p && p != 0 then 1 else 0
  }

  ghost predicate Inv(pids: map<Waiter, Pid>, s: State) {
    && s.phase.Keys == pids.Keys
    && forall p :: s.released[p] + Owed(pids, s, p) <= s.written[p]
  }

  lemma {:induction false} StepKeepsInv(pids: map<Waiter, Pid>, s: State, a: Action)
    requires OneWaiterPerPid(pids) && Inv(pids, s) && Enabled(pids, s, a)
    ensures Inv(pids, Step(pids, s, a))
  {
    var s' := Step(pids, s, a);
    forall p
      ensures s'.released[p] + Owed(pids, s', p) <= s'.written[p]
    {
      assert s.released[p] + Owed(pids, s, p) <= s.written[p];
      if HasSeen(pids, s', p) {
        var w :| w in pids && w in s'.phase && pids[w] == p && s'.phase[w] == Seen;
        assert !HasSeen(pids, s, p) ==> a == Look(w) && s.cell == p;
      }
      if a.Clear? && pids[a.w] == p {
        assert HasSeen(pids, s, p);
        assert !HasSeen(pids, s', p);
      }
    }
  }

  lemma {:induction false} RunKeepsInv(pids: map<Waiter, Pid>, s: State, run: seq<Action>)
    requires OneWaiterPerPid(pids) && Inv(pids, s) && Admissible(pids, s, run)
    ensures Inv(pids, Run(pids, s, run))
    decreases |run|
  {
    if run != [] {
      StepKeepsInv(pids, s, run[0]);
      RunKeepsInv(pids, Step(pids, s, run[0]), run[1..]);
    }
  }

  // ----- and needed -----

  lemma {:induction false} ZeroPidEscapes(pids: map<Waiter, Pid>, w: Waiter)
    requires w in pids && pids[w] == 0
    ensures !Conserves(pids)
  {
    var s := Start(pids);
    var s1 := Step(pids, s, Enter(w));
    var s2 := Step(pids, s1, Look(w));
    var s3 := Step(pids, s2, Clear(w));
    assert Admissible(pids, s3, []) && Run(pids, s3, []) == s3;
    Prepend(pids, s2, Clear(w), []);
    Prepend(pids, s1, Look(w), [Clear(w)]);
    Prepend(pids, s, Enter(w), [Look(w), Clear(w)]);
    var run := [Enter(w)] + [Look(w), Clear(w)];
    assert Admissible(pids, s, run) && Run(pids, s, run) == s3;
    assert s3.released[0] == 1 && s3.written[0] == 0;
  }

  /** Two waiters of one pid can both read a single grant before either clears it. */
  lemma {:induction false} TwinsShareGrant(pids: map<Waiter, Pid>, v: Waiter, w: Waiter) returns (run: seq<Action>)
    requires v in pids && w in pids && v != w && pids[v] == pids[w]
    ensures Admissible(pids, Start(pids), run) && (pids[v] != 0 ==> Polite(pids, Start(pids), run))
    ensures var s := Run(pids, Start(pids), run); s.released[pids[v]] == 2 && s.written[pids[v]] == 1
  {
    var p := pids[v];
    var s := Start(pids);
    var s1 := Step(pids, s, Enter(v));
    var s2 := Step(pids, s1, Enter(w));
    var s3 := Step(pids, s2, Write(p));
    var s4 := Step(pids, s3, Look(v));
    var s5 := Step(pids, s4, Look(w));
    var s6 := Step(pids, s5, Clear(v));
    var s7 := Step(pids, s6, Clear(w));
    assert Admissible(pids, s7, []) && Polite(pids, s7, []) && Run(pids, s7, []) == s7;
    Prepend(pids, s6, Clear(w), []);
    Prepend(pids, s5, Clear(v), [Clear(w)]);
    Prepend(pids, s4, Look(w), [Clear(v), Clear(w)]);
    Prepend(pids, s3, Look(v), [Look(w), Clear(v), Clear(w)]);
    Prepend(pids, s2, Write(p), [Look(v), Look(w), Clear(v), Clear(w)]);
    Prepend(pids, s1, Enter(w), [Write(p), Look(v), Look(w), Clear(v), Clear(w)]);
    Prepend(pids, s, Enter(v), [Enter(w), Write(p), Look(v), Look(w), Clear(v), Clear(w)]);
    run := [Enter(v)] + [Enter(w), Write(p), Look(v), Look(w), Clear(v), Clear(w)];
    assert Run(pids, s, run) == s7;
  }

  lemma {:induction false} Prepend(pids: map<Waiter, Pid>, s: State, a: Action, rest: seq<Action>)
    requires Enabled(pids, s, a) && Admissible(pids, Step(pids, s, a), rest)
    ensures Admissible(pids, s, [a] + rest)
    ensures Run(pids, s, [a] + rest) == Run(pids, Step(pids, s, a), rest)
    ensures Polite(pids, s, [a] + rest) <==> PoliteAction(s, a) && Polite(pids, Step(pids, s, a), rest)
  {
    assert ([a] + rest)[1..] == rest;
  }

  /** The cell conserves grants in every interleaving if and only if the waiters
      have distinct, nonzero pids. */
  lemma {:induction false} ConservesIff(pids: map<Waiter, Pid>)
    ensures Conserves(pids) <==> OneWaiterPerPid(pids)
  {
    if OneWaiterPerPid(pids) {
      forall run | Admissible(pids, Start(pids), run)
        ensures Run(pids, Start(pids), run).released <= Run(pids, Start(pids), run).written
      {
        RunKeepsInv(pids, Start(pids), run);
        var s := Run(pids, Start(pids), run);
        assert forall p :: s.released[p] <= s.written[p];
      }
    } else if w :| w in pids && pids[w] == 0 {
      ZeroPidEscapes(pids, w);
    } else {
      var v, w :| v in pids && w in pids && pids[v] == pids[w] && v != w;
      var run := TwinsShareGrant(pids, v, w);
    }
  }

  /** The converse does not hold: a slow clear can erase a grant meant for another process. */
  lemma {:induction false} GrantCanBeLost() returns (pids: map<Waiter, Pid>, run: seq<Action>)
    ensures OneWaiterPerPid(pids) && Admissible(pids, Start(pids), run)
    ensures var s := Run(pids, Start(pids), run);
            && 2 in pids && 2 in s.phase && s.phase[2] == Spinning
            && s.written[pids[2]] == 1 && s.released[pids[2]] == 0 && s.cell == 0
  {
    pids := map[1 := 11, 2 := 22];
    var s := Start(pids);
    var s1 := Step(pids, s, Enter(1));
    var s2 := Step(pids, s1, Enter(2));
    var s3 := Step(pids, s2, Write(11));
    var s4 := Step(pids, s3, Look(1));
    var s5 := Step(pids, s4, Write(22));
    var s6 := Step(pids, s5, Clear(1));
    assert Admissible(pids, s6, []) && Run(pids, s6, []) == s6;
    Prepend(pids, s5, Clear(1), []);
    Prepend(pids, s4, Write(22), [Clear(1)]);
    Prepend(pids, s3, Look(1), [Write(22), Clear(1)]);
    Prepend(pids, s2, Write(11), [Look(1), Write(22), Clear(1)]);
    Prepend(pids, s1, Enter(2), [Write(11), Look(1), Write(22), Clear(1)]);
    Prepend(pids, s, Enter(1), [Enter(2), Write(11), Look(1), Write(22), Clear(1)]);
    run := [Enter(1)] + [Enter(2), Write(11), Look(1), Write(22), Clear(1)];
    assert Run(pids, s, run) == s6;
  }

  // ----- when no grant is lost -----

  /** Every grant written was taken up, is about to be, or still sits in the cell. */
  ghost predicate NothingLost(pids: map<Waiter, Pid>, s: State) {
    forall p | p != 0 :: s.written[p] == s.released[p] + Owed(pids, s, p)
  }

  predicate WriteFree(run: seq<Action>) {
    forall k | 0 <= k < |run| :: !run[k].Write?
  }

  /** Nothing is lost, and a waiter that has seen its grant still finds it in the cell. */
  ghost predicate PoliteInv(pids: map<Waiter, Pid>, s: State) {
    && s.phase.Keys == pids.Keys
    && (forall w | w in pids && w in s.phase && s.phase[w] == Seen :: s.cell == pids[w])
    && NothingLost(pids, s)
  }

  lemma {:induction false} PoliteStepKeeps(pids: map<Waiter, Pid>, s: State, a: Action)
    requires OneWaiterPerPid(pids) && PoliteInv(pids, s) && Enabled(pids, s, a) && PoliteAction(s, a)
    ensures PoliteInv(pids, Step(pids, s, a))
  {
    var s' := Step(pids, s, a);
    forall p | p != 0
      ensures s'.written[p] == s'.released[p] + Owed(pids, s', p)
    {
      assert s.written[p] == s.released[p] + Owed(pids, s, p);
      if HasSeen(pids, s', p) {
        var w :| w in pids && w in s'.phase && pids[w] == p && s'.phase[w] == Seen;
        assert !HasSeen(pids, s, p) ==> a == Look(w) && s.cell == p;
      } else if HasSeen(pids, s, p) {
        var w :| w in pids && w in s.phase && pids[w] == p && s.phase[w] == Seen;
        assert a == Clear(w);
      }
    }
  }

  lemma {:induction false} PoliteRunKeeps(pids: map<Waiter, Pid>, s: State, run: seq<Action>)
    requires OneWaiterPerPid(pids) && PoliteInv(pids, s) && Admissible(pids, s, run) && Polite(pids, s, run)
    ensures PoliteInv(pids, Run(pids, s, run))
    decreases |run|
  {
    if run != [] {
      PoliteStepKeeps(pids, s, run[0]);
      PoliteRunKeeps(pids, Step(pids, s, run[0]), run[1..]);
    }
  }

  /** With one waiter per pid, a scheduler that only writes into an empty cell loses no grant, in any run. */
  lemma {:induction false} PoliteRunsLoseNothing(pids: map<Waiter, Pid>, run: seq<Action>)
    requires OneWaiterPerPid(pids) && Admissible(pids, Start(pids), run) && Polite(pids, Start(pids), run)
    ensures PoliteInv(pids, Run(pids, Start(pids), run))
  {
    PoliteRunKeeps(pids, Start(pids), run);
  }

  lemma {:induction false} WriteFreeIsPolite(pids: map<Waiter, Pid>, s: State, run: seq<Action>)
    requires Admissible(pids, s, run) && WriteFree(run)
    ensures Polite(pids, s, run)
    decreases |run|
  {
    if run != [] {
      assert !run[0].Write?;
      assert forall k | 0 <= k < |run[1..]| :: run[1..][k] == run[k + 1];
      WriteFreeIsPolite(pids, Step(pids, s, run[0]), run[1..]);
    }
  }

  /** After the write of `p` some run of the waiters alone ends with a grant lost. */
  ghost predicate CanLose(pids: map<Waiter, Pid>, s: State, p: Pid) {
    exists run :: && Admissible(pids, Step(pids, s, Write(p)), run) && WriteFree(run)
                  && !NothingLost(pids, Run(pids, Step(pids, s, Write(p)), run))
  }

  /** Overwriting a grant loses it at once, or the new one when the old one's reader clears the cell. */
  lemma {:induction false} OverwriteLoses(pids: map<Waiter, Pid>, s: State, p: Pid)
    requires OneWaiterPerPid(pids) && PoliteInv(pids, s) && p != 0 && s.cell != 0
    ensures CanLose(pids, s, p)
  {
    var c, s' := s.cell, Step(pids, s, Write(p));
    assert Admissible(pids, s', []) && Run(pids, s', []) == s';
    assert s.written[c] == s.released[c] + Owed(pids, s, c);
    assert s.written[p] == s.released[p] + Owed(pids, s, p);
    if p != c && HasSeen(pids, s, c) {
      var w :| w in pids && w in s.phase && pids[w] == c && s.phase[w] == Seen;
      var last := Step(pids, s', Clear(w));
      assert Admissible(pids, last, []) && Run(pids, last, []) == last;
      Prepend(pids, s', Clear(w), []);
      assert [Clear(w)] + [] == [Clear(w)];
      assert !HasSeen(pids, last, p);
      assert last.written[p] != last.released[p] + Owed(pids, last, p);
      assert WriteFree([Clear(w)]) && !NothingLost(pids, Run(pids, s', [Clear(w)]));
    } else {
      assert HasSeen(pids, s', c) <==> HasSeen(pids, s, c);
      assert s'.written[c] != s'.released[c] + Owed(pids, s', c);
      assert WriteFree([]) && !NothingLost(pids, Run(pids, s', []));
    }
  }

  /** After any polite history a write can lose a grant, its own or another, if and only if it finds one
      in the cell. */
  lemma {:induction false} WriteLosesIff(pids: map<Waiter, Pid>, history: seq<Action>, p: Pid)
    requires OneWaiterPerPid(pids) && Admissible(pids, Start(pids), history) && Polite(pids, Start(pids), history)
    requires p != 0
    ensures var s := Run(pids, Start(pids), history); CanLose(pids, s, p) <==> s.cell != 0
  {
    PoliteRunsLoseNothing(pids, history);
    var s := Run(pids, Start(pids), history);
    if s.cell != 0 {
      OverwriteLoses(pids, s, p);
    } else {
      var s' := Step(pids, s, Write(p));
      PoliteStepKeeps(pids, s, Write(p));
      forall run | Admissible(pids, s', run) && WriteFree(run)
        ensures NothingLost(pids, Run(pids, s', run))
      {
        WriteFreeIsPolite(pids, s', run);
        PoliteRunKeeps(pids, s', run);
      }
    }
  }

  // ----- and one waiter per pid is needed for that too -----

  ghost predicate PoliteKeepsAll(pids: map<Waiter, Pid>) {
    forall run | Admissible(pids, Start(pids), run) && Polite(pids, Start(pids), run) ::
      NothingLost(pids, Run(pids, Start(pids), run))
  }

  /** A waiter with the cell's empty value as its pid takes the emptiness for its grant and clears a real one. */
  lemma {:induction false} ZeroPidErases(pids: map<Waiter, Pid>, w: Waiter)
    requires w in pids && pids[w] == 0
    ensures !PoliteKeepsAll(pids)
  {
    var s := Start(pids);
    var s1 := Step(pids, s, Enter(w));
    var s2 := Step(pids, s1, Look(w));
    var s3 := Step(pids, s2, Write(1));
    var s4 := Step(pids, s3, Clear(w));
    assert Admissible(pids, s4, []) && Polite(pids, s4, []) && Run(pids, s4, []) == s4;
    Prepend(pids, s3, Clear(w), []);
    Prepend(pids, s2, Write(1), [Clear(w)]);
    Prepend(pids, s1, Look(w), [Write(1), Clear(w)]);
    Prepend(pids, s, Enter(w), [Look(w), Write(1), Clear(w)]);
    var run := [Enter(w)] + [Look(w), Write(1), Clear(w)];
    assert Admissible(pids, s, run) && Polite(pids, s, run) && Run(pids, s, run) == s4;
    assert !HasSeen(pids, s4, 1);
    assert s4.written[1] != s4.released[1] + Owed(pids, s4, 1);
  }

  /** Every polite run accounts for every grant if and only if the waiters have distinct, nonzero pids. */
  lemma {:induction false} PoliteKeepsAllIff(pids: map<Waiter, Pid>)
    ensures PoliteKeepsAll(pids) <==> OneWaiterPerPid(pids)
  {
    if OneWaiterPerPid(pids) {
      forall run | Admissible(pids, Start(pids), run) && Polite(pids, Start(pids), run)
        ensures NothingLost(pids, Run(pids, Start(pids), run))
      {
        PoliteRunsLoseNothing(pids, run);
      }
    } else if w :| w in pids && pids[w] == 0 {
      ZeroPidErases(pids, w);
    } else {
      var v, w :| v in pids && w in pids && pids[v] == pids[w] && v != w;
      var run := TwinsShareGrant(pids, v, w);
    }
  }
}
