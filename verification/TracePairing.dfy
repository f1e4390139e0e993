/** Operator tracing: the configured operator list is packed into a 128-bit map, and two
    probes around each operator call emit a start (20) and an end (25) event, guarded by
    a per-thread flag in a hash table of eight entries. */
module TracePairing {

  type Op = bv64
  type Pid = int

  // ----- the operator map -----

  predicate Bit(word: bv64, k: bv64)
    requires k < 64
  {
    word & (1 << k) != 0
  }

  /** The probe's test: low word below 64, else the high word, at the index modulo 64. */
  predicate Selected(lo: bv64, hi: bv64, op: Op) {
    Bit(if op < 64 then lo else hi, op & 63)
  }

  /** The map position the probe consults for an operator. */
  function Slot(op: Op): Op {
    if op < 64 then op else 64 + (op & 63)
  }

  lemma {:induction false} SetBit(word: bv64, j: bv64, k: bv64)
    requires j < 64 && k < 64
    ensures Bit(word | (1 << j), k) <==> Bit(word, k) || j == k
  {
  }

  lemma {:induction false} LowSix(op: Op)
    ensures op & 63 < 64
    ensures op < 64 ==> op & 63 == op
    ensures 64 <= op < 128 ==> op & 63 == op - 64
  {
  }

  /** One turn of the packing loop; a 64-bit field drops shifts past its width. */
  function Pack(lo: bv64, hi: bv64, op: Op): (bv64, bv64) {
    if op < 64 then (lo | (1 << op), hi)
    else if op - 64 < 64 then (lo, hi | (1 << (op - 64)))
    else (lo, hi)
  }

  lemma {:induction false} SlotRange(op: Op)
    ensures Slot(op) < 128
    ensures op >= 64 ==> Slot(op) >= 64 && Slot(op) - 64 == op & 63
    ensures op < 128 ==> Slot(op) == op
  {
    LowSix(op);
  }

  lemma {:induction false} PackLow(lo: bv64, hi: bv64, x: Op, op: Op)
    requires x < 64
    ensures Selected(lo | (1 << x), hi, op) <==> Selected(lo, hi, op) || Slot(op) == x
  {
    LowSix(op);
    SlotRange(op);
    if op < 64 {
      SetBit(lo, x, op);
    }
  }

  lemma {:induction false} PackHigh(lo: bv64, hi: bv64, x: Op, op: Op)
    requires 64 <= x && x - 64 < 64
    ensures Selected(lo, hi | (1 << (x - 64)), op) <==> Selected(lo, hi, op) || Slot(op) == x
  {
    LowSix(op);
    SlotRange(op);
    if op >= 64 {
      SetBit(hi, x - 64, op & 63);
    }
  }

  /** Listing one more operator selects its slot and nothing else. */
  lemma {:induction false} PackSelects(lo: bv64, hi: bv64, x: Op, op: Op)
    ensures Selected(Pack(lo, hi, x).0, Pack(lo, hi, x).1, op) <==> Selected(lo, hi, op) || Slot(op) == x
  {
    if x < 64 {
      PackLow(lo, hi, x, op);
    } else if x - 64 < 64 {
      PackHigh(lo, hi, x, op);
    } else {
      SlotRange(op);
    }
  }

  /** The words select exactly the operators whose slot is listed. */
  ghost predicate Packs(lo: bv64, hi: bv64, ops: seq<Op>) {
    forall op :: Selected(lo, hi, op) <==> Slot(op) in ops
  }

  lemma {:induction false} PackOneMore(lo: bv64, hi: bv64, ops: seq<Op>, x: Op)
    requires Packs(lo, hi, ops)
    ensures Packs(Pack(lo, hi, x).0, Pack(lo, hi, x).1, ops + [x])
  {
    forall op
      ensures Selected(Pack(lo, hi, x).0, Pack(lo, hi, x).1, op) <==> Slot(op) in ops + [x]
    {
      PackSelects(lo, hi, x, op);
    }
  }

  lemma {:induction false} PackNone()
    ensures Packs(0, 0, [])
  {
    forall op
      ensures !Selected(0, 0, op)
    {
      LowSix(op);
    }
  }

  method BuildMap(ops: seq<Op>) returns (lo: bv64, hi: bv64)
    ensures Packs(lo, hi, ops)
  {
    lo, hi := 0, 0;
    PackNone();
    for i := 0 to |ops|
      invariant Packs(lo, hi, ops[..i])
    {
      PackOneMore(lo, hi, ops[..i], ops[i]);
      assert ops[..i + 1] == ops[..i] + [ops[i]];
      lo, hi := PackIn(lo, hi, ops[i]);
    }
    assert ops[..|ops|] == ops;
  }

  method PackIn(lo: bv64, hi: bv64, op: Op) returns (lo': bv64, hi': bv64)
    ensures (lo', hi') == Pack(lo, hi, op)
  {
    lo', hi' := lo, hi;
    if op < 64 {
      lo' := lo | (1 << op);
    } else if op - 64 < 64 {
      hi' := hi | (1 << (op - 64));
    }
  }

  /** Bit `k` of the low word stands for operator `k`, and of the high word for operator `64 + k`. */
  lemma {:induction false} BitsOfMap(lo: bv64, hi: bv64, ops: seq<Op>, k: Op)
    requires Packs(lo, hi, ops) && k < 64
    ensures lo & (1 << k) != 0 <==> k in ops
    ensures hi & (1 << k) != 0 <==> 64 + k in ops
  {
    SlotRange(k);
    SlotRange(64 + k);
    HighAlias(k);
    assert Selected(lo, hi, k) <==> Slot(k) in ops;
    assert Selected(lo, hi, 64 + k) <==> Slot(64 + k) in ops;
  }

  lemma {:induction false} HighAlias(k: Op)
    requires k < 64
    ensures 64 <= 64 + k < 128 && (64 + k) & 63 == k && k & 63 == k
  {
  }

  const MAX_NUM_OPS: nat := 128

  function Every(n: nat): (ops: seq<Op>)
    requires n <= 128
    ensures |ops| == n && forall i | 0 <= i < n :: ops[i] == i as Op
  {
    seq(n, i requires 0 <= i < n => i as Op)
  }

  /** The configured list, or every operator when it is empty or the whole structure is traced. */
  method Activate(configured: seq<Op>, structural: bool) returns (lo: bv64, hi: bv64)
    ensures Packs(lo, hi, if configured == [] || structural then Every(128) else configured)
  {
    var ops := configured;
    if |configured| == 0 || structural {
      ops := Every(MAX_NUM_OPS);
    }
    lo, hi := BuildMap(ops);
  }

  /** Without a list every operator of a call is selected. */
  lemma {:induction false} DefaultSelectsAll(lo: bv64, hi: bv64, op: Op)
    requires Packs(lo, hi, Every(128))
    ensures Selected(lo, hi, op)
  {
    SlotRange(op);
    var k := Slot(op) as nat;
    assert Every(128)[k] == Slot(op);
    assert Selected(lo, hi, op) <==> Slot(op) in Every(128);
  }

  /** For a called operator below 128 the probe's verdict is membership in the list; above, it is
      membership of the operator's alias. */
  lemma {:induction false} SelectsListed(lo: bv64, hi: bv64, ops: seq<Op>, op: Op)
    requires Packs(lo, hi, ops)
    ensures op < 128 ==> (Selected(lo, hi, op) <==> op in ops)
    ensures op >= 128 ==> (Selected(lo, hi, op) <==> 64 + (op & 63) in ops)
  {
    SlotRange(op);
    assert Selected(lo, hi, op) <==> Slot(op) in ops;
  }

  // ----- the probes -----

  datatype Call = Start(pid: Pid, op: Op) | End(pid: Pid)
  datatype Event = Begun(pid: Pid, op: Op) | Ended(pid: Pid)  // types 20 and 25

  datatype Tracer = Tracer(on: map<Pid, bool>, events: seq<Event>)

  const TABLE_SIZE: nat := 8

  /** Hash-table update: a full table refuses a new key. */
  function SetFlag(on: map<Pid, bool>, pid: Pid, flag: bool): map<Pid, bool> {
    if pid in on || |on| < TABLE_SIZE then on[pid := flag] else on
  }

  function Handle(sel: Op -> bool, t: Tracer, c: Call): Tracer {
    match c
    case Start(pid, op) =>
      if sel(op) then Tracer(SetFlag(t.on, pid, true), t.events + [Begun(pid, op)])
      else Tracer(SetFlag(t.on, pid, false), t.events)
    case End(pid) =>
      if pid in t.on && t.on[pid] then t.(events := t.events + [Ended(pid)]) else t
  }

  /** The tracer after a whole interleaving of operator calls. */
  function Traced(sel: Op -> bool, calls: seq<Call>): Tracer {
    if calls == [] then Tracer(map[], [])
    else Handle(sel, Traced(sel, calls[..|calls| - 1]), calls[|calls| - 1])
  }

  /** The probe pair as loaded: one operator map and one flag table, updated by each probe hit. */
  class Probes {
    var lo: bv64
    var hi: bv64
    var on: map<Pid, bool>
    var events: seq<Event>

    constructor (lo: bv64, hi: bv64)
      ensures this.lo == lo && this.hi == hi && State() == Tracer(map[], [])
    {
      this.lo, this.hi, this.on, this.events := lo, hi, map[], [];
    }

    function State(): Tracer
      reads this
    {
      Tracer(on, events)
    }

    method ForwardStart(pid: Pid, op: Op)
      modifies this`on, this`events
      ensures State() == Handle((x: Op) => Selected(old(lo), old(hi), x), old(State()), Start(pid, op))
    {
      if Selected(lo, hi, op) {
        on := SetFlag(on, pid, true);
      } else {
        on := SetFlag(on, pid, false);
        return;
      }
      events := events + [Begun(pid, op)];
    }

    method ForwardEnd(pid: Pid)
      modifies this`events
      ensures State() == Handle((x: Op) => Selected(old(lo), old(hi), x), old(State()), End(pid))
    {
      if pid !in on || !on[pid] {
        return;
      }
      events := events + [Ended(pid)];
    }

    /** Any interleaving of probe hits leaves the state the specification gives. */
    method Replay(calls: seq<Call>)
      requires State() == Tracer(map[], [])
      modifies this`on, this`events
      ensures State() == Traced((x: Op) => Selected(old(lo), old(hi), x), calls)
    {
      ghost var sel := (x: Op) => Selected(old(lo), old(hi), x);
      for i := 0 to |calls|
        invariant State() == Traced(sel, calls[..i])
      {
        assert calls[..i + 1][..i] == calls[..i];
        if calls[i].Start? {
          ForwardStart(calls[i].pid, calls[i].op);
        } else {
          ForwardEnd(calls[i].pid);
        }
      }
      assert calls[..|calls|] == calls;
    }
  }

  // ----- what one thread did, and what should be reported of it -----

  function CallsOf(calls: seq<Call>, pid: Pid): seq<Call> {
    if calls == [] then []
    else
      var init, last := calls[..|calls| - 1], calls[|calls| - 1];
      if last.pid == pid then CallsOf(init, pid) + [last] else CallsOf(init, pid)
  }

  function EventsOf(events: seq<Event>, pid: Pid): seq<Event> {
    if events == [] then []
    else
      var init, last := events[..|events| - 1], events[|events| - 1];
      if last.pid == pid then EventsOf(init, pid) + [last] else EventsOf(init, pid)
  }

  /** Calls of one thread that do not nest: start, end, start, end, ... */
  ghost predicate Alternates(c: seq<Call>) {
    forall i | 0 <= i < |c| :: c[i].Start? <==> i % 2 == 0
  }

  /** One begun/ended pair for each selected call in order; a call still open has no end yet. */
  function Report(sel: Op -> bool, c: seq<Call>): seq<Event> {
    if c == [] || c[0].End? then []
    else
      var pid, op := c[0].pid, c[0].op;
      if |c| == 1 then (if sel(op) then [Begun(pid, op)] else [])
      else (if sel(op) then [Begun(pid, op), Ended(pid)] else []) + Report(sel, c[2..])
  }

  lemma {:induction false} ReportCons(sel: Op -> bool, c: seq<Call>)
    requires |c| >= 2 && c[0].Start?
    ensures var pair := if sel(c[0].op) then [Begun(c[0].pid, c[0].op), Ended(c[0].pid)] else [];
            Report(sel, c) == pair + Report(sel, c[2..])
  {
  }

  lemma {:induction false} ReportStart(sel: Op -> bool, c: seq<Call>, x: Call)
    requires Alternates(c) && |c| % 2 == 0 && x.Start?
    ensures Report(sel, c + [x]) == Report(sel, c) + (if sel(x.op) then [Begun(x.pid, x.op)] else [])
    decreases |c|
  {
    if c == [] {
      assert c + [x] == [x];
    } else {
      assert c[0].Start?;
      var d := c[2..];
      assert forall i | 0 <= i < |d| :: d[i] == c[i + 2];
      ReportStart(sel, d, x);
      ReportCons(sel, c);
      ReportCons(sel, c + [x]);
      assert (c + [x])[2..] == d + [x];
    }
  }

  lemma {:induction false} ReportEnd(sel: Op -> bool, c: seq<Call>, x: Call)
    requires Alternates(c) && |c| % 2 == 1 && x.End? && c[|c| - 1].pid == x.pid
    ensures c[|c| - 1].Start?
    ensures Report(sel, c + [x]) == Report(sel, c) + (if sel(c[|c| - 1].op) then [Ended(x.pid)] else [])
    decreases |c|
  {
    assert c[0].Start?;
    if |c| == 1 {
      assert (c + [x])[2..] == [];
    } else {
      var d := c[2..];
      assert forall i | 0 <= i < |d| :: d[i] == c[i + 2];
      ReportEnd(sel, d, x);
      ReportCons(sel, c);
      ReportCons(sel, c + [x]);
      assert (c + [x])[2..] == d + [x];
    }
  }

  // ----- every interleaving -----

  function Pids(calls: seq<Call>): set<Pid> {
    set c | c in calls :: c.pid
  }

  ghost predicate NonNesting(calls: seq<Call>) {
    forall pid :: Alternates(CallsOf(calls, pid))
  }

  /** At most eight threads, none of whose own calls nest. */
  ghost predicate Traceable(calls: seq<Call>) {
    |Pids(calls)| <= 8 && NonNesting(calls)
  }

  lemma {:induction false} TraceablePrefix(calls: seq<Call>)
    requires calls != [] && Traceable(calls)
    ensures Traceable(calls[..|calls| - 1])
    ensures Pids(calls) == Pids(calls[..|calls| - 1]) + {calls[|calls| - 1].pid}
  {
    var init, last := calls[..|calls| - 1], calls[|calls| - 1];
    assert calls == init + [last];
    assert Pids(calls) == Pids(init) + {last.pid};
    SubsetCard(Pids(init), Pids(calls));
    forall pid
      ensures Alternates(CallsOf(init, pid))
    {
      assert Alternates(CallsOf(calls, pid));
      assert CallsOf(init, pid) <= CallsOf(calls, pid);
    }
  }

  lemma {:induction false} SubsetCard(a: set<Pid>, b: set<Pid>)
    requires a <= b
    ensures |a| <= |b|
  {
    assert b == a + (b - a);
  }

  /** The flag of a thread is the verdict on the operator it started last. */
  ghost predicate FlagFollows(sel: Op -> bool, c: seq<Call>, on: map<Pid, bool>, pid: Pid) {
    c != [] ==>
      && pid in on
      && var k := if c[|c| - 1].Start? then |c| - 1 else |c| - 2;
         0 <= k && c[k].Start? && on[pid] == sel(c[k].op)
  }

  ghost predicate FlagsFollow(sel: Op -> bool, calls: seq<Call>, on: map<Pid, bool>) {
    && on.Keys <= Pids(calls)
    && forall pid :: FlagFollows(sel, CallsOf(calls, pid), on, pid)
  }

  lemma {:induction false} AllSamePid(calls: seq<Call>, pid: Pid)
    ensures forall i | 0 <= i < |CallsOf(calls, pid)| :: CallsOf(calls, pid)[i].pid == pid
  {
    if calls != [] {
      AllSamePid(calls[..|calls| - 1], pid);
    }
  }

  /** One thread's flag across one probe hit, while the table has room. */
  lemma {:induction false} FlagStep(sel: Op -> bool, d: seq<Call>, x: Call, t: Tracer, pid: Pid)
    requires FlagFollows(sel, d, t.on, pid)
    requires x.Start? && x.pid !in t.on ==> |t.on| < 8
    requires x.pid == pid ==> Alternates(d + [x])
    ensures FlagFollows(sel, if x.pid == pid then d + [x] else d, Handle(sel, t, x).on, pid)
  {
    if x.pid == pid && x.End? {
      var c := d + [x];
      assert c[|d|].End? && c[|d| - 1].Start?;
      assert d[|d| - 1] == c[|d| - 1];
    }
  }

  lemma {:induction false} FlagsStep(sel: Op -> bool, calls: seq<Call>, t: Tracer)
    requires calls != [] && Traceable(calls)
    requires FlagsFollow(sel, calls[..|calls| - 1], t.on)
    ensures FlagsFollow(sel, calls, Handle(sel, t, calls[|calls| - 1]).on)
  {
    var init, last := calls[..|calls| - 1], calls[|calls| - 1];
    TraceablePrefix(calls);
    if last.Start? && last.pid !in t.on {
      SubsetCard(t.on.Keys + {last.pid}, Pids(calls));
    }
    forall pid
      ensures FlagFollows(sel, CallsOf(calls, pid), Handle(sel, t, last).on, pid)
    {
      assert Alternates(CallsOf(calls, pid));
      FlagStep(sel, CallsOf(init, pid), last, t, pid);
    }
  }

  lemma {:induction false} EventsSnoc(events: seq<Event>, x: Event, pid: Pid)
    ensures EventsOf(events + [x], pid) == EventsOf(events, pid) + (if x.pid == pid then [x] else [])
  {
    assert (events + [x])[..|events|] == events;
  }

  lemma {:induction false} FlagsHold(sel: Op -> bool, calls: seq<Call>)
    requires Traceable(calls)
    ensures FlagsFollow(sel, calls, Traced(sel, calls).on)
    decreases |calls|
  {
    if calls != [] {
      TraceablePrefix(calls);
      FlagsHold(sel, calls[..|calls| - 1]);
      FlagsStep(sel, calls, Traced(sel, calls[..|calls| - 1]));
    }
  }

  /** One thread's events across one probe hit; `d` are its calls before. */
  lemma {:induction false} EventStep(sel: Op -> bool, d: seq<Call>, x: Call, t: Tracer, pid: Pid)
    requires FlagFollows(sel, d, t.on, pid) && EventsOf(t.events, pid) == Report(sel, d)
    requires Alternates(d) && (x.pid == pid ==> Alternates(d + [x])) && forall i | 0 <= i < |d| :: d[i].pid == pid
    ensures EventsOf(Handle(sel, t, x).events, pid) == Report(sel, if x.pid == pid then d + [x] else d)
  {
    assert x.pid == pid ==> (d + [x])[|d|] == x;
    match x
    case Start(p, op) =>
      EventsSnoc(t.events, Begun(p, op), pid);
      if p == pid {
        ReportStart(sel, d, x);
      }
    case End(p) =>
      EventsSnoc(t.events, Ended(p), pid);
      if p == pid {
        ReportEnd(sel, d, x);
      }
  }

  /** Trace pairing: in every interleaving, the events of each thread are exactly one
      begun/ended pair per selected call, in order, with no end for a call still open. */
  lemma {:induction false} PairsExactly(sel: Op -> bool, calls: seq<Call>, pid: Pid)
    requires Traceable(calls)
    ensures EventsOf(Traced(sel, calls).events, pid) == Report(sel, CallsOf(calls, pid))
    decreases |calls|
  {
    if calls != [] {
      var init, last := calls[..|calls| - 1], calls[|calls| - 1];
      TraceablePrefix(calls);
      PairsExactly(sel, init, pid);
      FlagsHold(sel, init);
      AllSamePid(init, pid);
      assert Alternates(CallsOf(calls, pid)) && Alternates(CallsOf(init, pid));
      EventStep(sel, CallsOf(init, pid), last, Traced(sel, init), pid);
    }
  }

  /** A reported thread alternates between begun and ended, beginning with begun. */
  lemma {:induction false} ReportAlternates(sel: Op -> bool, c: seq<Call>)
    ensures forall i | 0 <= i < |Report(sel, c)| :: Report(sel, c)[i].Begun? <==> i % 2 == 0
    ensures |c| % 2 == 0 ==> |Report(sel, c)| % 2 == 0
    decreases |c|
  {
    if |c| >= 2 && c[0].Start? {
      ReportAlternates(sel, c[2..]);
    }
  }

  lemma {:induction false} ReportSame(sel: Op -> bool, sel': Op -> bool, c: seq<Call>)
    requires forall i | 0 <= i < |c| && c[i].Start? :: sel(c[i].op) == sel'(c[i].op)
    ensures Report(sel, c) == Report(sel', c)
    decreases |c|
  {
    if |c| >= 2 && c[0].Start? {
      var d := c[2..];
      assert forall i | 0 <= i < |d| :: d[i] == c[i + 2];
      ReportSame(sel, sel', d);
    }
  }

  lemma {:induction false} OwnCallsAreCalls(calls: seq<Call>, pid: Pid, i: nat)
    requires i < |CallsOf(calls, pid)|
    ensures CallsOf(calls, pid)[i] in calls
  {
    var init := calls[..|calls| - 1];
    assert calls == init + [calls[|calls| - 1]];
    if i < |CallsOf(init, pid)| {
      OwnCallsAreCalls(init, pid, i);
    }
  }

  /** With the map built from a list, exactly the calls whose operator is listed are reported. */
  lemma {:induction false} ListedCallsAreReported(lo: bv64, hi: bv64, ops: seq<Op>, calls: seq<Call>, pid: Pid)
    requires Packs(lo, hi, ops) && Traceable(calls)
    requires forall c | c in calls && c.Start? :: c.op < 128
    ensures EventsOf(Traced((x: Op) => Selected(lo, hi, x), calls).events, pid)
         == Report((x: Op) => x in ops, CallsOf(calls, pid))
  {
    var sel, listed, own := (x: Op) => Selected(lo, hi, x), (x: Op) => x in ops, CallsOf(calls, pid);
    PairsExactly(sel, calls, pid);
    forall i | 0 <= i < |own| && own[i].Start?
      ensures sel(own[i].op) == listed(own[i].op)
    {
      OwnCallsAreCalls(calls, pid, i);
      SelectsListed(lo, hi, ops, own[i].op);
    }
    ReportSame(sel, listed, own);
  }

  // ----- how many threads the table serves -----

  /** Every non-nesting interleaving of these threads is reported exactly, whatever is selected. */
  ghost predicate PairsFor(threads: set<Pid>) {
    forall sel: Op -> bool, calls: seq<Call>, pid: Pid | NonNesting(calls) && Pids(calls) <= threads ::
      EventsOf(Traced(sel, calls).events, pid) == Report(sel, CallsOf(calls, pid))
  }

  ghost predicate Distinct(ps: seq<Pid>) {
    forall i, j | 0 <= i < j < |ps| :: ps[i] != ps[j]
  }

  lemma {:induction false} HasMember(pids: set<Pid>)
    ensures |pids| > 0 ==> exists p :: p in pids
  {
    if !exists p :: p in pids {
      assert pids <= {};
    }
  }

  lemma {:induction false} Several(threads: set<Pid>, n: nat) returns (ps: seq<Pid>)
    requires n <= |threads|
    ensures |ps| == n && Distinct(ps) && forall i | 0 <= i < n :: ps[i] in threads
    decreases n
  {
    if n == 0 {
      ps := [];
    } else {
      HasMember(threads);
      var p :| p in threads;
      var rest := Several(threads - {p}, n - 1);
      ps := [p] + rest;
    }
  }

  /** Each of the threads starts one call and is still in it. */
  function Opening(ps: seq<Pid>): seq<Call> {
    if ps == [] then [] else Opening(ps[..|ps| - 1]) + [Start(ps[|ps| - 1], 0)]
  }

  lemma {:induction false} CallsSnoc(calls: seq<Call>, x: Call, pid: Pid)
    ensures CallsOf(calls + [x], pid) == CallsOf(calls, pid) + (if x.pid == pid then [x] else [])
  {
    assert (calls + [x])[..|calls|] == calls;
  }

  lemma {:induction false} TracedSnoc(sel: Op -> bool, calls: seq<Call>, x: Call)
    ensures Traced(sel, calls + [x]) == Handle(sel, Traced(sel, calls), x)
  {
    assert (calls + [x])[..|calls|] == calls;
  }

  lemma {:induction false} OpeningCalls(ps: seq<Pid>, pid: Pid)
    requires Distinct(ps)
    ensures CallsOf(Opening(ps), pid) == if pid in ps then [Start(pid, 0)] else []
  {
    if ps != [] {
      var init, last := ps[..|ps| - 1], ps[|ps| - 1];
      OpeningCalls(init, pid);
      CallsSnoc(Opening(init), Start(last, 0), pid);
      assert ps == init + [last];
    }
  }

  /** The flag table after the threads have started: one entry each, as long as it has room. */
  lemma {:induction false} OpeningFills(sel: Op -> bool, ps: seq<Pid>)
    requires Distinct(ps) && |ps| <= 8
    ensures var on := Traced(sel, Opening(ps)).on; |on| == |ps| && forall p :: p in on <==> p in ps
  {
    if ps != [] {
      var init, last := ps[..|ps| - 1], ps[|ps| - 1];
      OpeningFills(sel, init);
      TracedSnoc(sel, Opening(init), Start(last, 0));
      assert ps == init + [last] && last !in init;
    }
  }

  lemma {:induction false} OpeningPids(ps: seq<Pid>)
    ensures forall c | c in Opening(ps) :: c.pid in ps
  {
    if ps != [] {
      var init, last := ps[..|ps| - 1], ps[|ps| - 1];
      OpeningPids(init);
      assert ps == init + [last];
    }
  }

  lemma {:induction false} OpeningIsTraceable(ps: seq<Pid>)
    requires Distinct(ps) && |ps| <= 8
    ensures Traceable(Opening(ps))
  {
    OpeningPids(ps);
    SetOfSeq(ps);
    SubsetCard(Pids(Opening(ps)), set p | p in ps);
    forall pid
      ensures Alternates(CallsOf(Opening(ps), pid))
    {
      OpeningCalls(ps, pid);
    }
  }

  lemma {:induction false} SetOfSeq(ps: seq<Pid>)
    ensures |set p | p in ps| <= |ps|
  {
    if ps != [] {
      var init, last := ps[..|ps| - 1], ps[|ps| - 1];
      SetOfSeq(init);
      assert (set p | p in ps) == (set p | p in init) + {last};
    }
  }

  /** The threads start, then one more starts and ends a call. */
  function NinthRun(ps: seq<Pid>, pid: Pid): seq<Call> {
    Opening(ps) + [Start(pid, 0)] + [End(pid)]
  }

  lemma {:induction false} NinthCalls(ps: seq<Pid>, pid: Pid, q: Pid)
    requires Distinct(ps) && pid !in ps
    ensures CallsOf(NinthRun(ps, pid), q)
         == if q == pid then [Start(pid, 0), End(pid)] else if q in ps then [Start(q, 0)] else []
  {
    OpeningCalls(ps, q);
    CallsSnoc(Opening(ps), Start(pid, 0), q);
    CallsSnoc(Opening(ps) + [Start(pid, 0)], End(pid), q);
  }

  lemma {:induction false} NinthEvents(sel: Op -> bool, ps: seq<Pid>, pid: Pid)
    requires Distinct(ps) && |ps| == 8 && pid !in ps && sel(0)
    ensures EventsOf(Traced(sel, NinthRun(ps, pid)).events, pid) == [Begun(pid, 0)]
  {
    OpeningIsTraceable(ps);
    OpeningCalls(ps, pid);
    PairsExactly(sel, Opening(ps), pid);
    OpeningFills(sel, ps);
    TracedSnoc(sel, Opening(ps), Start(pid, 0));
    TracedSnoc(sel, Opening(ps) + [Start(pid, 0)], End(pid));
    EventsSnoc(Traced(sel, Opening(ps)).events, Begun(pid, 0), pid);
  }

  ghost predicate Misreported(sel: Op -> bool, calls: seq<Call>, pid: Pid) {
    EventsOf(Traced(sel, calls).events, pid) != Report(sel, CallsOf(calls, pid))
  }

  /** Eight threads fill the table; the ninth one's selected call is begun and never ended. */
  lemma {:induction false} NinthThreadLosesItsEnd(sel: Op -> bool, ps: seq<Pid>, pid: Pid)
    requires Distinct(ps) && |ps| == 8 && pid !in ps && sel(0)
    ensures NonNesting(NinthRun(ps, pid)) && forall c | c in NinthRun(ps, pid) :: c.pid in ps + [pid]
    ensures EventsOf(Traced(sel, NinthRun(ps, pid)).events, pid) == [Begun(pid, 0)]
    ensures Report(sel, CallsOf(NinthRun(ps, pid), pid)) == [Begun(pid, 0), Ended(pid)]
  {
    NinthEvents(sel, ps, pid);
    NinthIsNonNesting(ps, pid);
    OpeningPids(ps);
    NinthCalls(ps, pid, pid);
    OnePair(sel, pid);
  }

  lemma {:induction false} NinthAlternates(ps: seq<Pid>, pid: Pid, q: Pid)
    requires Distinct(ps) && pid !in ps
    ensures Alternates(CallsOf(NinthRun(ps, pid), q))
  {
    NinthCalls(ps, pid, q);
    var both: seq<Call> := [Start(pid, 0), End(pid)];
    assert Alternates(both) && Alternates([Start(q, 0)]) && Alternates([]);
  }

  lemma {:induction false} NinthIsNonNesting(ps: seq<Pid>, pid: Pid)
    requires Distinct(ps) && pid !in ps
    ensures NonNesting(NinthRun(ps, pid))
  {
    forall q
      ensures Alternates(CallsOf(NinthRun(ps, pid), q))
    {
      NinthAlternates(ps, pid, q);
    }
  }

  lemma {:induction false} OnePair(sel: Op -> bool, pid: Pid)
    requires sel(0)
    ensures Report(sel, [Start(pid, 0), End(pid)]) == [Begun(pid, 0), Ended(pid)]
  {
    ReportCons(sel, [Start(pid, 0), End(pid)]);
    assert [Start(pid, 0), End(pid)][2..] == [];
  }

  lemma {:induction false} NineThreads(threads: set<Pid>) returns (sel: Op -> bool, calls: seq<Call>, pid: Pid)
    requires |threads| > 8
    ensures NonNesting(calls) && Pids(calls) <= threads && Misreported(sel, calls, pid)
  {
    var nine := Several(threads, 9);
    sel := (op: Op) => true;
    pid := nine[8];
    calls := NinthRun(nine[..8], pid);
    NinthThreadLosesItsEnd(sel, nine[..8], pid);
  }

  /** The tracer reports every non-nesting interleaving of a set of threads exactly, if and only if the
      threads fit the flag table. */
  lemma {:induction false} PairsForIff(threads: set<Pid>)
    ensures PairsFor(threads) <==> |threads| <= 8
  {
    if |threads| <= 8 {
      forall sel: Op -> bool, calls: seq<Call>, pid: Pid | NonNesting(calls) && Pids(calls) <= threads
        ensures EventsOf(Traced(sel, calls).events, pid) == Report(sel, CallsOf(calls, pid))
      {
        SubsetCard(Pids(calls), threads);
        PairsExactly(sel, calls, pid);
      }
    } else {
      var sel, calls, pid := NineThreads(threads);
    }
  }
}
