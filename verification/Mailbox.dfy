/** The GPU-to-host helper call: device threads take a compare-and-swap lock, fill
    one shared mailbox, raise `flag1`, spin on `flag2`, load the response and
    release.  Every shared access is one step; any number of threads interleave
    with one host that follows the flag contract of `CommSharedMem`. */
module Mailbox {
  import opened Common

  type Tid = int
  type Bytes = map<nat, int>  // offset in the mailbox to byte
  type Word = x: int | 0 <= x < 0x1_0000_0000_0000_0000
  type Half = x: int | 0 <= x < 0x1_0000_0000

  const TWO32 := 0x1_0000_0000
  const TWO31 := 0x8000_0000

  /** The instruction a helper uses on the response: `ld.u64` or `ld.s32`. */
  datatype Load = U64 | S32

  /** A helper call; `payload` is the key, value or format bytes it copies, each at its offset. */
  datatype Call = Call(request: int, mapId: int, payload: Bytes, load: Load)

  /** What the host stores in the response union: all eight bytes, or an `int` in the low four. */
  datatype Answer = Whole(word: Word) | Int(low: Half)

  datatype Thread =
    | Idle
    | Copying(call: Call, left: set<nat>)  // offsets still to copy
    | Acquiring(call: Call)
    | StoringRequest(call: Call)
    | StoringMap(call: Call)
    | Raising(call: Call)
    | Awaiting(call: Call)
    | Clearing(call: Call)
    | Loading(call: Call)
    | Releasing(call: Call, value: int)

  datatype Host =
    | Watching
    | Seen
    | Claimed
    | GotRequest(request: int)
    | GotMap(request: int, mapId: int)
    | GotPayload(request: int, mapId: int, payload: Bytes, copiesSeen: nat)
    | Answered

  datatype Copy = Copy(tid: Tid, offset: nat, byte: int)
  datatype Raised = Raised(tid: Tid, call: Call)
  datatype Served = Served(request: int, mapId: int, payload: Bytes, copiesSeen: nat, answer: Answer)
  datatype Returned = Returned(tid: Tid, call: Call, value: int)

  /** The mailbox fields, the threads, the host and four histories: bytes copied,
      requests raised, requests served and calls returned, in order. */
  datatype State = State(
    flag1: int, flag2: int, occupy: int,
    requestId: int, mapId: int, payload: Bytes, resp: Word,
    threads: map<Tid, Thread>, host: Host,
    copies: seq<Copy>, raised: seq<Raised>, served: seq<Served>, returned: seq<Returned>)

  datatype Action =
    | Begin(tid: Tid, call: Call)
    | CopyByte(tid: Tid, offset: nat)
    | Device(tid: Tid)
    | HostMove(answer: Answer)

  predicate Initial(s: State) {
    && s.flag1 == 0 && s.flag2 == 0 && s.occupy == 0
    && (forall t | t in s.threads :: s.threads[t] == Idle)
    && s.host == Watching
    && s.copies == [] && s.raised == [] && s.served == [] && s.returned == []
  }

  /** Request kinds 2, 3, 6 and 501 answer with an `int`; 1 and 14 with eight bytes. */
  predicate AnswerFits(request: int, answer: Answer) {
    && (request in {2, 3, 6, 501} ==> answer.Int?)
    && (request in {1, 14} ==> answer.Whole?)
  }

  /** The response union after the host stores an answer: an `int` leaves the upper half as it was. */
  function StoreAnswer(prev: Word, answer: Answer): Word {
    match answer
    case Whole(w) => w
    case Int(low) => prev / TWO32 * TWO32 + low
  }

  function SignExtend(low: Half): int {
    if low < TWO31 then low else low - TWO32
  }

  function LoadResponse(load: Load, resp: Word): int {
    match load
    case U64 => resp
    case S32 => SignExtend(resp % TWO32)
  }

  /** The next offset of a copy: the loops run upwards. */
  predicate Lowest(o: nat, left: set<nat>) {
    o in left && forall p | p in left :: o <= p
  }

  predicate Enabled(s: State, a: Action) {
    match a
    case Begin(t, _) => t in s.threads && s.threads[t].Idle?
    case CopyByte(t, o) =>
      t in s.threads && s.threads[t].Copying? && Lowest(o, s.threads[t].left) && o in s.threads[t].call.payload
    case Device(t) => t in s.threads && !s.threads[t].Idle? && (s.threads[t].Copying? ==> s.threads[t].left == {})
    case HostMove(answer) =>
      match s.host
      case Watching => s.flag1 == 1
      case GotPayload(r, _, _, _) => AnswerFits(r, answer)
      case _ => true
  }

  function SetThread(s: State, t: Tid, th: Thread): State {
    s.(threads := s.threads[t := th])
  }

  /** One `ld.u8`/`st.u8` pair of a copy loop: the byte goes to its own offset and nowhere else. */
  function CopyStep(s: State, t: Tid, o: nat): State
    requires Enabled(s, CopyByte(t, o))
  {
    var c, left := s.threads[t].call, s.threads[t].left;
    var v := c.payload[o];
    SetThread(s, t, Copying(c, left - {o})).(payload := s.payload[o := v], copies := s.copies + [Copy(t, o, v)])
  }

  function DeviceStep(s: State, t: Tid): State
    requires t in s.threads && !s.threads[t].Idle?
  {
    match s.threads[t]
    case Copying(c, _) => SetThread(s, t, Acquiring(c))
    case Acquiring(c) =>
      // atom.cas 0 -> 1, and retry only while the old value reads 1
      var s' := if s.occupy == 0 then s.(occupy := 1) else s;
      if s.occupy == 1 then s else SetThread(s', t, StoringRequest(c))
    case StoringRequest(c) => SetThread(s, t, StoringMap(c)).(requestId := c.request)
    case StoringMap(c) => SetThread(s, t, Raising(c)).(mapId := c.mapId)
    case Raising(c) =>
      SetThread(s, t, Awaiting(c)).(flag1 := 1, raised := s.raised + [Raised(t, c)])
    case Awaiting(c) => if s.flag2 == 0 then s else SetThread(s, t, Clearing(c))
    case Clearing(c) => SetThread(s, t, Loading(c)).(flag2 := 0)
    case Loading(c) => SetThread(s, t, Releasing(c, LoadResponse(c.load, s.resp)))
    case Releasing(c, v) =>
      SetThread(s, t, Idle).(occupy := 0, returned := s.returned + [Returned(t, c, v)])
  }

  function HostStep(s: State, answer: Answer): State {
    match s.host
    case Watching => s.(host := Seen)
    case Seen => s.(host := Claimed, flag1 := 0)
    case Claimed => s.(host := GotRequest(s.requestId))
    case GotRequest(r) => s.(host := GotMap(r, s.mapId))
    case GotMap(r, m) => s.(host := GotPayload(r, m, s.payload, |s.copies|))
    case GotPayload(r, m, p, n) =>
      s.(host := Answered, resp := StoreAnswer(s.resp, answer),
         served := s.served + [Served(r, m, p, n, answer)])
    case Answered => s.(host := Watching, flag2 := 1)
  }

  function Step(s: State, a: Action): State
    requires Enabled(s, a)
  {
    match a
    case Begin(t, c) => SetThread(s, t, Copying(c, c.payload.Keys))
    case CopyByte(t, o) => CopyStep(s, t, o)
    case Device(t) => DeviceStep(s, t)
    case HostMove(answer) => HostStep(s, answer)
  }

  predicate Admissible(s: State, run: seq<Action>)
    decreases |run|
  {
    run == [] || (Enabled(s, run[0]) && Admissible(Step(s, run[0]), run[1..]))
  }

  function Run(s: State, run: seq<Action>): State
    requires Admissible(s, run)
    decreases |run|
  {
    if run == [] then s else Run(Step(s, run[0]), run[1..])
  }

  // ----- what is safe -----

  /** Between a successful compare-and-swap and the releasing exchange. */
  predicate Holding(th: Thread) {
    !th.Idle? && !th.Copying? && !th.Acquiring?
  }

  /** The device's value is the host's answer: exact when load and answer have the same
      width, and right in the low half when `ld.u64` meets an `int` answer. */
  predicate Delivers(value: int, load: Load, answer: Answer) {
    match (load, answer)
    case (U64, Whole(w)) => value == w
    case (S32, Int(low)) => value == SignExtend(low)
    case (S32, Whole(w)) => value == SignExtend(w % TWO32)
    case (U64, Int(low)) => value % TWO32 == low
  }

  ghost predicate MutualExclusion(s: State) {
    forall t, u | t in s.threads && u in s.threads && Holding(s.threads[t]) && Holding(s.threads[u]) :: t == u
  }

  ghost predicate QuietWhenFree(s: State) {
    s.occupy == 0 ==>
      && s.flag1 == 0 && s.flag2 == 0 && s.host == Watching
      && (forall t | t in s.threads :: !Holding(s.threads[t]))
  }

  /** The i-th request served is the i-th raised, with the ids its raiser stored. */
  ghost predicate ServedOnce(s: State) {
    && |s.returned| <= |s.served| <= |s.raised| <= |s.returned| + 1
    && forall i | 0 <= i < |s.served| ::
         && s.served[i].request == s.raised[i].call.request
         && s.served[i].mapId == s.raised[i].call.mapId
         && AnswerFits(s.served[i].request, s.served[i].answer)
  }

  /** The i-th return goes to the i-th raiser and carries the i-th answer. */
  ghost predicate OwnResponse(s: State)
    requires ServedOnce(s)
  {
    forall i | 0 <= i < |s.returned| ::
      && s.returned[i].tid == s.raised[i].tid
      && s.returned[i].call == s.raised[i].call
      && Delivers(s.returned[i].value, s.returned[i].call.load, s.served[i].answer)
  }

  /** `a`'s bytes are all in `b`. */
  ghost predicate Within(a: Bytes, b: Bytes) {
    forall o | o in a :: o in b && b[o] == a[o]
  }

  /** What the first `n` copied bytes leave: at each offset the last one written there. */
  function Overlay(copies: seq<Copy>, n: nat): Bytes
    requires n <= |copies|
  {
    if n == 0 then map[] else Overlay(copies, n - 1)[copies[n - 1].offset := copies[n - 1].byte]
  }

  /** For every request the host took the overlay of the bytes copied by then. */
  ghost predicate PayloadIsOverlay(s: State) {
    forall i | 0 <= i < |s.served| ::
      s.served[i].copiesSeen <= |s.copies| && Within(Overlay(s.copies, s.served[i].copiesSeen), s.served[i].payload)
  }

  ghost predicate Safe(s: State) {
    && s.occupy in {0, 1}
    && MutualExclusion(s)
    && QuietWhenFree(s)
    && ServedOnce(s)
    && OwnResponse(s)
    && PayloadIsOverlay(s)
  }

  // ----- the inductive invariant -----

  ghost predicate OnlyHolder(s: State, h: Option<Tid>) {
    && (h.Some? ==> h.value in s.threads && Holding(s.threads[h.value]))
    && (forall t | t in s.threads && Holding(s.threads[t]) :: h == Some(t))
  }

  /** Nothing is in flight: both flags down, host watching, every request served and returned. */
  ghost predicate Quiet(s: State) {
    && s.flag1 == 0 && s.flag2 == 0 && s.host == Watching
    && |s.raised| == |s.served| == |s.returned|
  }

  ghost predicate HostPhase(s: State, c: Call) {
    var n := |s.returned|;
    match s.host
    case Watching =>
      if s.flag1 == 1 then s.flag2 == 0 && |s.served| == n
      else s.flag1 == 0 && s.flag2 == 1 && AnswerReady(s)
    case Seen => s.flag1 == 1 && s.flag2 == 0 && |s.served| == n
    case Claimed => s.flag1 == 0 && s.flag2 == 0 && |s.served| == n
    case GotRequest(r) => s.flag1 == 0 && s.flag2 == 0 && |s.served| == n && r == c.request
    case GotMap(r, m) =>
      s.flag1 == 0 && s.flag2 == 0 && |s.served| == n && r == c.request && m == c.mapId
    case GotPayload(r, m, p, k) =>
      && s.flag1 == 0 && s.flag2 == 0 && |s.served| == n && r == c.request && m == c.mapId
      && k <= |s.copies| && Within(Overlay(s.copies, k), p)
    case Answered => s.flag1 == 0 && s.flag2 == 0 && AnswerReady(s)
  }

  /** The response field holds the answer to the outstanding request. */
  ghost predicate AnswerReady(s: State) {
    && |s.served| == |s.returned| + 1
    && var answer := s.served[|s.returned|].answer;
       && (answer.Whole? ==> s.resp == answer.word)
       && (answer.Int? ==> s.resp % TWO32 == answer.low)
  }

  /** Where the mailbox stands, by the program point of the lock holder. */
  ghost predicate HolderPhase(s: State, t: Tid, th: Thread)
    requires Holding(th)
  {
    var c := th.call;
    match th
    case StoringRequest(_) => Quiet(s)
    case StoringMap(_) => Quiet(s) && s.requestId == c.request
    case Raising(_) => Quiet(s) && s.requestId == c.request && s.mapId == c.mapId
    case Awaiting(_) =>
      && s.requestId == c.request && s.mapId == c.mapId
      && Outstanding(s, t, c) && HostPhase(s, c)
    case Clearing(_) =>
      s.flag1 == 0 && s.flag2 == 1 && s.host == Watching && Outstanding(s, t, c) && AnswerReady(s)
    case Loading(_) =>
      s.flag1 == 0 && s.flag2 == 0 && s.host == Watching && Outstanding(s, t, c) && AnswerReady(s)
    case Releasing(_, v) =>
      && s.flag1 == 0 && s.flag2 == 0 && s.host == Watching && Outstanding(s, t, c) && AnswerReady(s)
      && v == LoadResponse(c.load, s.resp)
  }

  ghost predicate Outstanding(s: State, t: Tid, c: Call) {
    |s.raised| == |s.returned| + 1 && s.raised[|s.returned|] == Raised(t, c)
  }

  ghost predicate Inv(s: State, h: Option<Tid>) {
    && s.occupy == (if h.Some? then 1 else 0)
    && OnlyHolder(s, h)
    && (h.None? ==> Quiet(s))
    && (h.Some? ==> HolderPhase(s, h.value, s.threads[h.value]))
    && Within(Overlay(s.copies, |s.copies|), s.payload)
    && ServedOnce(s)
    && OwnResponse(s)
    && PayloadIsOverlay(s)
  }

  function NextHolder(s: State, h: Option<Tid>, a: Action): Option<Tid>
    requires Enabled(s, a)
  {
    if a.Device? && s.threads[a.tid].Acquiring? && s.occupy != 1 then Some(a.tid)
    else if a.Device? && s.threads[a.tid].Releasing? then None
    else h
  }

  /** A loaded value delivers the answer the response field holds. */
  lemma {:induction false} LoadDelivers(load: Load, s: State)
    requires AnswerReady(s)
    ensures Delivers(LoadResponse(load, s.resp), load, s.served[|s.returned|].answer)
  {
  }

  lemma {:induction false} StoreHolds(prev: Word, answer: Answer)
    ensures answer.Whole? ==> StoreAnswer(prev, answer) == answer.word
    ensures answer.Int? ==> StoreAnswer(prev, answer) % TWO32 == answer.low
    ensures answer.Int? ==> StoreAnswer(prev, answer) / TWO32 == prev / TWO32
  {
    if answer.Int? {
      assert (prev / TWO32 * TWO32 + answer.low) % TWO32 == answer.low;
    }
  }

  lemma {:induction false} OverlayPrefix(copies: seq<Copy>, x: Copy, n: nat)
    requires n <= |copies|
    ensures Overlay(copies + [x], n) == Overlay(copies, n)
  {
    if n > 0 {
      OverlayPrefix(copies, x, n - 1);
    }
  }

  lemma {:induction false} CopyKeepsInv(s: State, h: Option<Tid>, t: Tid, o: nat)
    requires Inv(s, h) && Enabled(s, CopyByte(t, o))
    ensures Inv(CopyStep(s, t, o), h)
  {
    var s' := CopyStep(s, t, o);
    var x := Copy(t, o, s.threads[t].call.payload[o]);
    OverlayPrefix(s.copies, x, |s.copies|);
    if s.host.GotPayload? && s.host.copiesSeen <= |s.copies| {
      OverlayPrefix(s.copies, x, s.host.copiesSeen);
    }
    forall i | 0 <= i < |s.served|
      ensures Overlay(s'.copies, s.served[i].copiesSeen) == Overlay(s.copies, s.served[i].copiesSeen)
    {
      OverlayPrefix(s.copies, x, s.served[i].copiesSeen);
    }
    assert OnlyHolder(s', h);
  }

  lemma {:induction false} CopiedKeepsInv(s: State, h: Option<Tid>, t: Tid)
    requires Inv(s, h) && Enabled(s, Device(t)) && s.threads[t].Copying?
    ensures Inv(DeviceStep(s, t), h)
  {
    assert OnlyHolder(DeviceStep(s, t), h);
  }

  lemma {:induction false} AcquireKeepsInv(s: State, h: Option<Tid>, t: Tid)
    requires Inv(s, h) && t in s.threads && s.threads[t].Acquiring?
    ensures Inv(DeviceStep(s, t), NextHolder(s, h, Device(t)))
  {
  }

  lemma {:induction false} FillKeepsInv(s: State, h: Option<Tid>, t: Tid)
    requires Inv(s, h) && t in s.threads
    requires s.threads[t].StoringRequest? || s.threads[t].StoringMap? || s.threads[t].Raising?
    ensures Inv(DeviceStep(s, t), h)
  {
    var s' := DeviceStep(s, t);
    assert h == Some(t);
    assert s'.raised[..|s.raised|] == s.raised;
  }

  lemma {:induction false} AwaitKeepsInv(s: State, h: Option<Tid>, t: Tid)
    requires Inv(s, h) && t in s.threads
    requires s.threads[t].Awaiting? || s.threads[t].Clearing? || s.threads[t].Loading?
    ensures Inv(DeviceStep(s, t), h)
  {
    assert h == Some(t);
  }

  lemma {:induction false} ReleaseKeepsInv(s: State, h: Option<Tid>, t: Tid)
    requires Inv(s, h) && t in s.threads && s.threads[t].Releasing?
    ensures Inv(DeviceStep(s, t), None)
  {
    var s' := DeviceStep(s, t);
    assert h == Some(t);
    LoadDelivers(s.threads[t].call.load, s);
    assert s'.returned[..|s.returned|] == s.returned;
  }

  lemma {:induction false} DeviceKeepsInv(s: State, h: Option<Tid>, t: Tid)
    requires Inv(s, h) && Enabled(s, Device(t))
    ensures Inv(DeviceStep(s, t), NextHolder(s, h, Device(t)))
  {
    match s.threads[t]
    case Copying(_, _) => CopiedKeepsInv(s, h, t);
    case Acquiring(_) => AcquireKeepsInv(s, h, t);
    case StoringRequest(_) => FillKeepsInv(s, h, t);
    case StoringMap(_) => FillKeepsInv(s, h, t);
    case Raising(_) => FillKeepsInv(s, h, t);
    case Awaiting(_) => AwaitKeepsInv(s, h, t);
    case Clearing(_) => AwaitKeepsInv(s, h, t);
    case Loading(_) => AwaitKeepsInv(s, h, t);
    case Releasing(_, _) => ReleaseKeepsInv(s, h, t);
  }

  lemma {:induction false} HostKeepsInv(s: State, h: Option<Tid>, answer: Answer)
    requires Inv(s, h) && Enabled(s, HostMove(answer))
    ensures Inv(HostStep(s, answer), h)
  {
    if s.host.GotPayload? {
      StoreHolds(s.resp, answer);
    }
  }

  lemma {:induction false} StepKeepsInv(s: State, h: Option<Tid>, a: Action)
    requires Inv(s, h) && Enabled(s, a)
    ensures Inv(Step(s, a), NextHolder(s, h, a))
  {
    match a
    case Begin(_, _) =>
    case CopyByte(t, o) => CopyKeepsInv(s, h, t, o);
    case Device(t) => DeviceKeepsInv(s, h, t);
    case HostMove(answer) => HostKeepsInv(s, h, answer);
  }

  lemma {:induction false} RunKeepsInv(s: State, h: Option<Tid>, run: seq<Action>) returns (h': Option<Tid>)
    requires Inv(s, h) && Admissible(s, run)
    ensures Inv(Run(s, run), h')
    decreases |run|
  {
    if run == [] {
      h' := h;
    } else {
      StepKeepsInv(s, h, run[0]);
      h' := RunKeepsInv(Step(s, run[0]), NextHolder(s, h, run[0]), run[1..]);
    }
  }

  /** Mailbox safety, for every interleaving of any number of threads with the host. */
  lemma {:induction false} EveryRunIsSafe(s: State, run: seq<Action>)
    requires Initial(s) && Admissible(s, run)
    ensures Safe(Run(s, run))
  {
    var h := RunKeepsInv(s, None, run);
  }

  // ----- no deadlock -----

  function FittingAnswer(request: int): Answer {
    if request in {2, 3, 6, 501} then Int(0) else Whole(0)
  }

  /** The step that moves the current call on once its bytes are copied: never a spin. */
  function UsefulAction(s: State, h: Option<Tid>, t: Tid): Action {
    if h.None? then Device(t)
    else if h.value in s.threads && s.threads[h.value].Awaiting? && s.flag2 == 0 then
      HostMove(if s.host.GotPayload? then FittingAnswer(s.host.request) else Whole(0))
    else Device(h.value)
  }

  /** Useful steps left until some call returns, at most: 22 and one for each byte still to copy. */
  function Remaining(s: State, h: Option<Tid>, t: Tid): nat {
    if h.None? then
      if t in s.threads && s.threads[t].Copying? then 22 + |s.threads[t].left| else 21
    else if h.value !in s.threads then 0 else
      match s.threads[h.value]
      case StoringRequest(_) => 20
      case StoringMap(_) => 19
      case Raising(_) => 18
      case Awaiting(_) =>
        (match s.host
         case Watching => if s.flag2 == 0 then 17 else 10
         case Seen => 16
         case Claimed => 15
         case GotRequest(_) => 14
         case GotMap(_, _) => 13
         case GotPayload(_, _, _, _) => 12
         case Answered => 11)
      case Clearing(_) => 9
      case Loading(_) => 8
      case _ => 7
  }

  /** The next useful step: a byte of the copy, or the one above. */
  lemma {:induction false} NextUseful(s: State, h: Option<Tid>, t: Tid) returns (a: Action)
    requires Inv(s, h) && LeftInPayload(s) && t in s.threads && !s.threads[t].Idle?
    ensures Enabled(s, a) && MovesOn(s, h, t, a)
  {
    if h.None? && s.threads[t].Copying? && s.threads[t].left != {} {
      var o := LowestOf(s.threads[t].left);
      a := CopyByte(t, o);
      CopyMovesOn(s, t, o);
    } else {
      a := UsefulAction(s, h, t);
      UsefulMovesOn(s, h, t);
    }
  }

  /** The step returns a call, or brings one nearer to its return. */
  ghost predicate MovesOn(s: State, h: Option<Tid>, t: Tid, a: Action)
    requires Enabled(s, a)
  {
    var s', h' := Step(s, a), NextHolder(s, h, a);
    var u := if h'.Some? then h'.value else t;
    || |s'.returned| == |s.returned| + 1
    || (Remaining(s', h', u) < Remaining(s, h, t) && u in s'.threads && !s'.threads[u].Idle?
        && s'.returned == s.returned)
  }

  lemma {:induction false} CopyMovesOn(s: State, t: Tid, o: nat)
    requires t in s.threads && s.threads[t].Copying? && Lowest(o, s.threads[t].left)
    requires s.threads[t].left <= s.threads[t].call.payload.Keys
    ensures Enabled(s, CopyByte(t, o)) && MovesOn(s, None, t, CopyByte(t, o))
  {
    var left := s.threads[t].left;
    assert o in s.threads[t].call.payload;
    assert |left - {o}| == |left| - 1;
  }

  lemma {:induction false} UsefulMovesOn(s: State, h: Option<Tid>, t: Tid)
    requires Inv(s, h) && t in s.threads && !s.threads[t].Idle?
    requires h.None? && s.threads[t].Copying? ==> s.threads[t].left == {}
    ensures Enabled(s, UsefulAction(s, h, t)) && MovesOn(s, h, t, UsefulAction(s, h, t))
  {
    if h.Some? && s.threads[h.value].Awaiting? && s.flag2 == 0 {
      HostMovesOn(s, h, t);
    }
  }

  lemma {:induction false} HostMovesOn(s: State, h: Option<Tid>, t: Tid)
    requires Inv(s, h) && t in s.threads && h.Some? && s.threads[h.value].Awaiting? && s.flag2 == 0
    ensures Enabled(s, UsefulAction(s, h, t)) && MovesOn(s, h, t, UsefulAction(s, h, t))
  {
  }

  lemma {:induction false} LowestOf(left: set<nat>) returns (o: nat)
    requires left != {}
    ensures Lowest(o, left)
    decreases |left|
  {
    HasOffset(left);
    var x :| x in left;
    var below := set p | p in left && p < x;
    if below == {} {
      o := x;
      assert forall p | p in left :: p !in below;
    } else {
      Fewer(below, left - {x});
      o := LowestOf(below);
      forall p | p in left
        ensures o <= p
      {
        assert p < x ==> p in below;
      }
    }
  }

  lemma {:induction false} Fewer(a: set<nat>, b: set<nat>)
    requires a <= b
    ensures |a| <= |b|
  {
    assert b == a + (b - a);
  }

  lemma {:induction false} HasOffset(left: set<nat>)
    ensures left != {} ==> exists o :: o in left
  {
    if !exists o :: o in left {
      assert left <= {};
    }
  }

  /** What is left to copy is part of the call. */
  ghost predicate LeftInPayload(s: State) {
    forall t | t in s.threads && s.threads[t].Copying? :: s.threads[t].left <= s.threads[t].call.payload.Keys
  }

  lemma {:induction false} StepKeepsLeft(s: State, a: Action)
    requires LeftInPayload(s) && Enabled(s, a)
    ensures LeftInPayload(Step(s, a))
  {
  }

  lemma {:induction false} RunKeepsLeft(s: State, run: seq<Action>)
    requires LeftInPayload(s) && Admissible(s, run)
    ensures LeftInPayload(Run(s, run))
    decreases |run|
  {
    if run != [] {
      StepKeepsLeft(s, run[0]);
      RunKeepsLeft(Step(s, run[0]), run[1..]);
    }
  }

  /** From every reachable state with a thread inside a call, some continuation
      returns a call: the lock is never lost and no wait is circular. */
  lemma {:induction false} CallCanComplete(s: State, h: Option<Tid>, t: Tid) returns (run: seq<Action>)
    requires Inv(s, h) && LeftInPayload(s) && t in s.threads && !s.threads[t].Idle?
    ensures Admissible(s, run) && |Run(s, run).returned| == |s.returned| + 1
    ensures |run| <= Remaining(s, h, t)
    ensures |run| <= 22 + (if s.threads[t].Copying? then |s.threads[t].left| else 0)
    decreases Remaining(s, h, t)
  {
    var a := NextUseful(s, h, t);
    var s', h' := Step(s, a), NextHolder(s, h, a);
    StepKeepsInv(s, h, a);
    StepKeepsLeft(s, a);
    if |s'.returned| == |s.returned| + 1 {
      run := [a];
      assert run[1..] == [];
    } else {
      var rest := CallCanComplete(s', h', if h'.Some? then h'.value else t);
      run := [a] + rest;
      assert run[1..] == rest;
    }
  }

  lemma {:induction false} NoDeadlock(s: State, run: seq<Action>, t: Tid) returns (more: seq<Action>)
    requires Initial(s) && Admissible(s, run)
    requires t in Run(s, run).threads && !Run(s, run).threads[t].Idle?
    ensures Admissible(Run(s, run), more)
    ensures |Run(Run(s, run), more).returned| == |Run(s, run).returned| + 1
  {
    var h := RunKeepsInv(s, None, run);
    RunKeepsLeft(s, run);
    more := CallCanComplete(Run(s, run), h, t);
  }

  // ----- payload bytes, copied before the lock is taken -----

  /** Two calls put the same byte wherever both put one. */
  ghost predicate Agrees(a: Bytes, b: Bytes) {
    forall o | o in a && o in b :: a[o] == b[o]
  }

  /** Any two calls under way agree. */
  ghost predicate Harmonious(s: State) {
    forall t, u | t in s.threads && u in s.threads && !s.threads[t].Idle? && !s.threads[u].Idle? ::
      Agrees(s.threads[t].call.payload, s.threads[u].call.payload)
  }

  ghost predicate HarmoniousRun(s: State, run: seq<Action>)
    requires Admissible(s, run)
    decreases |run|
  {
    Harmonious(s) && (run == [] || HarmoniousRun(Step(s, run[0]), run[1..]))
  }

  /** Every request was served with all the bytes of its call. */
  ghost predicate PayloadIntact(s: State)
    requires ServedOnce(s)
  {
    forall i | 0 <= i < |s.served| :: Within(s.raised[i].call.payload, s.served[i].payload)
  }

  /** What the thread has copied is in the mailbox. */
  ghost predicate Landed(th: Thread, payload: Bytes)
    requires !th.Idle?
  {
    forall o | o in th.call.payload && !(th.Copying? && o in th.left) ::
      o in payload && payload[o] == th.call.payload[o]
  }

  ghost predicate AllLanded(s: State) {
    forall t | t in s.threads && !s.threads[t].Idle? :: Landed(s.threads[t], s.payload)
  }

  ghost predicate PayloadInv(s: State)
    requires ServedOnce(s)
  {
    && AllLanded(s) && PayloadIntact(s)
    && (s.host.GotPayload? && |s.raised| > |s.served| ==> Within(s.raised[|s.served|].call.payload, s.host.payload))
  }

  lemma {:induction false} CopyKeepsPayload(s: State, h: Option<Tid>, t: Tid, o: nat)
    requires Inv(s, h) && Enabled(s, CopyByte(t, o)) && Harmonious(s) && PayloadInv(s)
    ensures ServedOnce(CopyStep(s, t, o)) && PayloadInv(CopyStep(s, t, o))
  {
    var s' := CopyStep(s, t, o);
    forall u | u in s'.threads && !s'.threads[u].Idle?
      ensures Landed(s'.threads[u], s'.payload)
    {
      assert Landed(s.threads[u], s.payload);
      assert Agrees(s.threads[t].call.payload, s.threads[u].call.payload);
    }
  }

  lemma {:induction false} DeviceKeepsLanded(s: State, t: Tid)
    requires Enabled(s, Device(t)) && AllLanded(s)
    ensures AllLanded(DeviceStep(s, t))
  {
    var s' := DeviceStep(s, t);
    forall u | u in s'.threads && !s'.threads[u].Idle?
      ensures Landed(s'.threads[u], s'.payload)
    {
      assert Landed(s.threads[u], s.payload);
    }
  }

  /** No request is raised while the host holds one. */
  lemma {:induction false} RaiseMeetsNoPayload(s: State, h: Option<Tid>, t: Tid)
    requires Inv(s, h) && t in s.threads && s.threads[t].Raising?
    ensures !s.host.GotPayload?
  {
    assert h == Some(t);
  }

  lemma {:induction false} DeviceKeepsHistory(s: State, t: Tid)
    requires Enabled(s, Device(t))
    ensures var s' := DeviceStep(s, t); s'.served == s.served && s'.host == s.host && s.raised <= s'.raised
    ensures !s.threads[t].Raising? ==> DeviceStep(s, t).raised == s.raised
  {
  }

  lemma {:induction false} DeviceKeepsPayload(s: State, h: Option<Tid>, t: Tid)
    requires Inv(s, h) && Enabled(s, Device(t)) && PayloadInv(s)
    ensures ServedOnce(DeviceStep(s, t)) && PayloadInv(DeviceStep(s, t))
  {
    assert ServedOnce(DeviceStep(s, t)) by { DeviceKeepsInv(s, h, t); }
    DeviceKeepsLanded(s, t);
    DeviceKeepsHistory(s, t);
    if s.threads[t].Raising? {
      RaiseMeetsNoPayload(s, h, t);
    }
  }

  lemma {:induction false} HostKeepsPayload(s: State, h: Option<Tid>, answer: Answer)
    requires Inv(s, h) && Enabled(s, HostMove(answer)) && PayloadInv(s)
    ensures ServedOnce(HostStep(s, answer)) && PayloadInv(HostStep(s, answer))
  {
    HostKeepsInv(s, h, answer);
    if s.host.GotMap? {
      assert h.Some? && s.threads[h.value].Awaiting?;
      assert Landed(s.threads[h.value], s.payload);
    }
  }

  lemma {:induction false} StepKeepsPayload(s: State, h: Option<Tid>, a: Action)
    requires Inv(s, h) && Enabled(s, a) && Harmonious(s) && PayloadInv(s)
    ensures ServedOnce(Step(s, a)) && PayloadInv(Step(s, a))
  {
    match a
    case Begin(_, _) =>
    case CopyByte(t, o) => CopyKeepsPayload(s, h, t, o);
    case Device(t) => DeviceKeepsPayload(s, h, t);
    case HostMove(answer) => HostKeepsPayload(s, h, answer);
  }

  lemma {:induction false} RunKeepsPayload(s: State, h: Option<Tid>, run: seq<Action>)
    requires Inv(s, h) && Admissible(s, run) && HarmoniousRun(s, run) && PayloadInv(s)
    ensures ServedOnce(Run(s, run)) && PayloadInv(Run(s, run))
    decreases |run|
  {
    if run != [] {
      StepKeepsInv(s, h, run[0]);
      StepKeepsPayload(s, h, run[0]);
      RunKeepsPayload(Step(s, run[0]), NextHolder(s, h, run[0]), run[1..]);
    }
  }

  /** As long as the calls under way agree wherever they overlap, each is served with its own bytes. */
  lemma {:induction false} AgreeingCallsKeepPayload(s: State, run: seq<Action>)
    requires Initial(s) && Admissible(s, run) && HarmoniousRun(s, run)
    ensures ServedOnce(Run(s, run)) && PayloadIntact(Run(s, run))
  {
    RunKeepsPayload(s, None, run);
  }

  ghost predicate Reachable(s: State) {
    exists init, run :: Initial(init) && Admissible(init, run) && Run(init, run) == s
  }

  lemma {:induction false} ReachableIsSafe(s: State)
    requires Reachable(s)
    ensures Safe(s)
  {
    var init, run :| Initial(init) && Admissible(init, run) && Run(init, run) == s;
    EveryRunIsSafe(init, run);
  }

  // ----- when payloads are always intact -----

  /** The run begins only calls of this set. */
  ghost predicate Begins(run: seq<Action>, calls: iset<Call>) {
    forall k | 0 <= k < |run| && run[k].Begin? :: run[k].call in calls
  }

  /** Whatever these threads do with these calls, every request is served with its own bytes. */
  ghost predicate AlwaysIntact(tids: set<Tid>, calls: iset<Call>) {
    forall s, run | Initial(s) && s.threads.Keys <= tids && Admissible(s, run) && Begins(run, calls) ::
      ServedOnce(Run(s, run)) && PayloadIntact(Run(s, run))
  }

  /** Any two of the calls put the same byte wherever both put one. */
  ghost predicate AllAgree(calls: iset<Call>) {
    forall c, d | c in calls && d in calls :: Agrees(c.payload, d.payload)
  }

  lemma {:induction false} TwoMembers(tids: set<Tid>, t: Tid, u: Tid)
    requires t in tids && u in tids && t != u
    ensures |tids| > 1
  {
    var rest := tids - {t};
    assert u in rest && tids == rest + {t};
  }

  /** The threads are among these, and are in calls of this set. */
  ghost predicate Confined(s: State, tids: set<Tid>, calls: iset<Call>) {
    s.threads.Keys <= tids && forall t | t in s.threads && !s.threads[t].Idle? :: s.threads[t].call in calls
  }

  lemma {:induction false} StepConfined(s: State, a: Action, tids: set<Tid>, calls: iset<Call>)
    requires Confined(s, tids, calls) && Enabled(s, a) && (a.Begin? ==> a.call in calls)
    ensures Confined(Step(s, a), tids, calls)
  {
  }

  lemma {:induction false} ConfinedIsHarmonious(s: State, tids: set<Tid>, calls: iset<Call>)
    requires Confined(s, tids, calls) && (|tids| <= 1 || AllAgree(calls))
    ensures Harmonious(s)
  {
    forall t, u | t in s.threads && u in s.threads && !s.threads[t].Idle? && !s.threads[u].Idle?
      ensures Agrees(s.threads[t].call.payload, s.threads[u].call.payload)
    {
      if t != u {
        TwoMembers(tids, t, u);
      }
    }
  }

  lemma {:induction false} ConfinedRun(s: State, run: seq<Action>, tids: set<Tid>, calls: iset<Call>)
    requires Confined(s, tids, calls) && (|tids| <= 1 || AllAgree(calls)) && Admissible(s, run) && Begins(run, calls)
    ensures HarmoniousRun(s, run)
    decreases |run|
  {
    ConfinedIsHarmonious(s, tids, calls);
    if run != [] {
      StepConfined(s, run[0], tids, calls);
      assert forall k | 0 <= k < |run[1..]| :: run[1..][k] == run[k + 1];
      ConfinedRun(Step(s, run[0]), run[1..], tids, calls);
    }
  }

  /** Reached from a quiet mailbox by these threads with these calls. */
  ghost predicate ReachedBy(s: State, tids: set<Tid>, calls: iset<Call>) {
    exists init, run :: && Initial(init) && init.threads.Keys <= tids && Admissible(init, run) && Begins(run, calls)
                        && Run(init, run) == s
  }

  lemma {:induction false} Extend(s: State, run: seq<Action>, a: Action)
    requires Admissible(s, run) && Enabled(Run(s, run), a)
    ensures Admissible(s, run + [a]) && Run(s, run + [a]) == Step(Run(s, run), a)
    decreases |run|
  {
    var more := run + [a];
    if run == [] {
      assert more[1..] == [];
    } else {
      assert more[1..] == run[1..] + [a];
      Extend(Step(s, run[0]), run[1..], a);
    }
  }

  lemma {:induction false} StepIsReached(s: State, tids: set<Tid>, calls: iset<Call>, a: Action)
    requires ReachedBy(s, tids, calls) && Enabled(s, a) && (a.Begin? ==> a.call in calls)
    ensures ReachedBy(Step(s, a), tids, calls)
  {
    var init, run :| && Initial(init) && init.threads.Keys <= tids && Admissible(init, run) && Begins(run, calls)
                     && Run(init, run) == s;
    Extend(init, run, a);
    assert Begins(run + [a], calls);
  }

  /** A thread copies all its bytes and comes to the lock. */
  lemma {:induction false} CopyAll(s: State, t: Tid, tids: set<Tid>, calls: iset<Call>) returns (s': State)
    requires ReachedBy(s, tids, calls) && t in s.threads && s.threads[t].Copying?
    requires s.threads[t].left <= s.threads[t].call.payload.Keys
    requires Landed(s.threads[t], s.payload)
    ensures ReachedBy(s', tids, calls) && s'.threads == s.threads[t := Acquiring(s.threads[t].call)]
    ensures Within(s.threads[t].call.payload, s'.payload)
    ensures s' == s.(threads := s'.threads, payload := s'.payload, copies := s'.copies)
    decreases |s.threads[t].left|
  {
    var c, left := s.threads[t].call, s.threads[t].left;
    if left == {} {
      s' := Step(s, Device(t));
      StepIsReached(s, tids, calls, Device(t));
    } else {
      var o := LowestOf(left);
      assert o in c.payload;
      var next := Step(s, CopyByte(t, o));
      StepIsReached(s, tids, calls, CopyByte(t, o));
      assert next.threads[t].left == left - {o};
      s' := CopyAll(next, t, tids, calls);
      assert s.threads[t := Copying(c, left - {o})][t := Acquiring(c)] == s.threads[t := Acquiring(c)];
    }
  }

  /** Two calls that disagree at an offset: both threads copy, then the first one locks and is served with the
      second one's byte there. */
  lemma {:induction false} OverlapLosesPayload(t0: Tid, t1: Tid, c0: Call, c1: Call, o: nat, tids: set<Tid>,
                                               calls: iset<Call>)
      returns (s: State)
    requires t0 != t1 && t0 in tids && t1 in tids && c0 in calls && c1 in calls
    requires o in c0.payload && o in c1.payload && c0.payload[o] != c1.payload[o]
    ensures ReachedBy(s, tids, calls) && ServedOnce(s) && !PayloadIntact(s)
  {
    var s4 := BothCopied(t0, t1, c0, c1, tids, calls);
    var s5 := LockAndRaise(s4, t0, tids, calls);
    s := ServeOnce(s5, tids, calls);
    var init, run :| Initial(init) && Admissible(init, run) && Run(init, run) == s;
    EveryRunIsSafe(init, run);
    assert s.raised[0].call == c0 && s.served[0].payload == s4.payload;
    assert !Within(c0.payload, s.served[0].payload);
  }

  lemma {:induction false} BothCopied(t0: Tid, t1: Tid, c0: Call, c1: Call, tids: set<Tid>, calls: iset<Call>)
      returns (s: State)
    requires t0 != t1 && t0 in tids && t1 in tids && c0 in calls && c1 in calls
    ensures ReachedBy(s, tids, calls) && t0 in s.threads && s.threads[t0] == Acquiring(c0) && s.occupy == 0
    ensures Within(c1.payload, s.payload) && s.host == Watching && s.raised == [] && s.served == []
  {
    var s0 := State(0, 0, 0, 0, 0, map[], 0, map[t0 := Idle, t1 := Idle], Watching, [], [], [], []);
    assert Initial(s0) && Admissible(s0, []) && Begins([], calls) && Run(s0, []) == s0;
    var s1 := Step(s0, Begin(t0, c0));
    StepIsReached(s0, tids, calls, Begin(t0, c0));
    var s2 := Step(s1, Begin(t1, c1));
    StepIsReached(s1, tids, calls, Begin(t1, c1));
    var s3 := CopyAll(s2, t0, tids, calls);
    assert s3.threads[t1] == Copying(c1, c1.payload.Keys);
    s := CopyAll(s3, t1, tids, calls);
  }

  /** A thread at the lock word, found free, stores its ids and raises the flag. */
  lemma {:induction false} LockAndRaise(s: State, t: Tid, tids: set<Tid>, calls: iset<Call>) returns (s': State)
    requires ReachedBy(s, tids, calls) && t in s.threads && s.threads[t].Acquiring? && s.occupy == 0
    ensures ReachedBy(s', tids, calls) && s'.host == s.host && s'.flag1 == 1
    ensures s'.requestId == s.threads[t].call.request && s'.payload == s.payload && s'.served == s.served
    ensures s'.raised == s.raised + [Raised(t, s.threads[t].call)]
  {
    var c := s.threads[t].call;
    var s1 := s.(occupy := 1, threads := s.threads[t := StoringRequest(c)]);
    DeviceReached(s, t, s1, tids, calls);
    var s2 := s1.(requestId := c.request, threads := s1.threads[t := StoringMap(c)]);
    DeviceReached(s1, t, s2, tids, calls);
    var s3 := s2.(mapId := c.mapId, threads := s2.threads[t := Raising(c)]);
    DeviceReached(s2, t, s3, tids, calls);
    s' := s3.(flag1 := 1, raised := s3.raised + [Raised(t, c)], threads := s3.threads[t := Awaiting(c)]);
    DeviceReached(s3, t, s', tids, calls);
  }

  lemma {:induction false} DeviceReached(s: State, t: Tid, s': State, tids: set<Tid>, calls: iset<Call>)
    requires ReachedBy(s, tids, calls) && Enabled(s, Device(t)) && s' == DeviceStep(s, t)
    ensures ReachedBy(s', tids, calls)
  {
    StepIsReached(s, tids, calls, Device(t));
  }

  /** The host's six moves from a raised flag to a stored answer. */
  lemma {:induction false} ServeOnce(s: State, tids: set<Tid>, calls: iset<Call>) returns (s': State)
    requires ReachedBy(s, tids, calls) && s.host == Watching && s.flag1 == 1
    ensures ReachedBy(s', tids, calls) && s'.raised == s.raised
    ensures |s'.served| == |s.served| + 1 && s'.served[|s.served|].payload == s.payload
  {
    var move := HostMove(FittingAnswer(s.requestId));
    var s1 := Step(s, move);
    StepIsReached(s, tids, calls, move);
    var s2 := Step(s1, move);
    StepIsReached(s1, tids, calls, move);
    var s3 := Step(s2, move);
    StepIsReached(s2, tids, calls, move);
    var s4 := Step(s3, move);
    StepIsReached(s3, tids, calls, move);
    var s5 := Step(s4, move);
    StepIsReached(s4, tids, calls, move);
    s' := Step(s5, move);
    StepIsReached(s5, tids, calls, move);
  }

  lemma {:induction false} HasMember(tids: set<Tid>)
    ensures |tids| > 0 ==> exists t :: t in tids
  {
    if !exists t :: t in tids {
      assert tids <= {};
    }
  }

  lemma {:induction false} TwoOf(tids: set<Tid>) returns (t0: Tid, t1: Tid)
    requires |tids| > 1
    ensures t0 != t1 && t0 in tids && t1 in tids
  {
    HasMember(tids);
    t0 :| t0 in tids;
    var rest := tids - {t0};
    HasMember(rest);
    t1 :| t1 in rest;
  }

  /** Payloads are intact in every interleaving of these threads with these calls, down to single bytes, if
      and only if there is at most one thread, or any two calls agree on every offset both write. */
  lemma {:induction false} AlwaysIntactIff(tids: set<Tid>, calls: iset<Call>)
    ensures AlwaysIntact(tids, calls) <==> |tids| <= 1 || AllAgree(calls)
  {
    if |tids| <= 1 || AllAgree(calls) {
      forall s, run | Initial(s) && s.threads.Keys <= tids && Admissible(s, run) && Begins(run, calls)
        ensures ServedOnce(Run(s, run)) && PayloadIntact(Run(s, run))
      {
        ConfinedRun(s, run, tids, calls);
        AgreeingCallsKeepPayload(s, run);
      }
    } else {
      var t0, t1 := TwoOf(tids);
      var c0, c1 :| c0 in calls && c1 in calls && !Agrees(c0.payload, c1.payload);
      var o :| o in c0.payload && o in c1.payload && c0.payload[o] != c1.payload[o];
      var s := OverlapLosesPayload(t0, t1, c0, c1, o, tids, calls);
    }
  }

  // ----- the map helpers -----

  const KEY_OFFSET: nat := 24
  const VALUE_OFFSET: nat := 1073741848
  const FLAGS_OFFSET: nat := 2147483672

  function At(offset: nat, bytes: seq<int>): (r: Bytes)
    ensures forall o :: o in r <==> offset <= o < offset + |bytes|
    ensures forall o | o in r :: r[o] == bytes[o - offset]
    decreases |bytes|
  {
    if bytes == [] then map[] else At(offset + 1, bytes[1..])[offset := bytes[0]]
  }

  /** Helpers 1 and 3 copy a key; helper 2 a key, a value and the eight bytes of its flags. */
  function Lookup(mapId: int, key: seq<int>): Call {
    Call(1, mapId, At(KEY_OFFSET, key), U64)
  }

  function Update(mapId: int, key: seq<int>, value: seq<int>, flags: seq<int>): Call {
    Call(2, mapId, At(KEY_OFFSET, key) + At(VALUE_OFFSET, value) + At(FLAGS_OFFSET, flags), S32)
  }

  function Delete(mapId: int, key: seq<int>): Call {
    Call(3, mapId, At(KEY_OFFSET, key), S32)
  }

  /** Concurrent lookups of two keys are safe exactly when one key is the beginning of the other. */
  lemma {:induction false} LookupsIntactIff(tids: set<Tid>, m: int, k: seq<int>, n: int, l: seq<int>)
    ensures AlwaysIntact(tids, iset{Lookup(m, k), Lookup(n, l)}) <==> |tids| <= 1 || k <= l || l <= k
  {
    AlwaysIntactIff(tids, iset{Lookup(m, k), Lookup(n, l)});
    AgreeIffPrefix(KEY_OFFSET, k, l);
    AgreeIffPrefix(KEY_OFFSET, l, k);
    AgreeIffPrefix(KEY_OFFSET, k, k);
    AgreeIffPrefix(KEY_OFFSET, l, l);
    assert Lookup(m, k) in iset{Lookup(m, k), Lookup(n, l)} && Lookup(n, l) in iset{Lookup(m, k), Lookup(n, l)};
  }

  lemma {:induction false} AgreeIffPrefix(offset: nat, k: seq<int>, l: seq<int>)
    ensures Agrees(At(offset, k), At(offset, l)) <==> k <= l || l <= k
  {
    var a, b := At(offset, k), At(offset, l);
    if Agrees(a, b) {
      forall i | 0 <= i < |k| && i < |l|
        ensures k[i] == l[i]
      {
        var o := offset + i;
        assert o in a && o in b && a[o] == k[i] && b[o] == l[i];
      }
    }
  }

  /** Looking a key up, updating and deleting it may overlap freely, in any number of threads: the value
      and the flags have only one writer's bytes. */
  lemma {:induction false} SameKeyIntact(tids: set<Tid>, m: int, k: seq<int>, v: seq<int>, flags: seq<int>)
    requires |k| <= 0x4000_0000
    ensures AlwaysIntact(tids, iset{Lookup(m, k), Update(m, k, v, flags), Delete(m, k)})
  {
    SameKeyAgrees(m, k, v, flags);
    AlwaysIntactIff(tids, iset{Lookup(m, k), Update(m, k, v, flags), Delete(m, k)});
  }

  lemma {:induction false} SameKeyAgrees(m: int, k: seq<int>, v: seq<int>, flags: seq<int>)
    requires |k| <= 0x4000_0000
    ensures AllAgree(iset{Lookup(m, k), Update(m, k, v, flags), Delete(m, k)})
  {
    UpdateAgrees(m, k, v, flags);
  }

  lemma {:induction false} UpdateAgrees(m: int, k: seq<int>, v: seq<int>, flags: seq<int>)
    requires |k| <= 0x4000_0000
    ensures Agrees(At(KEY_OFFSET, k), Update(m, k, v, flags).payload)
    ensures Agrees(Update(m, k, v, flags).payload, At(KEY_OFFSET, k))
  {
  }

  // ----- what the host and the caller see of a helper call -----

  /** These bytes stand at this offset. */
  ghost predicate Holds(payload: Bytes, offset: nat, bytes: seq<int>) {
    forall j | 0 <= j < |bytes| :: offset + j in payload && payload[offset + j] == bytes[j]
  }

  /** Request `i` was raised with this call and has been served, and every call was served intact. */
  ghost predicate ServedTo(s: State, i: nat, call: Call) {
    ServedOnce(s) && OwnResponse(s) && PayloadIntact(s) && i < |s.served| && s.raised[i].call == call
  }

  lemma {:induction false} HarmonyServes(s: State, run: seq<Action>, i: nat, call: Call)
    requires Initial(s) && Admissible(s, run) && HarmoniousRun(s, run)
    requires i < |Run(s, run).served| && i < |Run(s, run).raised| && Run(s, run).raised[i].call == call
    ensures ServedTo(Run(s, run), i, call)
  {
    EveryRunIsSafe(s, run);
    AgreeingCallsKeepPayload(s, run);
  }

  /** A lookup is request 1 with its key at offset 24; it returns the eight bytes the host answered. */
  lemma {:induction false} LookupServed(s: State, i: nat, m: int, k: seq<int>)
    requires ServedTo(s, i, Lookup(m, k))
    ensures s.served[i].request == 1 && s.served[i].mapId == m && Holds(s.served[i].payload, 24, k)
    ensures s.served[i].answer.Whole?
    ensures i < |s.returned| ==> s.returned[i].value == s.served[i].answer.word
  {
    KeyHeld(s.served[i].payload, Lookup(m, k).payload, k);
  }

  /** A deletion is request 3 with its key at offset 24; it returns the host's `int`, signed. */
  lemma {:induction false} DeleteServed(s: State, i: nat, m: int, k: seq<int>)
    requires ServedTo(s, i, Delete(m, k))
    ensures s.served[i].request == 3 && s.served[i].mapId == m && Holds(s.served[i].payload, 24, k)
    ensures s.served[i].answer.Int?
    ensures i < |s.returned| ==> IsSigned(s.returned[i].value, s.served[i].answer.low)
  {
    KeyHeld(s.served[i].payload, Delete(m, k).payload, k);
  }

  /** An update is request 2 with its key, value and flags in their three fields; it returns the host's `int`,
      signed. */
  lemma {:induction false} UpdateServed(s: State, i: nat, m: int, k: seq<int>, v: seq<int>, flags: seq<int>)
    requires ServedTo(s, i, Update(m, k, v, flags)) && |k| <= 0x4000_0000 && |v| <= 0x4000_0000
    ensures s.served[i].request == 2 && s.served[i].mapId == m
    ensures Holds(s.served[i].payload, 24, k)
    ensures Holds(s.served[i].payload, 1073741848, v)
    ensures Holds(s.served[i].payload, 2147483672, flags)
    ensures s.served[i].answer.Int?
    ensures i < |s.returned| ==> IsSigned(s.returned[i].value, s.served[i].answer.low)
  {
    FieldsHeld(s.served[i].payload, m, k, v, flags);
  }

  /** Helper 14 returns the host's eight bytes; helpers 6 and 501 its `int`, signed. */
  lemma {:induction false} OthersServed(s: State, i: nat, call: Call)
    requires ServedTo(s, i, call) && i < |s.returned|
    ensures call.request == 14 && call.load == U64 ==>
              s.served[i].answer.Whole? && s.returned[i].value == s.served[i].answer.word
    ensures call.request in {6, 501} && call.load == S32 ==>
              s.served[i].answer.Int? && IsSigned(s.returned[i].value, s.served[i].answer.low)
  {
  }

  /** `value` is the two's complement reading of 32 bits. */
  predicate IsSigned(value: int, low: Half) {
    -0x8000_0000 <= value < 0x8000_0000 && (value == low || value + 0x1_0000_0000 == low)
  }

  lemma {:induction false} KeyHeld(payload: Bytes, call: Bytes, k: seq<int>)
    requires Within(call, payload) && call == At(KEY_OFFSET, k)
    ensures Holds(payload, 24, k)
  {
    forall j | 0 <= j < |k|
      ensures 24 + j in payload && payload[24 + j] == k[j]
    {
      assert 24 + j in call && call[24 + j] == k[j];
    }
  }

  lemma {:induction false} FieldsHeld(payload: Bytes, m: int, k: seq<int>, v: seq<int>, flags: seq<int>)
    requires Within(Update(m, k, v, flags).payload, payload) && |k| <= 0x4000_0000 && |v| <= 0x4000_0000
    ensures Holds(payload, 24, k) && Holds(payload, 1073741848, v) && Holds(payload, 2147483672, flags)
  {
    var call := Update(m, k, v, flags).payload;
    forall j | 0 <= j < |k|
      ensures 24 + j in payload && payload[24 + j] == k[j]
    {
      assert 24 + j in call && call[24 + j] == k[j];
    }
    forall j | 0 <= j < |v|
      ensures 1073741848 + j in payload && payload[1073741848 + j] == v[j]
    {
      assert 1073741848 + j in call && call[1073741848 + j] == v[j];
    }
    forall j | 0 <= j < |flags|
      ensures 2147483672 + j in payload && payload[2147483672 + j] == flags[j]
    {
      assert 2147483672 + j in call && call[2147483672 + j] == flags[j];
    }
  }

  /** Every request raised was a call of this set. */
  ghost predicate RaisedFrom(s: State, calls: iset<Call>) {
    forall i | 0 <= i < |s.raised| :: s.raised[i].call in calls
  }

  lemma {:induction false} RunRaises(s: State, run: seq<Action>, tids: set<Tid>, calls: iset<Call>)
    requires Confined(s, tids, calls) && RaisedFrom(s, calls) && Admissible(s, run) && Begins(run, calls)
    ensures RaisedFrom(Run(s, run), calls)
    decreases |run|
  {
    if run != [] {
      StepConfined(s, run[0], tids, calls);
      StepRaises(s, run[0], tids, calls);
      assert forall k | 0 <= k < |run[1..]| :: run[1..][k] == run[k + 1];
      RunRaises(Step(s, run[0]), run[1..], tids, calls);
    }
  }

  lemma {:induction false} StepRaises(s: State, a: Action, tids: set<Tid>, calls: iset<Call>)
    requires Confined(s, tids, calls) && RaisedFrom(s, calls) && Enabled(s, a)
    ensures RaisedFrom(Step(s, a), calls)
  {
  }

  /** What the host is to see of a call on this key, and the caller of the answer. */
  ghost predicate SeenAs(served: Served, k: seq<int>, v: seq<int>, flags: seq<int>) {
    && served.request in {1, 2, 3} && Holds(served.payload, 24, k)
    && (served.request == 2 ==> Holds(served.payload, 1073741848, v) && Holds(served.payload, 2147483672, flags))
  }

  ghost predicate AnsweredAs(value: int, served: Served) {
    if served.request == 1 then served.answer.Whole? && value == served.answer.word
    else served.answer.Int? && IsSigned(value, served.answer.low)
  }

  /** Any number of threads looking a key up, updating and deleting it, in any interleaving: the host sees the
      key every time, and value and flags with every update, and each caller gets its answer. */
  lemma {:induction false} SameKeyServed(s: State, run: seq<Action>, m: int, k: seq<int>, v: seq<int>, flags: seq<int>,
                                         i: nat)
    requires Initial(s) && Admissible(s, run)
    requires Begins(run, iset{Lookup(m, k), Update(m, k, v, flags), Delete(m, k)})
    requires |k| <= 0x4000_0000 && |v| <= 0x4000_0000 && i < |Run(s, run).served|
    ensures SeenAs(Run(s, run).served[i], k, v, flags) && Run(s, run).served[i].mapId == m
    ensures i < |Run(s, run).returned| ==> AnsweredAs(Run(s, run).returned[i].value, Run(s, run).served[i])
  {
    SameKeyAgrees(m, k, v, flags);
    var call := AgreeingServes(s, run, iset{Lookup(m, k), Update(m, k, v, flags), Delete(m, k)}, i);
    SeenAndAnswered(Run(s, run), call, m, k, v, flags, i);
  }

  lemma {:induction false} AgreeingServes(s: State, run: seq<Action>, calls: iset<Call>, i: nat) returns (call: Call)
    requires Initial(s) && Admissible(s, run) && Begins(run, calls) && AllAgree(calls) && i < |Run(s, run).served|
    ensures call in calls && ServedTo(Run(s, run), i, call)
  {
    ConfinedRun(s, run, s.threads.Keys, calls);
    RunRaises(s, run, s.threads.Keys, calls);
    EveryRunIsSafe(s, run);
    call := Run(s, run).raised[i].call;
    HarmonyServes(s, run, i, call);
  }

  lemma {:induction false} SeenAndAnswered(s: State, call: Call, m: int, k: seq<int>, v: seq<int>, flags: seq<int>,
                                           i: nat)
    requires call == Lookup(m, k) || call == Update(m, k, v, flags) || call == Delete(m, k)
    requires ServedTo(s, i, call) && |k| <= 0x4000_0000 && |v| <= 0x4000_0000
    ensures SeenAs(s.served[i], k, v, flags) && s.served[i].mapId == m
    ensures i < |s.returned| ==> AnsweredAs(s.returned[i].value, s.served[i])
  {
    if call == Lookup(m, k) {
      LookupServed(s, i, m, k);
    } else if call == Delete(m, k) {
      DeleteServed(s, i, m, k);
    } else {
      UpdateServed(s, i, m, k, v, flags);
    }
  }
}
