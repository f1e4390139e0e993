/** The memory-capture patcher's generated prologue: eBPF that builds a copy of a PTX
    line on the stack, eight bytes at a time, and leaves r1 pointing to it. */
module MemCapture {

  type Byte = bv8
  type Word = w: seq<Byte> | |w| == 8 witness [0, 0, 0, 0, 0, 0, 0, 0]
  type Half = h: seq<Byte> | |h| == 4 witness [0, 0, 0, 0]
  type Memory = int -> Byte

  /** A register holds an address or eight loaded bytes, least significant first. */
  datatype Value = Address(at: int) | Raw(word: Word)

  datatype Insn =
    | StDw(dst: nat, off: int, imm: Half)       // *(u64 *)(dst + off) = imm, sign extended
    | SubImm(dst: nat, amount: int)
    | MovReg(dst: nat, src: nat)
    | LdDw(dst: nat, imm: Half)                 // first slot of a 64-bit load
    | NextImm(imm: Half)                        // its second slot
    | StxDw(dst: nat, src: nat, off: int)       // *(u64 *)(dst + off) = src

  datatype Machine = Machine(regs: map<nat, Value>, mem: Memory)

  // ----- eBPF semantics (sections 3.2, 4.1, 5.2 and 5.4 of RFC 9669) -----

  function Write(m: Memory, at: int, w: Word): Memory {
    (a: int) => if at <= a < at + 8 then w[a - at] else m(a)
  }

  function Extend(h: Half): Word {
    h + (if h[3] >= 0x80 then [0xff, 0xff, 0xff, 0xff] else [0, 0, 0, 0])
  }

  predicate IsAddress(m: Machine, r: nat) {
    r in m.regs && m.regs[r].Address?
  }

  /** Straight-line execution; none when an instruction is malformed. */
  datatype Outcome = Halted(m: Machine) | Fault

  function Run(p: seq<Insn>, m: Machine): Outcome
    decreases |p|
  {
    if p == [] then Halted(m)
    else
      match p[0]
      case StDw(d, off, imm) =>
        if IsAddress(m, d) then Run(p[1..], m.(mem := Write(m.mem, m.regs[d].at + off, Extend(imm)))) else Fault
      case SubImm(d, imm) =>
        if IsAddress(m, d) then Run(p[1..], m.(regs := m.regs[d := Address(m.regs[d].at - imm)])) else Fault
      case MovReg(d, s) =>
        if s in m.regs then Run(p[1..], m.(regs := m.regs[d := m.regs[s]])) else Fault
      case LdDw(d, lo) =>
        if |p| >= 2 && p[1].NextImm? then Run(p[2..], m.(regs := m.regs[d := Raw(lo + p[1].imm)])) else Fault
      case NextImm(_) => Fault
      case StxDw(d, s, off) =>
        if IsAddress(m, d) && s in m.regs && m.regs[s].Raw?
        then Run(p[1..], m.(mem := Write(m.mem, m.regs[d].at + off, m.regs[s].word))) else Fault
  }

  // ----- the generator -----

  /** `(int16_t)i` for a nonnegative `i`. */
  function Int16(i: nat): (r: int)
    ensures -0x8000 <= r < 0x8000 && (i - r) % 0x1_0000 == 0
  {
    if i % 0x1_0000 < 0x8000 then i % 0x1_0000 else i % 0x1_0000 - 0x1_0000
  }

  /** `N / 8 * 8`, plus eight when `N` is not a multiple, for `N` the line's size with its terminator. */
  function TotalLength(line: seq<Byte>): (t: nat)
    ensures t % 8 == 0 && |line| < t <= |line| + 8
  {
    var n := |line| + 1;
    n / 8 * 8 + (if n % 8 != 0 then 8 else 0)
  }

  /** `(uint64_t)c << (8 * j)` for a signed `char`: zeros, the byte, then its sign. */
  function Shifted(c: Byte, j: nat): Word
    requires j < 8
  {
    seq(8, k => if k < j then 0 else if k == j then c else if c >= 0x80 then 0xff else 0)
  }

  function Or(v: Word, w: Word): Word {
    seq(8, k requires 0 <= k < 8 => v[k] | w[k])
  }

  /** Some earlier byte of the word, before position `k`, has its high bit set. */
  ghost predicate Dirty(line: seq<Byte>, i: nat, k: nat) {
    exists x :: i <= x < i + k && x < |line| && line[x] >= 0x80
  }

  /** Byte `k` of the word for position `i`: all ones after a byte with its high bit set. */
  ghost function WordByte(line: seq<Byte>, i: nat, k: nat): Byte {
    if Dirty(line, i, k) then 0xff else if i + k < |line| then line[i + k] else 0
  }

  ghost function WordAt(line: seq<Byte>, i: nat): Word {
    seq(8, k requires 0 <= k < 8 => WordByte(line, i, k))
  }

  lemma {:induction false} OrFacts(a: Byte)
    ensures a | 0 == a && 0 | a == a && a | 0xff == 0xff && 0xff | a == 0xff
  {
  }

  /** The inner loop. */
  method BuildWord(line: seq<Byte>, i: nat) returns (w: Word)
    requires i < |line|
    ensures w == WordAt(line, i)
  {
    w := [0, 0, 0, 0, 0, 0, 0, 0];
    var j: nat := 0;
    while j < 8 && j + i < |line|
      invariant j <= 8 && i + j <= |line|
      invariant w == WordAt(line[..i + j], i)
    {
      ghost var before, after := line[..i + j], line[..i + j + 1];
      ghost var v := w;
      w := Or(w, Shifted(line[i + j], j));
      forall k | 0 <= k < 8
        ensures w[k] == WordByte(after, i, k)
      {
        assert v[k] == WordByte(before, i, k);
        OneMoreByte(line, i, j, k);
      }
      j := j + 1;
    }
    forall k | 0 <= k < 8
      ensures w[k] == WordByte(line, i, k)
    {
      assert w[k] == WordByte(line[..i + j], i, k);
      assert Dirty(line[..i + j], i, k) <==> Dirty(line, i, k);
    }
  }

  lemma {:induction false} OneMoreByte(line: seq<Byte>, i: nat, j: nat, k: nat)
    requires i + j < |line| && j < 8 && k < 8
    ensures WordByte(line[..i + j + 1], i, k) == WordByte(line[..i + j], i, k) | Shifted(line[i + j], j)[k]
  {
    var before, after := line[..i + j], line[..i + j + 1];
    var c := line[i + j];
    OrFacts(WordByte(before, i, k));
    OrFacts(Shifted(c, j)[k]);
    assert Dirty(before, i, k) ==> Dirty(after, i, k);
    if k <= j {
      assert Dirty(after, i, k) ==> Dirty(before, i, k);
    } else {
      assert after[i + j] == c;
      assert forall x | i <= x < i + j :: after[x] == before[x];
      assert Dirty(after, i, k) <==> c >= 0x80 || Dirty(before, i, k);
    }
  }

  ghost function StoreWord(line: seq<Byte>, i: nat): seq<Insn> {
    [LdDw(2, WordAt(line, i)[..4]), NextImm(WordAt(line, i)[4..]), StxDw(1, 2, Int16(i))]
  }

  ghost function StoreWords(line: seq<Byte>, i: nat): seq<Insn>
    decreases |line| - i
  {
    if i >= |line| then [] else StoreWord(line, i) + StoreWords(line, i + 8)
  }

  function Setup(line: seq<Byte>): seq<Insn> {
    [StDw(10, -8, [0, 0, 0, 0]), SubImm(10, TotalLength(line)), MovReg(1, 10)]
  }

  /** The generated prologue. */
  method Prologue(line: seq<Byte>) returns (entry: seq<Insn>)
    ensures entry == Setup(line) + StoreWords(line, 0)
  {
    entry := Setup(line);
    var i: nat := 0;
    while i < |line|
      invariant entry + StoreWords(line, i) == Setup(line) + StoreWords(line, 0)
    {
      var w := BuildWord(line, i);
      ghost var was := entry;
      entry := entry + [LdDw(2, w[..4])] + [NextImm(w[4..])];
      entry := entry + [StxDw(1, 2, Int16(i))];
      assert entry == was + StoreWord(line, i);
      assert was + (StoreWord(line, i) + StoreWords(line, i + 8)) == entry + StoreWords(line, i + 8);
      i := i + 8;
    }
    assert entry + [] == entry;
  }

  // ----- what running it does -----

  /** Memory after the words from position `i` on are stored relative to `at`. */
  ghost function Stored(line: seq<Byte>, i: nat, at: int, m: Memory): Memory
    decreases |line| - i
  {
    if i >= |line| then m else Stored(line, i + 8, at, Write(m, at + Int16(i), WordAt(line, i)))
  }

  lemma {:induction false} RunStores(line: seq<Byte>, i: nat, m: Machine)
    requires IsAddress(m, 1)
    ensures var r := Run(StoreWords(line, i), m);
            && r.Halted? && r.m.mem == Stored(line, i, m.regs[1].at, m.mem)
            && IsAddress(r.m, 1) && r.m.regs[1] == m.regs[1]
    decreases |line| - i
  {
    if i < |line| {
      var p, w := StoreWords(line, i), WordAt(line, i);
      assert p[0] == LdDw(2, w[..4]) && p[1] == NextImm(w[4..]);
      assert p[2..] == [StxDw(1, 2, Int16(i))] + StoreWords(line, i + 8);
      assert p[2..][1..] == StoreWords(line, i + 8);
      assert w[..4] + w[4..] == w;
      var m1 := m.(regs := m.regs[2 := Raw(w)]);
      var m2 := m1.(mem := Write(m.mem, m.regs[1].at + Int16(i), w));
      RunStores(line, i + 8, m2);
    }
  }

  /** The whole effect: zero the last eight bytes, then store the words from the bottom up. */
  ghost function Captured(line: seq<Byte>, m: Memory, top: int): Memory {
    Stored(line, 0, top - TotalLength(line), Write(m, top - 8, [0, 0, 0, 0, 0, 0, 0, 0]))
  }

  lemma {:induction false} RunPrologue(line: seq<Byte>, m: Machine, top: int)
    requires IsAddress(m, 10) && m.regs[10].at == top
    ensures var r := Run(Setup(line) + StoreWords(line, 0), m);
            && r.Halted? && r.m.mem == Captured(line, m.mem, top)
            && IsAddress(r.m, 1) && r.m.regs[1].at == top - TotalLength(line)
  {
    var p := Setup(line) + StoreWords(line, 0);
    var zero: Half := [0, 0, 0, 0];
    assert Extend(zero) == [0, 0, 0, 0, 0, 0, 0, 0];
    var m1 := m.(mem := Write(m.mem, top - 8, Extend(zero)));
    var m2 := m1.(regs := m.regs[10 := Address(top - TotalLength(line))]);
    var m3 := m2.(regs := m2.regs[1 := m2.regs[10]]);
    var p1, p2 := p[1..], p[2..];
    assert p1[0] == SubImm(10, TotalLength(line)) && p1[1..] == p2;
    assert p2[0] == MovReg(1, 10) && p2[1..] == StoreWords(line, 0);
    assert Run(p, m) == Run(p1, m1);
    assert Run(p1, m1) == Run(p2, m2);
    assert Run(p2, m2) == Run(StoreWords(line, 0), m3);
    RunStores(line, 0, m3);
  }

  // ----- when it builds the string -----

  /** The line, then a zero byte, at the bottom of the reserved region, and nothing outside it touched. */
  ghost predicate Builds(line: seq<Byte>, m: Memory, top: int) {
    var r, at := Captured(line, m, top), top - TotalLength(line);
    && (forall x | 0 <= x < |line| :: r(at + x) == line[x])
    && r(at + |line|) == 0
    && (forall a | a < at || top <= a :: r(a) == m(a))
  }

  /** Offsets fit in 16 bits, and a byte with its high bit set is followed, to the end of its
      eight-byte group and within the line, only by bytes that are all ones. */
  ghost predicate Safe(line: seq<Byte>) {
    && |line| <= 0x8000
    && forall x, y | 0 <= x < y <= |line| && x / 8 == y / 8 && line[x] >= 0x80 :: y < |line| && line[y] == 0xff
  }

  lemma {:induction false} StoresNothingElse(line: seq<Byte>, i: nat, at: int, m: Memory, a: int)
    requires |line| <= 0x8000 && i % 8 == 0
    requires a < at + i || at + TotalLength(line) <= a
    ensures Stored(line, i, at, m)(a) == m(a)
    decreases |line| - i
  {
    if i < |line| {
      assert Int16(i) == i;
      StoresNothingElse(line, i + 8, at, Write(m, at + i, WordAt(line, i)), a);
    }
  }

  lemma {:induction false} StoresWord(line: seq<Byte>, i: nat, at: int, m: Memory, b: nat, k: nat)
    requires |line| <= 0x8000 && i % 8 == 0 && b % 8 == 0 && i <= b < |line| && k < 8
    ensures Stored(line, i, at, m)(at + b + k) == WordByte(line, b, k)
    decreases |line| - i
  {
    assert Int16(i) == i;
    var m' := Write(m, at + i, WordAt(line, i));
    if i == b {
      StoresNothingElse(line, i + 8, at, m', at + b + k);
    } else {
      StoresWord(line, i + 8, at, m', b, k);
    }
  }

  /** The byte of the string at position `x`, terminator included. */
  lemma {:induction false} CapturedByte(line: seq<Byte>, m: Memory, top: int, x: nat)
    requires |line| <= 0x8000 && x <= |line|
    ensures var b, k := x / 8 * 8, x % 8;
            Captured(line, m, top)(top - TotalLength(line) + x) == if b < |line| then WordByte(line, b, k) else 0
  {
    var at := top - TotalLength(line);
    var m0 := Write(m, top - 8, [0, 0, 0, 0, 0, 0, 0, 0]);
    var b, k := x / 8 * 8, x % 8;
    if b < |line| {
      StoresWord(line, 0, at, m0, b, k);
      assert at + b + k == at + x;
    } else {
      StoresBelow(line, 0, at, m0, at + x);
    }
  }

  lemma {:induction false} StoresBelow(line: seq<Byte>, i: nat, at: int, m: Memory, a: int)
    requires |line| <= 0x8000 && i % 8 == 0 && i <= |line| && |line| % 8 == 0 && at + |line| <= a
    ensures Stored(line, i, at, m)(a) == m(a)
    decreases |line| - i
  {
    if i < |line| {
      assert Int16(i) == i;
      StoresBelow(line, i + 8, at, Write(m, at + i, WordAt(line, i)), a);
    }
  }

  lemma {:induction false} SafeByte(line: seq<Byte>, m: Memory, top: int, x: nat)
    requires Safe(line) && x <= |line|
    ensures Captured(line, m, top)(top - TotalLength(line) + x) == if x < |line| then line[x] else 0
  {
    CapturedByte(line, m, top, x);
    var b := x / 8 * 8;
    if b < |line| && Dirty(line, b, x % 8) {
      var y :| b <= y < b + x % 8 && y < |line| && line[y] >= 0x80;
      assert y / 8 == x / 8;
    }
  }

  lemma {:induction false} SafeBuilds(line: seq<Byte>, m: Memory, top: int)
    requires Safe(line)
    ensures Builds(line, m, top)
  {
    var at := top - TotalLength(line);
    forall x | 0 <= x < |line|
      ensures Captured(line, m, top)(at + x) == line[x]
    {
      SafeByte(line, m, top, x);
    }
    SafeByte(line, m, top, |line|);
    var m0 := Write(m, top - 8, [0, 0, 0, 0, 0, 0, 0, 0]);
    forall a | a < at || top <= a
      ensures Captured(line, m, top)(a) == m(a)
    {
      StoresNothingElse(line, 0, at, m0, a);
    }
  }

  /** A high byte that is not followed by ones spoils the copy, whatever memory held. */
  lemma {:induction false} HighByteSpoils(line: seq<Byte>, m: Memory, top: int, x: nat, y: nat)
    requires |line| <= 0x8000 && x < y <= |line| && x / 8 == y / 8 && line[x] >= 0x80
    requires y == |line| || line[y] != 0xff
    ensures !Builds(line, m, top)
  {
    var b := y / 8 * 8;
    CapturedByte(line, m, top, y);
    assert Dirty(line, b, y % 8);
    assert Captured(line, m, top)(top - TotalLength(line) + y) == 0xff;
  }

  /** Two runs agree at an address once a word has been stored over it. */
  lemma {:induction false} StoresAgree(line: seq<Byte>, i: nat, at: int, m: Memory, m': Memory, a: int)
    requires i % 8 == 0
    requires m(a) == m'(a) || (i <= 0x8000 < |line| && a == at - 0x8000)
    ensures Stored(line, i, at, m)(a) == Stored(line, i, at, m')(a)
    decreases |line| - i
  {
    if i < |line| {
      var w := WordAt(line, i);
      assert i == 0x8000 ==> Int16(i) == -0x8000;
      StoresAgree(line, i + 8, at, Write(m, at + Int16(i), w), Write(m', at + Int16(i), w), a);
    }
  }

  /** Past 32768 bytes an offset wraps and a word lands below the region. */
  lemma {:induction false} LongLineSpoils(line: seq<Byte>, top: int) returns (m: Memory)
    requires |line| > 0x8000
    ensures !Builds(line, m, top)
  {
    var at := top - TotalLength(line);
    var a := at - 0x8000;
    var zeros, ones := (x: int) => 0 as bv8, (x: int) => 1 as bv8;
    var z: Word := [0, 0, 0, 0, 0, 0, 0, 0];
    StoresAgree(line, 0, at, Write(zeros, top - 8, z), Write(ones, top - 8, z), a);
    assert Captured(line, zeros, top)(a) == Captured(line, ones, top)(a);
    m := if Captured(line, zeros, top)(a) == 0 then ones else zeros;
    assert Captured(line, m, top)(a) != m(a);
  }

  /** The prologue builds the string in every memory, at every stack top, exactly for safe lines. */
  lemma {:induction false} BuildsIff(line: seq<Byte>)
    ensures (forall m: Memory, top: int :: Builds(line, m, top)) <==> Safe(line)
  {
    if Safe(line) {
      forall m: Memory, top: int
        ensures Builds(line, m, top)
      {
        SafeBuilds(line, m, top);
      }
    } else if |line| > 0x8000 {
      var m := LongLineSpoils(line, 0);
    } else {
      var x, y :| 0 <= x < y <= |line| && x / 8 == y / 8 && line[x] >= 0x80 && !(y < |line| && line[y] == 0xff);
      var m: Memory := (a: int) => 0 as bv8;
      HighByteSpoils(line, m, 0, x, y);
    }
  }

  // ----- the character filter -----

  predicate Printable(c: Byte) {
    c == 0x09 || c == 0x0a || 0x20 <= c < 0x7f
  }

  function Kept(input: seq<Byte>): seq<Byte> {
    if input == [] then []
    else Kept(input[..|input| - 1]) + (if Printable(input[|input| - 1]) then [input[|input| - 1]] else [])
  }

  const BRACE: Byte := 0x7d

  lemma {:induction false} KeptFacts(input: seq<Byte>)
    ensures forall c :: c in Kept(input) <==> c in input && Printable(c)
  {
    if input != [] {
      KeptFacts(input[..|input| - 1]);
      assert input == input[..|input| - 1] + [input[|input| - 1]];
    }
  }

  /** A byte the filter keeps: tab, newline, or from space to tilde. */
  predicate Visible(c: Byte) {
    c in {0x09, 0x0a} || 0x20 <= c <= 0x7e
  }

  /** The kept bytes are those at the positions of visible ones, all of them and in order. */
  lemma {:induction false} KeptExactly(input: seq<Byte>) returns (at: seq<nat>)
    ensures Positions(input, at)
  {
    if input == [] {
      at := [];
    } else {
      var last := |input| - 1;
      var before := KeptExactly(input[..last]);
      at := if Printable(input[last]) then before + [last] else before;
      OneMoreKept(input, before, at);
    }
  }

  lemma {:induction false} OneMoreKept(input: seq<Byte>, before: seq<nat>, at: seq<nat>)
    requires input != [] && at == if Printable(input[|input| - 1]) then before + [|input| - 1] else before
    requires Positions(input[..|input| - 1], before)
    ensures Positions(input, at)
  {
    var init, last := input[..|input| - 1], |input| - 1;
    assert last !in before;
    forall i: nat | i < |input|
      ensures i in at <==> Visible(input[i])
    {
      if i < last {
        assert init[i] == input[i];
        assert i in at <==> i in before;
      }
    }
  }

  /** `at` lists the positions of the visible bytes, and the kept text is what stands there. */
  ghost predicate Positions(input: seq<Byte>, at: seq<nat>) {
    && |at| == |Kept(input)| && (forall k | 0 <= k < |at| :: at[k] < |input| && Kept(input)[k] == input[at[k]])
    && (forall j, k | 0 <= j < k < |at| :: at[j] < at[k])
    && (forall i: nat | i < |input| :: i in at <==> Visible(input[i]))
  }

  lemma {:induction false} DropLast(kept: seq<Byte>, n: nat)
    requires 0 < n <= |kept| && kept[n - 1] != BRACE && BRACE in kept[..n] && BRACE !in kept[n..]
    ensures BRACE in kept[..n - 1] && BRACE !in kept[n - 1..]
  {
    assert kept[n - 1..] == [kept[n - 1]] + kept[n..];
    assert kept[..n] == kept[..n - 1] + [kept[n - 1]];
  }

  /** `filter_unprintable_chars`: drop control and non-ASCII characters, then cut after the last
      closing brace.  Without one the source pops an empty string, so a brace is required. */
  method FilterUnprintable(input: seq<Byte>) returns (result: seq<Byte>)
    requires 0x7d in input
    ensures result <= Kept(input) && result != [] && result[|result| - 1] == 0x7d
    ensures 0x7d !in Kept(input)[|result|..]
    ensures forall c | c in result :: Printable(c)
  {
    result := [];
    for i := 0 to |input|
      invariant result == Kept(input[..i])
    {
      assert input[..i + 1][..i] == input[..i];
      var c := input[i];
      if c <= 0x08 || (0x0b <= c && c <= 0x1f) || c == 0x7f || c > 0x7f {
        continue;
      }
      result := result + [c];
    }
    assert input[..|input|] == input;
    KeptFacts(input);
    result := TrimToBrace(result);
  }

  /** Characters are dropped from the end until a closing brace is last. */
  method TrimToBrace(kept: seq<Byte>) returns (result: seq<Byte>)
    requires BRACE in kept
    ensures result <= kept && result != [] && result[|result| - 1] == BRACE && BRACE !in kept[|result|..]
  {
    result := kept;
    while result[|result| - 1] != BRACE
      invariant result <= kept && BRACE in result && BRACE !in kept[|result|..]
      decreases |result|
    {
      DropLast(kept, |result|);
      result := result[..|result| - 1];
    }
  }

  /** A C string of `line` at `at`: its bytes, none zero, then a zero. */
  ghost predicate IsCString(m: Memory, at: int, line: seq<Byte>) {
    && (forall x | 0 <= x < |line| :: m(at + x) == line[x] && line[x] != 0)
    && m(at + |line|) == 0
  }

  /** Every stretch of filtered text short enough for 16-bit offsets is captured as its own C string. */
  lemma {:induction false} FilteredTextIsCaptured(text: seq<Byte>, lo: nat, hi: nat, m: Machine, top: int)
    requires forall c | c in text :: Printable(c)
    requires lo <= hi <= |text| && hi - lo <= 0x8000
    requires IsAddress(m, 10) && m.regs[10].at == top
    ensures var line := text[lo..hi];
            var r := Run(Setup(line) + StoreWords(line, 0), m);
            && r.Halted? && IsAddress(r.m, 1) && IsCString(r.m.mem, r.m.regs[1].at, line)
            && (forall a | a < r.m.regs[1].at || top <= a :: r.m.mem(a) == m.mem(a))
  {
    var line := text[lo..hi];
    forall x | 0 <= x < |line|
      ensures 0 < line[x] < 0x80
    {
      assert line[x] == text[lo + x] && text[lo + x] in text;
      assert Printable(line[x]);
    }
    SafeBuilds(line, m.mem, top);
    RunPrologue(line, m, top);
  }
}
