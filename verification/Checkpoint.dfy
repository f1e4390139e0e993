/** The checkpoint file: a tagged binary format written in one pass and read back by a
    loop over section tags.  Sizes of strings and vectors are 64-bit; the kernel name's
    length and each thread's register count are stored in 32 bits. */
module Checkpoint {
  import opened Common
  import opened Bytes

  const TWO32: nat := 0x1_0000_0000
  const TWO64: nat := 0x1_0000_0000_0000_0000

  const MAGIC: nat := 0x43504B47
  const VERSION: nat := 1
  const END_MARKER: nat := 0xFFFF_FFFF

  type U32 = x: int | 0 <= x < 0x1_0000_0000
  type U64 = x: int | 0 <= x < 0x1_0000_0000_0000_0000

  datatype Dim = Dim(x: U32, y: U32, z: U32)
  datatype Thread = Thread(registers: seq<U32>, pc: U32, sp: U32)

  /** The saved part of a kernel state. */
  datatype Snapshot = Snapshot(
    grid: Dim, block: Dim, name: seq<Byte>,
    global: seq<Byte>, base: U64, shared: seq<Byte>,
    original: seq<Byte>, current: seq<Byte>, threads: seq<Thread>)

  /** In-memory sizes are `size_t`. */
  predicate Sized(st: Snapshot) {
    && |st.global| < TWO64 && |st.shared| < TWO64
    && |st.original| < TWO64 && |st.current| < TWO64 && |st.threads| < TWO64
  }

  // ----- writing -----

  function Int32(v: U32): seq<Byte> {
    Encode(v, 4)
  }

  function Int64(v: U64): seq<Byte> {
    Encode(v, 8)
  }

  function DimBytes(d: Dim): seq<Byte> {
    Int32(d.x) + (Int32(d.y) + Int32(d.z))
  }

  /** The length as stored: a `uint32_t`. */
  function Short32(n: nat): U32 {
    n % TWO32
  }

  function Clip<T>(s: seq<T>): seq<T> {
    s[..Short32(|s|)]
  }

  function RegisterBytes(regs: seq<U32>): (b: seq<Byte>)
    ensures |b| == 4 * |regs|
  {
    if regs == [] then [] else Int32(regs[0]) + RegisterBytes(regs[1..])
  }

  function ThreadBytes(t: Thread): seq<Byte> {
    Int32(Short32(|t.registers|)) + (RegisterBytes(Clip(t.registers)) + (Int32(t.pc) + Int32(t.sp)))
  }

  function ThreadsBytes(ts: seq<Thread>): seq<Byte> {
    if ts == [] then [] else ThreadBytes(ts[0]) + ThreadsBytes(ts[1..])
  }

  /** Dimensions and kernel name. */
  function NameBytes(st: Snapshot): seq<Byte> {
    DimBytes(st.grid) + (DimBytes(st.block) + (Int32(Short32(|st.name|)) + Clip(st.name)))
  }

  function Header(st: Snapshot, stamp: U64): seq<Byte> {
    Int32(MAGIC) + (Int32(VERSION) + (Int64(stamp) + NameBytes(st)))
  }

  /** Compression is the identity here; it only adds a stored size. */
  function GlobalSection(st: Snapshot, compress: bool): seq<Byte>
    requires Sized(st)
  {
    Int32(1) + (Int64(|st.global|) + (Int64(st.base) +
      (if st.global == [] then [] else (if compress then Int64(|st.global|) else []) + st.global)))
  }

  /** Sections 2, 3 and 4: shared memory and the two PTX texts. */
  function BlobSection(tag: U32, data: seq<Byte>): seq<Byte>
    requires |data| < TWO64
  {
    Int32(tag) + (Int64(|data|) + data)
  }

  function ThreadSection(ts: seq<Thread>): seq<Byte>
    requires |ts| < TWO64
  {
    Int32(5) + (Int64(|ts|) + ThreadsBytes(ts))
  }

  function File(st: Snapshot, compress: bool, stamp: U64): seq<Byte>
    requires Sized(st)
  {
    Header(st, stamp) + GlobalSection(st, compress) + BlobSection(2, st.shared) + BlobSection(3, st.original)
    + BlobSection(4, st.current) + ThreadSection(st.threads) + Int32(END_MARKER)
  }

  method WriteThread(t: Thread) returns (file: seq<Byte>)
    ensures file == ThreadBytes(t)
  {
    var count := |t.registers| % TWO32;
    file := Int32(count);
    file := file + RegisterBytes(t.registers[..count]);
    file := file + Int32(t.pc);
    file := file + Int32(t.sp);
  }

  lemma {:induction false} FirstThread(ts: seq<Thread>, i: nat)
    requires i < |ts|
    ensures ThreadsBytes(ts[i..]) == ThreadBytes(ts[i]) + ThreadsBytes(ts[i + 1..])
  {
    assert ts[i..][0] == ts[i] && ts[i..][1..] == ts[i + 1..];
  }

  method WriteThreads(ts: seq<Thread>) returns (file: seq<Byte>)
    ensures file == ThreadsBytes(ts)
  {
    file := [];
    for i := 0 to |ts|
      invariant file + ThreadsBytes(ts[i..]) == ThreadsBytes(ts)
    {
      var record := WriteThread(ts[i]);
      FirstThread(ts, i);
      Regroup(file, record, ThreadsBytes(ts[i + 1..]));
      file := file + record;
    }
    assert file + [] == file;
  }

  method WriteHeader(st: Snapshot, stamp: U64) returns (file: seq<Byte>)
    ensures file == Header(st, stamp)
  {
    var nameLen := |st.name| % TWO32;
    file := DimBytes(st.grid);
    file := file + DimBytes(st.block);
    file := file + Int32(nameLen);
    file := file + st.name[..nameLen];
    assert file == NameBytes(st);
    file := Int32(MAGIC) + (Int32(VERSION) + (Int64(stamp) + file));
  }

  method WriteGlobal(st: Snapshot, compress: bool) returns (file: seq<Byte>)
    requires Sized(st)
    ensures file == GlobalSection(st, compress)
  {
    file := [];
    if |st.global| > 0 {
      if compress {
        file := Int64(|st.global|);
      }
      file := file + st.global;
    }
    file := Int32(1) + (Int64(|st.global|) + (Int64(st.base) + file));
  }

  method Save(st: Snapshot, compress: bool, stamp: U64) returns (file: seq<Byte>)
    requires Sized(st)
    ensures file == File(st, compress, stamp)
  {
    file := WriteHeader(st, stamp);
    var global := WriteGlobal(st, compress);
    file := file + global;
    file := file + BlobSection(2, st.shared);
    file := file + BlobSection(3, st.original);
    file := file + BlobSection(4, st.current);
    var threads := WriteThreads(st.threads);
    file := file + (Int32(5) + (Int64(|st.threads|) + threads));
    file := file + Int32(END_MARKER);
  }

  // ----- reading -----

  /** A read either takes its bytes or runs past the end of the file. */
  datatype Read<+T> = Got(value: T, rest: seq<Byte>) | Short

  function ReadBytes(b: seq<Byte>, n: nat): Read<seq<Byte>> {
    if |b| < n then Short else Got(b[..n], b[n..])
  }

  function Read32(b: seq<Byte>): (r: Read<U32>)
    ensures r.Got? ==> |r.rest| + 4 == |b|
  {
    if |b| < 4 then Short
    else
      DecodeBound(b[..4]);
      Powers();
      Got(Decode(b[..4]), b[4..])
  }

  function Read64(b: seq<Byte>): (r: Read<U64>)
    ensures r.Got? ==> |r.rest| + 8 == |b|
  {
    if |b| < 8 then Short
    else
      DecodeBound(b[..8]);
      Powers();
      Got(Decode(b[..8]), b[8..])
  }

  function ReadDim(b: seq<Byte>): (r: Read<Dim>)
    ensures r.Got? ==> |r.rest| <= |b|
  {
    match Read32(b)
    case Short => Short
    case Got(x, b1) =>
      match Read32(b1)
      case Short => Short
      case Got(y, b2) =>
        match Read32(b2)
        case Short => Short
        case Got(z, b3) => Got(Dim(x, y, z), b3)
  }

  function ReadRegisters(b: seq<Byte>, n: nat): (r: Read<seq<U32>>)
    ensures r.Got? ==> |r.rest| <= |b|
    decreases n
  {
    if n == 0 then Got([], b)
    else
      match Read32(b)
      case Short => Short
      case Got(x, b1) =>
        match ReadRegisters(b1, n - 1)
        case Short => Short
        case Got(xs, b2) => Got([x] + xs, b2)
  }

  function ReadThread(b: seq<Byte>): (r: Read<Thread>)
    ensures r.Got? ==> |r.rest| < |b|
  {
    match Read32(b)
    case Short => Short
    case Got(n, b1) =>
      match ReadRegisters(b1, n)
      case Short => Short
      case Got(regs, b2) =>
        match Read32(b2)
        case Short => Short
        case Got(pc, b3) =>
          match Read32(b3)
          case Short => Short
          case Got(sp, b4) => Got(Thread(regs, pc, sp), b4)
  }

  function ReadThreads(b: seq<Byte>, n: nat): (r: Read<seq<Thread>>)
    ensures r.Got? ==> |r.rest| <= |b|
    decreases n
  {
    if n == 0 then Got([], b)
    else
      match ReadThread(b)
      case Short => Short
      case Got(t, b1) =>
        match ReadThreads(b1, n - 1)
        case Short => Short
        case Got(ts, b2) => Got([t] + ts, b2)
  }

  function ReadBlob(b: seq<Byte>): (r: Read<seq<Byte>>)
    ensures r.Got? ==> |r.rest| <= |b|
  {
    match Read64(b)
    case Short => Short
    case Got(n, b1) => ReadBytes(b1, n)
  }

  function ReadGlobal(b: seq<Byte>, compress: bool, st: Snapshot): (r: Read<Snapshot>)
    ensures r.Got? ==> |r.rest| <= |b|
  {
    match Read64(b)
    case Short => Short
    case Got(n, b1) =>
      match Read64(b1)
      case Short => Short
      case Got(base, b2) =>
        if n == 0 then Got(st.(global := [], base := base), b2)
        else
          match (if compress then ReadBlob(b2) else ReadBytes(b2, n))
          case Short => Short
          case Got(data, b3) => Got(st.(global := data, base := base), b3)
  }

  datatype Section = Known(state: Read<Snapshot>) | Unknown

  function ReadSection(tag: U32, b: seq<Byte>, compress: bool, st: Snapshot): (r: Section)
    ensures r.Known? && r.state.Got? ==> |r.state.rest| <= |b|
  {
    match tag
    case 1 => Known(ReadGlobal(b, compress, st))
    case 2 => (match ReadBlob(b) case Short => Known(Short) case Got(d, b1) => Known(Got(st.(shared := d), b1)))
    case 3 => (match ReadBlob(b) case Short => Known(Short) case Got(d, b1) => Known(Got(st.(original := d), b1)))
    case 4 => (match ReadBlob(b) case Short => Known(Short) case Got(d, b1) => Known(Got(st.(current := d), b1)))
    case 5 =>
      (match Read64(b)
       case Short => Known(Short)
       case Got(n, b1) =>
         match ReadThreads(b1, n)
         case Short => Known(Short)
         case Got(ts, b2) => Known(Got(st.(threads := ts), b2)))
    case _ => Unknown
  }

  /** `Truncated`: a read ran past the end; what the loader then holds is indeterminate. */
  datatype Loaded = Loaded(state: Snapshot) | BadMagic | BadVersion | UnknownSection | Truncated

  function ReadSections(b: seq<Byte>, compress: bool, st: Snapshot): Loaded
    decreases |b|
  {
    match Read32(b)
    case Short => Truncated
    case Got(tag, b1) =>
      if tag == END_MARKER then Loaded(st)
      else
        match ReadSection(tag, b1, compress, st)
        case Unknown => UnknownSection
        case Known(Short) => Truncated
        case Known(Got(st', b2)) => ReadSections(b2, compress, st')
  }

  function ReadName(b: seq<Byte>, st: Snapshot): (r: Read<Snapshot>) {
    match ReadDim(b)
    case Short => Short
    case Got(grid, b1) =>
      match ReadDim(b1)
      case Short => Short
      case Got(block, b2) =>
        match Read32(b2)
        case Short => Short
        case Got(n, b3) =>
          match ReadBytes(b3, n)
          case Short => Short
          case Got(name, b4) => Got(st.(grid := grid, block := block, name := name), b4)
  }

  /** The loader's value, given the state it loads into. */
  function Parse(b: seq<Byte>, compress: bool, st: Snapshot): Loaded {
    match Read32(b)
    case Short => Truncated
    case Got(magic, b1) =>
      match Read32(b1)
      case Short => Truncated
      case Got(version, b2) =>
        if magic != MAGIC then BadMagic
        else if version != VERSION then BadVersion
        else
          match Read64(b2)
          case Short => Truncated
          case Got(_, b3) =>
            match ReadName(b3, st)
            case Short => Truncated
            case Got(st', b4) => ReadSections(b4, compress, st')
  }

  /** The loader: header checks, then the loop over section tags. */
  method Load(file: seq<Byte>, compress: bool, into: Snapshot) returns (r: Loaded)
    ensures r == Parse(file, compress, into)
  {
    var magic := Read32(file);
    if magic.Short? { return Truncated; }
    var version := Read32(magic.rest);
    if version.Short? { return Truncated; }
    if magic.value != MAGIC { return BadMagic; }
    if version.value != VERSION { return BadVersion; }
    var stamp := Read64(version.rest);
    if stamp.Short? { return Truncated; }
    var named := ReadName(stamp.rest, into);
    if named.Short? { return Truncated; }
    var st, b := named.value, named.rest;
    while true
      invariant Parse(file, compress, into) == ReadSections(b, compress, st)
      decreases |b|
    {
      var tag := Read32(b);
      if tag.Short? { return Truncated; }
      if tag.value == END_MARKER { return Loaded(st); }
      var section := ReadSection(tag.value, tag.rest, compress, st);
      if section.Unknown? { return UnknownSection; }
      if section.state.Short? { return Truncated; }
      st, b := section.state.value, section.state.rest;
    }
  }

  // ----- the round trip -----

  lemma {:induction false} Back32(v: U32, rest: seq<Byte>)
    ensures Read32(Int32(v) + rest) == Got(v, rest)
  {
    Powers();
    DecodeEncode(v, 4);
    var b := Int32(v) + rest;
    assert b[..4] == Int32(v) && b[4..] == rest;
  }

  lemma {:induction false} Back64(v: U64, rest: seq<Byte>)
    ensures Read64(Int64(v) + rest) == Got(v, rest)
  {
    Powers();
    DecodeEncode(v, 8);
    var b := Int64(v) + rest;
    assert b[..8] == Int64(v) && b[8..] == rest;
  }

  lemma {:induction false} BackBytes(data: seq<Byte>, rest: seq<Byte>)
    ensures ReadBytes(data + rest, |data|) == Got(data, rest)
  {
    var b := data + rest;
    assert b[..|data|] == data && b[|data|..] == rest;
  }

  lemma {:induction false} BackDim(d: Dim, rest: seq<Byte>)
    ensures ReadDim(DimBytes(d) + rest) == Got(d, rest)
  {
    var b3 := Int32(d.z) + rest;
    var b2 := Int32(d.y) + b3;
    assert DimBytes(d) + rest == Int32(d.x) + b2;
    Back32(d.x, b2);
    Back32(d.y, b3);
    Back32(d.z, rest);
  }

  lemma {:induction false} BackRegisters(regs: seq<U32>, rest: seq<Byte>)
    ensures ReadRegisters(RegisterBytes(regs) + rest, |regs|) == Got(regs, rest)
    decreases |regs|
  {
    if regs == [] {
      assert RegisterBytes(regs) + rest == rest;
    } else {
      var b1 := RegisterBytes(regs[1..]) + rest;
      assert RegisterBytes(regs) + rest == Int32(regs[0]) + b1;
      Back32(regs[0], b1);
      BackRegisters(regs[1..], rest);
      assert regs == [regs[0]] + regs[1..];
    }
  }

  /** A thread as the file can hold it. */
  function ClipThread(t: Thread): Thread {
    t.(registers := Clip(t.registers))
  }

  lemma {:induction false} BackThread(t: Thread, rest: seq<Byte>)
    ensures ReadThread(ThreadBytes(t) + rest) == Got(ClipThread(t), rest)
  {
    var regs := Clip(t.registers);
    var b3 := Int32(t.sp) + rest;
    var b2 := Int32(t.pc) + b3;
    var b1 := RegisterBytes(regs) + b2;
    assert ThreadBytes(t) + rest == Int32(Short32(|t.registers|)) + b1;
    Back32(Short32(|t.registers|), b1);
    BackRegisters(regs, b2);
    Back32(t.pc, b3);
    Back32(t.sp, rest);
  }

  function ClipThreads(ts: seq<Thread>): (r: seq<Thread>)
    ensures |r| == |ts|
    ensures forall i | 0 <= i < |ts| :: r[i] == ClipThread(ts[i])
  {
    seq(|ts|, i requires 0 <= i < |ts| => ClipThread(ts[i]))
  }

  lemma {:induction false} BackThreads(ts: seq<Thread>, rest: seq<Byte>)
    ensures ReadThreads(ThreadsBytes(ts) + rest, |ts|) == Got(ClipThreads(ts), rest)
    decreases |ts|
  {
    if ts == [] {
      assert ThreadsBytes(ts) + rest == rest;
      assert ClipThreads(ts) == [];
    } else {
      BackThreads(ts[1..], rest);
      BackNext(ts[0], ts[1..], rest);
      ClipCons(ts);
    }
  }

  lemma {:induction false} BackNext(t: Thread, more: seq<Thread>, rest: seq<Byte>)
    requires ReadThreads(ThreadsBytes(more) + rest, |more|) == Got(ClipThreads(more), rest)
    ensures ReadThreads(ThreadBytes(t) + ThreadsBytes(more) + rest, |more| + 1)
         == Got([ClipThread(t)] + ClipThreads(more), rest)
  {
    BackFirst(t, more, rest);
    OneMoreThread(ThreadBytes(t) + ThreadsBytes(more) + rest, |more| + 1, ClipThread(t), ThreadsBytes(more) + rest,
                  ClipThreads(more), rest);
  }

  lemma {:induction false} BackFirst(t: Thread, more: seq<Thread>, rest: seq<Byte>)
    ensures ReadThread(ThreadBytes(t) + ThreadsBytes(more) + rest) == Got(ClipThread(t), ThreadsBytes(more) + rest)
  {
    BackThread(t, ThreadsBytes(more) + rest);
    Regroup(ThreadBytes(t), ThreadsBytes(more), rest);
  }

  lemma {:induction false} ClipCons(ts: seq<Thread>)
    requires ts != []
    ensures ClipThreads(ts) == [ClipThread(ts[0])] + ClipThreads(ts[1..])
  {
  }

  lemma {:induction false} OneMoreThread(b: seq<Byte>, n: nat, t: Thread, b1: seq<Byte>, ts: seq<Thread>,
                                         rest: seq<Byte>)
    requires n > 0 && ReadThread(b) == Got(t, b1) && ReadThreads(b1, n - 1) == Got(ts, rest)
    ensures ReadThreads(b, n) == Got([t] + ts, rest)
  {
  }

  lemma {:induction false} BackBlob(data: seq<Byte>, rest: seq<Byte>)
    requires |data| < TWO64
    ensures ReadBlob(Int64(|data|) + (data + rest)) == Got(data, rest)
  {
    Back64(|data|, data + rest);
    BackBytes(data, rest);
  }

  lemma {:induction false} BackGlobalData(data: seq<Byte>, compress: bool, rest: seq<Byte>)
    requires 0 < |data| < TWO64
    ensures var b := (if compress then Int64(|data|) else []) + (data + rest);
            (if compress then ReadBlob(b) else ReadBytes(b, |data|)) == Got(data, rest)
  {
    if compress {
      BackBlob(data, rest);
    } else {
      assert [] + (data + rest) == data + rest;
      BackBytes(data, rest);
    }
  }

  lemma {:induction false} BackReadGlobal(st: Snapshot, compress: bool, rest: seq<Byte>, body: seq<Byte>, st0: Snapshot)
    requires Sized(st)
    requires body == if st.global == [] then rest
                     else (if compress then Int64(|st.global|) else []) + (st.global + rest)
    ensures ReadGlobal(Int64(|st.global|) + (Int64(st.base) + body), compress, st0)
         == Got(st0.(global := st.global, base := st.base), rest)
  {
    Back64(|st.global|, Int64(st.base) + body);
    Back64(st.base, body);
    if st.global != [] {
      BackGlobalData(st.global, compress, rest);
    }
  }

  lemma {:induction false} BackGlobal(st: Snapshot, compress: bool, rest: seq<Byte>, st0: Snapshot)
    requires Sized(st)
    ensures ReadSections(GlobalSection(st, compress) + rest, compress, st0)
         == ReadSections(rest, compress, st0.(global := st.global, base := st.base))
  {
    var size := if compress then Int64(|st.global|) else [];
    var body := if st.global == [] then rest else size + (st.global + rest);
    var b1 := Int64(|st.global|) + (Int64(st.base) + body);
    GlobalShape(st, compress, rest, body);
    Back32(1, b1);
    BackReadGlobal(st, compress, rest, body, st0);
    ReadGlobalSection(GlobalSection(st, compress) + rest, b1, compress, st0,
                      st0.(global := st.global, base := st.base), rest);
  }

  lemma {:induction false} GlobalShape(st: Snapshot, compress: bool, rest: seq<Byte>, body: seq<Byte>)
    requires Sized(st)
    requires body == if st.global == [] then rest
                     else (if compress then Int64(|st.global|) else []) + (st.global + rest)
    ensures GlobalSection(st, compress) + rest == Int32(1) + (Int64(|st.global|) + (Int64(st.base) + body))
  {
    var size := if compress then Int64(|st.global|) else [];
    var data := if st.global == [] then [] else size + st.global;
    assert data + rest == body by {
      if st.global != [] {
        Regroup(size, st.global, rest);
      }
    }
    Nested(Int32(1), Int64(|st.global|), Int64(st.base), data, rest);
  }

  lemma {:induction false} Nested(a: seq<Byte>, b: seq<Byte>, c: seq<Byte>, d: seq<Byte>, e: seq<Byte>)
    ensures a + (b + (c + d)) + e == a + (b + (c + (d + e)))
  {
    Regroup(a, b + (c + d), e);
    Regroup(b, c + d, e);
    Regroup(c, d, e);
  }

  lemma {:induction false} ReadGlobalSection(b: seq<Byte>, b1: seq<Byte>, compress: bool, st0: Snapshot, st1: Snapshot,
                                             rest: seq<Byte>)
    requires Read32(b) == Got(1, b1) && ReadGlobal(b1, compress, st0) == Got(st1, rest)
    ensures ReadSections(b, compress, st0) == ReadSections(rest, compress, st1)
  {
  }

  lemma {:induction false} BackBlobSection(tag: U32, data: seq<Byte>, compress: bool, rest: seq<Byte>, st0: Snapshot)
    requires |data| < TWO64 && tag in {2, 3, 4}
    ensures ReadSections(BlobSection(tag, data) + rest, compress, st0)
         == ReadSections(rest, compress,
                         if tag == 2 then st0.(shared := data)
                         else if tag == 3 then st0.(original := data) else st0.(current := data))
  {
    var b1 := Int64(|data|) + (data + rest);
    assert BlobSection(tag, data) + rest == Int32(tag) + b1;
    Back32(tag, b1);
    BackBlob(data, rest);
  }

  lemma {:induction false} BackThreadSection(ts: seq<Thread>, compress: bool, rest: seq<Byte>, st0: Snapshot)
    requires |ts| < TWO64
    ensures ReadSections(ThreadSection(ts) + rest, compress, st0)
         == ReadSections(rest, compress, st0.(threads := ClipThreads(ts)))
  {
    var b2 := ThreadsBytes(ts) + rest;
    var b1 := Int64(|ts|) + b2;
    assert ThreadSection(ts) + rest == Int32(5) + b1;
    Back32(5, b1);
    Back64(|ts|, b2);
    BackThreads(ts, rest);
  }

  lemma {:induction false} BackName(st: Snapshot, rest: seq<Byte>, st0: Snapshot)
    ensures ReadName(NameBytes(st) + rest, st0)
         == Got(st0.(grid := st.grid, block := st.block, name := Clip(st.name)), rest)
  {
    var b3 := Clip(st.name) + rest;
    var b2 := Int32(Short32(|st.name|)) + b3;
    var b1 := DimBytes(st.block) + b2;
    NameShape(st, rest);
    BackDim(st.grid, b1);
    BackDim(st.block, b2);
    Back32(Short32(|st.name|), b3);
    BackBytes(Clip(st.name), rest);
    NameInParts(DimBytes(st.grid) + b1, st.grid, b1, st.block, b2, Short32(|st.name|), b3, Clip(st.name), rest, st0);
  }

  lemma {:induction false} NameInParts(b: seq<Byte>, grid: Dim, b1: seq<Byte>, block: Dim, b2: seq<Byte>, n: U32,
                                       b3: seq<Byte>, name: seq<Byte>, rest: seq<Byte>, st: Snapshot)
    requires ReadDim(b) == Got(grid, b1) && ReadDim(b1) == Got(block, b2) && Read32(b2) == Got(n, b3)
    requires ReadBytes(b3, n) == Got(name, rest)
    ensures ReadName(b, st) == Got(st.(grid := grid, block := block, name := name), rest)
  {
  }

  lemma {:induction false} NameShape(st: Snapshot, rest: seq<Byte>)
    ensures NameBytes(st) + rest
         == DimBytes(st.grid) + (DimBytes(st.block) + (Int32(Short32(|st.name|)) + (Clip(st.name) + rest)))
  {
  }

  lemma {:induction false} BackHeader(st: Snapshot, stamp: U64, compress: bool, rest: seq<Byte>, st0: Snapshot)
    ensures Parse(Header(st, stamp) + rest, compress, st0)
         == ReadSections(rest, compress, st0.(grid := st.grid, block := st.block, name := Clip(st.name)))
  {
    var b3 := NameBytes(st) + rest;
    var b2 := Int64(stamp) + b3;
    var b1 := Int32(VERSION) + b2;
    assert Header(st, stamp) + rest == Int32(MAGIC) + b1;
    Back32(MAGIC, b1);
    Back32(VERSION, b2);
    Back64(stamp, b3);
    BackName(st, rest, st0);
  }

  /** What the format can hold of a state: the name and the register lists, cut to their 32-bit lengths. */
  function Storable(st: Snapshot): Snapshot {
    st.(name := Clip(st.name), threads := ClipThreads(st.threads))
  }

  lemma {:induction false} FileShape(a: seq<Byte>, b: seq<Byte>, c: seq<Byte>, d: seq<Byte>, e: seq<Byte>, f: seq<Byte>,
                                     g: seq<Byte>, tail: seq<Byte>)
    ensures a + b + c + d + e + f + g + tail == a + (b + (c + (d + (e + (f + (g + tail))))))
  {
  }

  /** Loading any saved state with the same compression flag, into any state and with any bytes
      after the end marker, gives back what the format can hold of it. */
  lemma {:induction false} LoadAfterSave(st: Snapshot, compress: bool, stamp: U64, tail: seq<Byte>, st0: Snapshot)
    requires Sized(st)
    ensures Parse(File(st, compress, stamp) + tail, compress, st0) == Loaded(Storable(st))
  {
    var b5 := Int32(END_MARKER) + tail;
    var b4 := ThreadSection(st.threads) + b5;
    var b3 := BlobSection(4, st.current) + b4;
    var b2 := BlobSection(3, st.original) + b3;
    var b1 := BlobSection(2, st.shared) + b2;
    var b0 := GlobalSection(st, compress) + b1;
    FileShape(Header(st, stamp), GlobalSection(st, compress), BlobSection(2, st.shared), BlobSection(3, st.original),
              BlobSection(4, st.current), ThreadSection(st.threads), Int32(END_MARKER), tail);
    BackHeader(st, stamp, compress, b0, st0);
    var s0 := st0.(grid := st.grid, block := st.block, name := Clip(st.name));
    BackGlobal(st, compress, b1, s0);
    var s1 := s0.(global := st.global, base := st.base);
    BackBlobSection(2, st.shared, compress, b2, s1);
    var s2 := s1.(shared := st.shared);
    BackBlobSection(3, st.original, compress, b3, s2);
    var s3 := s2.(original := st.original);
    BackBlobSection(4, st.current, compress, b4, s3);
    var s4 := s3.(current := st.current);
    BackThreadSection(st.threads, compress, b5, s4);
    Back32(END_MARKER, tail);
  }

  /** The name's length and every register count fit in 32 bits. */
  ghost predicate Fits(st: Snapshot) {
    |st.name| < TWO32 && forall i | 0 <= i < |st.threads| :: |st.threads[i].registers| < TWO32
  }

  lemma {:induction false} ClipIsIdentityIff<T>(s: seq<T>)
    ensures Clip(s) == s <==> |s| < TWO32
  {
    if |s| < TWO32 {
      assert s[..|s|] == s;
    } else {
      assert |Clip(s)| < TWO32;
    }
  }

  lemma {:induction false} ClipThreadsIff(ts: seq<Thread>)
    ensures ClipThreads(ts) == ts <==> forall i | 0 <= i < |ts| :: |ts[i].registers| < TWO32
  {
    forall i | 0 <= i < |ts|
      ensures ClipThread(ts[i]) == ts[i] <==> |ts[i].registers| < TWO32
    {
      ClipIsIdentityIff(ts[i].registers);
    }
  }

  /** The round trip is exact if and only if the name and every register list fit their length fields. */
  lemma {:induction false} RoundTripIff(st: Snapshot, compress: bool, stamp: U64, tail: seq<Byte>, st0: Snapshot)
    requires Sized(st)
    ensures Parse(File(st, compress, stamp) + tail, compress, st0) == Loaded(st) <==> Fits(st)
  {
    LoadAfterSave(st, compress, stamp, tail, st0);
    ClipIsIdentityIff(st.name);
    ClipThreadsIff(st.threads);
  }
}
