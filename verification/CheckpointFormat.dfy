/** The checkpoint format in its bytes: what a file is, and that the loader accepts exactly the files and
    refuses all else for the right reason. */
module CheckpointFormat {
  import opened Common
  import opened Bytes
  import opened Checkpoint

  // ----- integers -----

  /** Four bytes, least significant first. */
  function Le32(v: U32): (b: seq<Byte>)
    ensures |b| == 4
  {
    [v % 0x100, v / 0x100 % 0x100, v / 0x1_0000 % 0x100, v / 0x100_0000 % 0x100]
  }

  function Le64(v: U64): (b: seq<Byte>)
    ensures |b| == 8
  {
    [v % 0x100, v / 0x100 % 0x100, v / 0x1_0000 % 0x100, v / 0x100_0000 % 0x100] + Le32(v / 0x1_0000_0000)
  }

  lemma {:induction false} DivTwice(v: nat, a: nat, q: nat)
    requires a > 0 && q == v / a
    ensures q / 256 == v / (a * 256)
  {
    var m := a * 256;
    DivMod(v, a);
    DivMod(q, 256);
    DivMod(v, m);
    var k, r := q / 256, q % 256 * a + v % a;
    assert v == k * 256 * a + r by {
      assert q * a == (k * 256 + q % 256) * a;
    }
    Product(q % 256, a);
    Swap(k, a);
    QuotientsAgree(k, v / m, m, r, v % m);
  }

  lemma {:induction false} Product(x: nat, a: nat)
    requires x < 256
    ensures x * a + a <= a * 256
  {
    MulGap(x, 256, a);
  }

  lemma {:induction false} Swap(k: nat, a: nat)
    ensures k * 256 * a == k * (a * 256)
  {
  }

  lemma {:induction false} QuotientsAgree(q: nat, k: nat, m: nat, r: nat, s: nat)
    requires q * m + r == k * m + s && r < m && s < m
    ensures q == k
  {
    if q < k {
      MulGap(q, k, m);
    } else if k < q {
      MulGap(k, q, m);
    }
  }

  lemma {:induction false} EncodeNext(v: nat, n: nat, a: nat, q: nat, m: nat, q': nat)
    requires n > 0 && a > 0 && m == a * 256 && q == v / a && q' == v / m
    ensures Encode(q, n) == [q % 256] + Encode(q', n - 1)
  {
    DivTwice(v, a, q);
  }

  lemma {:induction false} EncodeFour(v: nat, n: nat)
    ensures Encode(v, n + 4)
         == [v % 0x100, v / 0x100 % 0x100, v / 0x1_0000 % 0x100, v / 0x100_0000 % 0x100] + Encode(v / 0x1_0000_0000, n)
  {
    var q1, q2, q3, q4 := v / 0x100, v / 0x1_0000, v / 0x100_0000, v / 0x1_0000_0000;
    EncodeNext(v, n + 4, 1, v, 0x100, q1);
    EncodeNext(v, n + 3, 0x100, q1, 0x1_0000, q2);
    EncodeNext(v, n + 2, 0x1_0000, q2, 0x100_0000, q3);
    EncodeNext(v, n + 1, 0x100_0000, q3, 0x1_0000_0000, q4);
  }

  lemma {:induction false} Le32IsInt(v: U32)
    ensures Int32(v) == Le32(v)
  {
    EncodeFour(v, 0);
  }

  lemma {:induction false} Le64IsInt(v: U64)
    ensures Int64(v) == Le64(v)
  {
    EncodeFour(v, 4);
    Le32IsInt(v / 0x1_0000_0000);
  }

  lemma {:induction false} LowByte(x: Byte, d: nat)
    ensures (x + 256 * d) % 256 == x && (x + 256 * d) / 256 == d
  {
  }

  lemma {:induction false} EncodeDecode(b: seq<Byte>)
    ensures Encode(Decode(b), |b|) == b
  {
    if b != [] {
      EncodeDecode(b[1..]);
      LowByte(b[0], Decode(b[1..]));
      assert b == [b[0]] + b[1..];
    }
  }

  /** What is read of four bytes is the value whose bytes they are. */
  lemma {:induction false} Reads32(b: seq<Byte>, v: U32, rest: seq<Byte>)
    ensures Read32(b) == Got(v, rest) <==> b == Le32(v) + rest
  {
    Le32IsInt(v);
    if Read32(b) == Got(v, rest) {
      EncodeDecode(b[..4]);
      assert b == b[..4] + rest;
    }
    Back32(v, rest);
  }

  lemma {:induction false} Reads64(b: seq<Byte>, v: U64, rest: seq<Byte>)
    ensures Read64(b) == Got(v, rest) <==> b == Le64(v) + rest
  {
    Le64IsInt(v);
    if Read64(b) == Got(v, rest) {
      EncodeDecode(b[..8]);
      assert b == b[..8] + rest;
    }
    Back64(v, rest);
  }

  // ----- what a file is -----

  /** A section of a file.  A global section carries its size apart from its data: with compression the two
      may differ, and with size zero there is no data. */
  datatype Part =
    | Global(size: U64, base: U64, data: seq<Byte>)
    | Shared(data: seq<Byte>)
    | Original(data: seq<Byte>)
    | Current(data: seq<Byte>)
    | Threads(threads: seq<Thread>)

  function ListBytes(regs: seq<U32>): seq<Byte> {
    if regs == [] then [] else Le32(regs[0]) + ListBytes(regs[1..])
  }

  function OneThread(t: Thread): seq<Byte>
    requires |t.registers| < 0x1_0000_0000
  {
    Le32(|t.registers|) + (ListBytes(t.registers) + (Le32(t.pc) + Le32(t.sp)))
  }

  predicate ThreadsFit(ts: seq<Thread>) {
    forall t | t in ts :: |t.registers| < 0x1_0000_0000
  }

  function AllThreads(ts: seq<Thread>): seq<Byte>
    requires ThreadsFit(ts)
  {
    if ts == [] then [] else OneThread(ts[0]) + AllThreads(ts[1..])
  }

  /** The lengths fit their fields. */
  predicate PartFits(p: Part, compress: bool) {
    match p
    case Global(size, _, data) => if size == 0 then data == [] else |data| < TWO64 && (compress || |data| == size)
    case Threads(ts) => |ts| < TWO64 && ThreadsFit(ts)
    case _ => |p.data| < TWO64
  }

  /** A section: a four-byte tag, eight-byte sizes, then the data. */
  function PartBytes(p: Part, compress: bool): seq<Byte>
    requires PartFits(p, compress)
  {
    Le32(TagOf(p)) + Content(p, compress)
  }

  function TagOf(p: Part): U32 {
    match p
    case Global(_, _, _) => 1
    case Shared(_) => 2
    case Original(_) => 3
    case Current(_) => 4
    case Threads(_) => 5
  }

  function Content(p: Part, compress: bool): seq<Byte>
    requires PartFits(p, compress)
  {
    match p
    case Global(size, base, data) => Le64(size) + (Le64(base) + GlobalBytes(size, data, compress))
    case Threads(ts) => Le64(|ts|) + AllThreads(ts)
    case _ => Le64(|p.data|) + p.data
  }

  function GlobalBytes(size: U64, data: seq<Byte>, compress: bool): seq<Byte>
    requires |data| < TWO64
  {
    if size == 0 then [] else if compress then Le64(|data|) + data else data
  }

  predicate PartsFit(ps: seq<Part>, compress: bool) {
    forall p | p in ps :: PartFits(p, compress)
  }

  function PartsBytes(ps: seq<Part>, compress: bool): seq<Byte>
    requires PartsFit(ps, compress)
  {
    if ps == [] then [] else PartBytes(ps[0], compress) + PartsBytes(ps[1..], compress)
  }

  /** What a section sets. */
  function Put(p: Part, st: Snapshot): Snapshot {
    match p
    case Global(_, base, data) => st.(global := data, base := base)
    case Shared(data) => st.(shared := data)
    case Original(data) => st.(original := data)
    case Current(data) => st.(current := data)
    case Threads(ts) => st.(threads := ts)
  }

  function PutAll(ps: seq<Part>, st: Snapshot): Snapshot {
    if ps == [] then st else PutAll(ps[1..], Put(ps[0], st))
  }

  /** Magic number and version. */
  const SIGNATURE: seq<Byte> := [0x47, 0x4B, 0x50, 0x43, 1, 0, 0, 0]
  const END: seq<Byte> := [0xFF, 0xFF, 0xFF, 0xFF]

  datatype Head = Head(stamp: U64, grid: Dim, block: Dim, name: seq<Byte>)

  function HeadBytes(h: Head): seq<Byte>
    requires |h.name| < 0x1_0000_0000
  {
    SIGNATURE
    + (Le64(h.stamp)
       + (Le32(h.grid.x) + (Le32(h.grid.y) + (Le32(h.grid.z)
          + (Le32(h.block.x) + (Le32(h.block.y) + (Le32(h.block.z) + (Le32(|h.name|) + h.name))))))))
  }

  function PutHead(h: Head, st: Snapshot): Snapshot {
    st.(grid := h.grid, block := h.block, name := h.name)
  }

  // ----- threads -----

  lemma {:induction false} ListIs(regs: seq<U32>)
    ensures ListBytes(regs) == RegisterBytes(regs)
  {
    if regs != [] {
      Le32IsInt(regs[0]);
      ListIs(regs[1..]);
    }
  }

  lemma {:induction false} ThreadsAre(ts: seq<Thread>)
    requires ThreadsFit(ts)
    ensures AllThreads(ts) == ThreadsBytes(ts) && ClipThreads(ts) == ts
  {
    ClipThreadsIff(ts);
    if ts != [] {
      ThreadIs(ts[0]);
      ThreadsAre(ts[1..]);
    }
  }

  lemma {:induction false} ThreadIs(t: Thread)
    requires |t.registers| < 0x1_0000_0000
    ensures OneThread(t) == ThreadBytes(t)
  {
    Le32IsInt(|t.registers|);
    Le32IsInt(t.pc);
    Le32IsInt(t.sp);
    ListIs(t.registers);
    ClipIsIdentityIff(t.registers);
    assert Short32(|t.registers|) == |t.registers|;
    SameConcat(Le32(|t.registers|), Int32(|t.registers|), ListBytes(t.registers), RegisterBytes(t.registers),
               Le32(t.pc) + Le32(t.sp), Int32(t.pc) + Int32(t.sp));
  }

  lemma {:induction false} SameConcat(a: seq<Byte>, a': seq<Byte>, b: seq<Byte>, b': seq<Byte>, c: seq<Byte>,
                                      c': seq<Byte>)
    requires a == a' && b == b' && c == c'
    ensures a + (b + c) == a' + (b' + c')
  {
  }

  lemma {:induction false} RegistersRead(b: seq<Byte>, n: nat, regs: seq<U32>, rest: seq<Byte>)
    requires ReadRegisters(b, n) == Got(regs, rest)
    ensures |regs| == n && b == ListBytes(regs) + rest
    decreases n
  {
    if n == 0 {
      assert [] + b == b;
    } else {
      var first := Read32(b);
      var more := ReadRegisters(first.rest, n - 1);
      Reads32(b, first.value, first.rest);
      RegistersRead(first.rest, n - 1, more.value, rest);
      Regroup(Le32(first.value), ListBytes(more.value), rest);
      assert regs[1..] == more.value;
    }
  }

  lemma {:induction false} ThreadRead(b: seq<Byte>, t: Thread, rest: seq<Byte>)
    requires ReadThread(b) == Got(t, rest)
    ensures |t.registers| < 0x1_0000_0000 && b == OneThread(t) + rest
  {
    var n := Read32(b);
    var regs := ReadRegisters(n.rest, n.value);
    var pc := Read32(regs.rest);
    Reads32(b, n.value, n.rest);
    RegistersRead(n.rest, n.value, regs.value, regs.rest);
    Reads32(regs.rest, pc.value, pc.rest);
    Reads32(pc.rest, t.sp, rest);
    FourParts(Le32(n.value), ListBytes(regs.value), Le32(pc.value), Le32(t.sp), rest);
  }

  lemma {:induction false} FourParts(a: seq<Byte>, b: seq<Byte>, c: seq<Byte>, d: seq<Byte>, rest: seq<Byte>)
    ensures a + (b + (c + (d + rest))) == a + (b + (c + d)) + rest
  {
  }

  lemma {:induction false} ThreadsRead(b: seq<Byte>, n: nat, ts: seq<Thread>, rest: seq<Byte>)
    requires ReadThreads(b, n) == Got(ts, rest)
    ensures |ts| == n && ThreadsFit(ts) && b == AllThreads(ts) + rest
    decreases n
  {
    if n == 0 {
      assert [] + b == b;
    } else {
      var first := ReadThread(b);
      var more := ReadThreads(first.rest, n - 1);
      ThreadRead(b, first.value, first.rest);
      ThreadsRead(first.rest, n - 1, more.value, rest);
      assert ts == [first.value] + more.value && ts[1..] == more.value;
      Regroup(OneThread(first.value), AllThreads(more.value), rest);
    }
  }

  // ----- sections -----

  lemma {:induction false} BlobReads(b: seq<Byte>, data: seq<Byte>, rest: seq<Byte>)
    ensures ReadBlob(b) == Got(data, rest) <==> |data| < TWO64 && b == Le64(|data|) + (data + rest)
  {
    if ReadBlob(b) == Got(data, rest) {
      var n := Read64(b);
      Reads64(b, n.value, n.rest);
      assert n.rest == data + rest;
    }
    if |data| < TWO64 && b == Le64(|data|) + (data + rest) {
      Reads64(b, |data|, data + rest);
      BackBytes(data, rest);
    }
  }

  lemma {:induction false} GlobalReads(p: Part, compress: bool, rest: seq<Byte>, st: Snapshot)
    requires p.Global? && PartFits(p, compress)
    ensures ReadGlobal(Content(p, compress) + rest, compress, st) == Got(Put(p, st), rest)
  {
    var b2 := GlobalBytes(p.size, p.data, compress) + rest;
    var b1 := Le64(p.base) + b2;
    GlobalContent(p, compress, rest);
    Reads64(Le64(p.size) + b1, p.size, b1);
    Reads64(b1, p.base, b2);
    if p.size == 0 {
      assert b2 == rest;
    } else if compress {
      BlobReads(b2, p.data, rest);
    } else {
      BackBytes(p.data, rest);
    }
    GlobalInParts(Le64(p.size) + b1, p, b1, b2, compress, rest, st);
  }

  lemma {:induction false} GlobalInParts(b: seq<Byte>, p: Part, b1: seq<Byte>, b2: seq<Byte>, compress: bool,
                                         rest: seq<Byte>, st: Snapshot)
    requires p.Global? && Read64(b) == Got(p.size, b1) && Read64(b1) == Got(p.base, b2)
    requires if p.size == 0 then p.data == [] && b2 == rest
             else (if compress then ReadBlob(b2) else ReadBytes(b2, p.size)) == Got(p.data, rest)
    ensures ReadGlobal(b, compress, st) == Got(Put(p, st), rest)
  {
  }

  lemma {:induction false} ThreadsReads(ts: seq<Thread>, rest: seq<Byte>, b: seq<Byte>)
    requires |ts| < TWO64 && ThreadsFit(ts) && b == Le64(|ts|) + (AllThreads(ts) + rest)
    ensures Read64(b) == Got(|ts|, AllThreads(ts) + rest) && ReadThreads(AllThreads(ts) + rest, |ts|) == Got(ts, rest)
  {
    Reads64(b, |ts|, AllThreads(ts) + rest);
    ThreadsAre(ts);
    BackThreads(ts, rest);
  }

  /** A section is read back whatever follows it. */
  lemma {:induction false} PartReads(p: Part, compress: bool, rest: seq<Byte>, st: Snapshot)
    requires PartFits(p, compress)
    ensures ReadSection(TagOf(p), Content(p, compress) + rest, compress, st) == Known(Got(Put(p, st), rest))
  {
    if p.Global? {
      GlobalReads(p, compress, rest, st);
    } else if p.Threads? {
      Regroup(Le64(|p.threads|), AllThreads(p.threads), rest);
      ThreadsReads(p.threads, rest, Content(p, compress) + rest);
    } else {
      BlobPartReads(p, compress, rest, st);
    }
  }

  lemma {:induction false} BlobPartReads(p: Part, compress: bool, rest: seq<Byte>, st: Snapshot)
    requires p.Shared? || p.Original? || p.Current?
    requires PartFits(p, compress)
    ensures ReadSection(TagOf(p), Content(p, compress) + rest, compress, st) == Known(Got(Put(p, st), rest))
  {
    BlobContent(p, compress, rest);
    BlobReads(Content(p, compress) + rest, p.data, rest);
  }

  lemma {:induction false} GlobalRead(b: seq<Byte>, compress: bool, st: Snapshot, st': Snapshot, rest: seq<Byte>)
      returns (p: Part)
    requires ReadGlobal(b, compress, st) == Got(st', rest)
    ensures p.Global? && PartFits(p, compress) && b == Content(p, compress) + rest && st' == Put(p, st)
  {
    var n := Read64(b);
    var base := Read64(n.rest);
    Reads64(b, n.value, n.rest);
    Reads64(n.rest, base.value, base.rest);
    p := Global(n.value, base.value, st'.global);
    if n.value == 0 {
      assert base.rest == [] + rest;
    } else if compress {
      BlobReads(base.rest, p.data, rest);
    } else {
      assert base.rest == p.data + rest;
    }
    GlobalContent(p, compress, rest);
  }

  lemma {:induction false} GlobalContent(p: Part, compress: bool, rest: seq<Byte>)
    requires p.Global? && PartFits(p, compress)
    ensures Content(p, compress) + rest
         == Le64(p.size) + (Le64(p.base) + (GlobalBytes(p.size, p.data, compress) + rest))
    ensures p.size != 0 && compress ==>
              GlobalBytes(p.size, p.data, compress) + rest == Le64(|p.data|) + (p.data + rest)
  {
  }

  /** What is read as a section is one. */
  lemma {:induction false} SectionRead(tag: U32, b: seq<Byte>, compress: bool, st: Snapshot, st': Snapshot,
                                       rest: seq<Byte>) returns (p: Part)
    requires ReadSection(tag, b, compress, st) == Known(Got(st', rest))
    ensures PartFits(p, compress) && TagOf(p) == tag && b == Content(p, compress) + rest && st' == Put(p, st)
  {
    match tag
    case 1 => p := GlobalRead(b, compress, st, st', rest);
    case 2 => p := Shared(st'.shared); BlobReads(b, p.data, rest); BlobContent(p, compress, rest);
    case 3 => p := Original(st'.original); BlobReads(b, p.data, rest); BlobContent(p, compress, rest);
    case 4 => p := Current(st'.current); BlobReads(b, p.data, rest); BlobContent(p, compress, rest);
    case 5 => p := ThreadsSection(b, st'.threads, rest, compress);
  }

  lemma {:induction false} BlobContent(p: Part, compress: bool, rest: seq<Byte>)
    requires p.Shared? || p.Original? || p.Current?
    requires |p.data| < TWO64
    ensures Content(p, compress) + rest == Le64(|p.data|) + (p.data + rest)
  {
  }

  lemma {:induction false} ThreadsSection(b: seq<Byte>, ts: seq<Thread>, rest: seq<Byte>, compress: bool)
      returns (p: Part)
    requires Read64(b).Got? && ReadThreads(Read64(b).rest, Read64(b).value) == Got(ts, rest)
    ensures p == Threads(ts) && PartFits(p, compress) && b == Content(p, compress) + rest
  {
    var n := Read64(b);
    Reads64(b, n.value, n.rest);
    ThreadsRead(n.rest, n.value, ts, rest);
    p := Threads(ts);
    assert Content(p, compress) + rest == Le64(|ts|) + (AllThreads(ts) + rest);
  }

  // ----- the sections of a file -----

  lemma {:induction false} NextPart(p: Part, compress: bool, rest: seq<Byte>, st: Snapshot)
    requires PartFits(p, compress)
    ensures ReadSections(PartBytes(p, compress) + rest, compress, st) == ReadSections(rest, compress, Put(p, st))
  {
    var b1 := Content(p, compress) + rest;
    Regroup(Le32(TagOf(p)), Content(p, compress), rest);
    Reads32(PartBytes(p, compress) + rest, TagOf(p), b1);
    PartReads(p, compress, rest, st);
  }

  lemma {:induction false} PartsRead(ps: seq<Part>, compress: bool, rest: seq<Byte>, st: Snapshot)
    requires PartsFit(ps, compress)
    ensures ReadSections(PartsBytes(ps, compress) + rest, compress, st) == ReadSections(rest, compress, PutAll(ps, st))
    decreases |ps|
  {
    if ps == [] {
      assert PartsBytes(ps, compress) + rest == rest;
    } else {
      Regroup(PartBytes(ps[0], compress), PartsBytes(ps[1..], compress), rest);
      NextPart(ps[0], compress, PartsBytes(ps[1..], compress) + rest, st);
      PartsRead(ps[1..], compress, rest, Put(ps[0], st));
    }
  }

  /** The tag of no section, and not the end. */
  predicate Foreign(tag: U32) {
    tag !in {1, 2, 3, 4, 5} && tag != 0xFFFF_FFFF
  }

  lemma {:induction false} ForeignIff(tag: U32, b: seq<Byte>, compress: bool, st: Snapshot)
    requires tag != END_MARKER
    ensures ReadSection(tag, b, compress, st).Unknown? <==> Foreign(tag)
  {
  }

  /** What stands where reading the sections stops: the end marker, a foreign tag, or too little. */
  ghost predicate StopsAt(r: Loaded, rest: seq<Byte>, st: Snapshot) {
    match r
    case Loaded(last) => END <= rest && last == st
    case UnknownSection => exists tag: U32, tail :: Foreign(tag) && rest == Le32(tag) + tail
    case _ => true
  }

  lemma {:induction false} SectionsRead(b: seq<Byte>, compress: bool, st: Snapshot)
      returns (ps: seq<Part>, rest: seq<Byte>)
    ensures PartsFit(ps, compress) && b == PartsBytes(ps, compress) + rest
    ensures StopsAt(ReadSections(b, compress, st), rest, PutAll(ps, st))
    decreases |b|
  {
    var tag := Read32(b);
    ps, rest := [], b;
    assert b == [] + b;
    if tag.Got? {
      Reads32(b, tag.value, tag.rest);
      var section := ReadSection(tag.value, tag.rest, compress, st);
      if tag.value == END_MARKER {
        assert Le32(0xFFFF_FFFF) == END;
      } else if section.Known? && section.state.Got? {
        ps, rest := MoreSections(b, tag.value, tag.rest, compress, st, section.state.value, section.state.rest);
      } else {
        ForeignIff(tag.value, tag.rest, compress, st);
      }
    }
  }

  lemma {:induction false} MoreSections(b: seq<Byte>, tag: U32, b1: seq<Byte>, compress: bool, st: Snapshot,
                                        st': Snapshot, b2: seq<Byte>) returns (ps: seq<Part>, rest: seq<Byte>)
    requires b == Le32(tag) + b1 && tag != END_MARKER && Read32(b) == Got(tag, b1) && |b2| <= |b1|
    requires ReadSection(tag, b1, compress, st) == Known(Got(st', b2))
    ensures PartsFit(ps, compress) && b == PartsBytes(ps, compress) + rest
    ensures StopsAt(ReadSections(b, compress, st), rest, PutAll(ps, st))
    decreases |b|, 0
  {
    var p := SectionRead(tag, b1, compress, st, st', b2);
    var more;
    more, rest := SectionsRead(b2, compress, st');
    ps := [p] + more;
    assert ps[1..] == more;
    Regroup(Le32(tag), Content(p, compress), b2);
    Regroup(PartBytes(p, compress), PartsBytes(more, compress), rest);
  }

  // ----- the header -----

  lemma {:induction false} Signature()
    ensures SIGNATURE == Le32(MAGIC) + Le32(VERSION)
  {
  }

  lemma {:induction false} DimIs(d: Dim)
    ensures DimBytes(d) == Le32(d.x) + (Le32(d.y) + Le32(d.z))
  {
    Le32IsInt(d.x);
    Le32IsInt(d.y);
    Le32IsInt(d.z);
  }

  lemma {:induction false} HeadIs(h: Head, st: Snapshot)
    requires |h.name| < 0x1_0000_0000
    ensures HeadBytes(h) == Header(PutHead(h, st), h.stamp) && Clip(h.name) == h.name
  {
    ClipIsIdentityIff(h.name);
    assert Short32(|h.name|) == |h.name|;
    Signature();
    Le32IsInt(MAGIC);
    Le32IsInt(VERSION);
    Le64IsInt(h.stamp);
    DimIs(h.grid);
    DimIs(h.block);
    Le32IsInt(|h.name|);
    HeadShape(h);
  }

  lemma {:induction false} HeadShape(h: Head)
    requires |h.name| < 0x1_0000_0000
    ensures HeadBytes(h)
         == Le32(MAGIC) + (Le32(VERSION) + (Le64(h.stamp)
            + ((Le32(h.grid.x) + (Le32(h.grid.y) + Le32(h.grid.z)))
               + ((Le32(h.block.x) + (Le32(h.block.y) + Le32(h.block.z))) + (Le32(|h.name|) + h.name)))))
  {
    Signature();
  }

  lemma {:induction false} HeadReads(h: Head, compress: bool, rest: seq<Byte>, st: Snapshot)
    requires |h.name| < 0x1_0000_0000
    ensures Parse(HeadBytes(h) + rest, compress, st) == ReadSections(rest, compress, PutHead(h, st))
  {
    HeadIs(h, st);
    BackHeader(PutHead(h, st), h.stamp, compress, rest, st);
  }

  function DimThen(d: Dim, rest: seq<Byte>): seq<Byte> {
    Le32(d.x) + (Le32(d.y) + (Le32(d.z) + rest))
  }

  lemma {:induction false} DimRead(b: seq<Byte>, d: Dim, rest: seq<Byte>)
    requires ReadDim(b) == Got(d, rest)
    ensures b == DimThen(d, rest)
  {
    var x := Read32(b);
    var y := Read32(x.rest);
    Reads32(b, x.value, x.rest);
    Reads32(x.rest, y.value, y.rest);
    Reads32(y.rest, d.z, rest);
  }

  /** Dimensions and name as read are those in the bytes. */
  lemma {:induction false} NameRead(b: seq<Byte>, st: Snapshot, st': Snapshot, rest: seq<Byte>)
    requires ReadName(b, st) == Got(st', rest)
    ensures |st'.name| < 0x1_0000_0000 && st' == st.(grid := st'.grid, block := st'.block, name := st'.name)
    ensures b == DimThen(st'.grid, DimThen(st'.block, Le32(|st'.name|) + (st'.name + rest)))
  {
    var grid := ReadDim(b);
    var block := ReadDim(grid.rest);
    DimRead(b, st'.grid, grid.rest);
    DimRead(grid.rest, st'.block, block.rest);
    TextRead(block.rest, st'.name, rest);
  }

  lemma {:induction false} TextRead(b: seq<Byte>, name: seq<Byte>, rest: seq<Byte>)
    requires Read32(b).Got? && ReadBytes(Read32(b).rest, Read32(b).value) == Got(name, rest)
    ensures |name| < 0x1_0000_0000 && b == Le32(|name|) + (name + rest)
  {
    var n := Read32(b);
    Reads32(b, n.value, n.rest);
    assert n.rest == name + rest;
  }

  /** The first eight bytes decide between the two refusals and going on. */
  lemma {:induction false} SignatureRead(b: seq<Byte>, compress: bool, st: Snapshot)
    ensures Parse(b, compress, st) == BadMagic <==> |b| >= 8 && b[..4] != [0x47, 0x4B, 0x50, 0x43]
    ensures Parse(b, compress, st) == BadVersion
       <==> |b| >= 8 && b[..4] == [0x47, 0x4B, 0x50, 0x43] && b[4..8] != [1, 0, 0, 0]
  {
    if |b| >= 8 {
      var magic := Read32(b);
      var version := Read32(magic.rest);
      Reads32(b, magic.value, magic.rest);
      Reads32(magic.rest, version.value, version.rest);
      assert b[..4] == Le32(magic.value) && b[4..8] == Le32(version.value);
      SameInt(magic.value, MAGIC);
      SameInt(version.value, VERSION);
      SignatureBytes();
      NoRefusalLater(b, magic.value, version.value, version.rest, compress, st);
    }
  }

  lemma {:induction false} SignatureBytes()
    ensures Le32(MAGIC) == [0x47, 0x4B, 0x50, 0x43] && Le32(VERSION) == [1, 0, 0, 0]
  {
  }

  lemma {:induction false} SameInt(v: U32, w: U32)
    ensures v == w <==> Le32(v) == Le32(w)
  {
    Reads32(Le32(v) + [], v, []);
    Reads32(Le32(v) + [], w, []);
    assert Le32(v) + [] == Le32(v) && Le32(w) + [] == Le32(w);
  }

  lemma {:induction false} SectionsGoOn(b: seq<Byte>, compress: bool, st: Snapshot)
    ensures ReadSections(b, compress, st) != BadMagic && ReadSections(b, compress, st) != BadVersion
    decreases |b|
  {
    var tag := Read32(b);
    if tag.Got? && tag.value != END_MARKER {
      var section := ReadSection(tag.value, tag.rest, compress, st);
      if section.Known? && section.state.Got? {
        SectionsGoOn(section.state.rest, compress, section.state.value);
      }
    }
  }

  lemma {:induction false} NoRefusalLater(b: seq<Byte>, magic: U32, version: U32, b2: seq<Byte>, compress: bool,
                                          st: Snapshot)
    requires Read32(b).Got? && Read32(b).value == magic && Read32(Read32(b).rest) == Got(version, b2)
    ensures Parse(b, compress, st) == BadMagic <==> magic != MAGIC
    ensures Parse(b, compress, st) == BadVersion <==> magic == MAGIC && version != VERSION
  {
    if magic == MAGIC && version == VERSION {
      var stamp := Read64(b2);
      if stamp.Got? {
        var named := ReadName(stamp.rest, st);
        if named.Got? {
          SectionsGoOn(named.rest, compress, named.value);
        }
      }
    }
  }

  /** A file that gets as far as its sections starts with a header. */
  lemma {:induction false} HeadRead(b: seq<Byte>, compress: bool, st: Snapshot) returns (h: Head, rest: seq<Byte>)
    requires Parse(b, compress, st).Loaded? || Parse(b, compress, st).UnknownSection?
    ensures |h.name| < 0x1_0000_0000 && b == HeadBytes(h) + rest
    ensures Parse(b, compress, st) == ReadSections(rest, compress, PutHead(h, st))
  {
    var magic := Read32(b);
    var version := Read32(magic.rest);
    var stamp := Read64(version.rest);
    var named := ReadName(stamp.rest, st);
    Reads32(b, MAGIC, magic.rest);
    Reads32(magic.rest, VERSION, version.rest);
    Reads64(version.rest, stamp.value, stamp.rest);
    NameRead(stamp.rest, st, named.value, named.rest);
    h, rest := Head(stamp.value, named.value.grid, named.value.block, named.value.name), named.rest;
    Signature();
    HeadThenRest(h, rest);
  }

  lemma {:induction false} HeadThenRest(h: Head, rest: seq<Byte>)
    requires |h.name| < 0x1_0000_0000
    ensures HeadBytes(h) + rest
         == Le32(MAGIC) + (Le32(VERSION) + (Le64(h.stamp)
            + DimThen(h.grid, DimThen(h.block, Le32(|h.name|) + (h.name + rest)))))
  {
    Signature();
  }

  // ----- what the loader accepts -----

  /** Header, sections, end marker, and anything after it. */
  ghost predicate IsFile(b: seq<Byte>, compress: bool, h: Head, ps: seq<Part>, tail: seq<Byte>) {
    && |h.name| < 0x1_0000_0000 && PartsFit(ps, compress)
    && b == HeadBytes(h) + (PartsBytes(ps, compress) + (END + tail))
  }

  /** Header, sections, and then a tag of no section. */
  ghost predicate HasForeign(b: seq<Byte>, compress: bool, h: Head, ps: seq<Part>, tag: U32, tail: seq<Byte>) {
    && |h.name| < 0x1_0000_0000 && PartsFit(ps, compress) && Foreign(tag)
    && b == HeadBytes(h) + (PartsBytes(ps, compress) + (Le32(tag) + tail))
  }

  lemma {:induction false} FileLoads(b: seq<Byte>, compress: bool, h: Head, ps: seq<Part>, tail: seq<Byte>,
                                     st: Snapshot)
    requires IsFile(b, compress, h, ps, tail)
    ensures Parse(b, compress, st) == Loaded(PutAll(ps, PutHead(h, st)))
  {
    HeadReads(h, compress, PartsBytes(ps, compress) + (END + tail), st);
    PartsRead(ps, compress, END + tail, PutHead(h, st));
    EndReads(tail, compress, PutAll(ps, PutHead(h, st)));
  }

  lemma {:induction false} EndReads(tail: seq<Byte>, compress: bool, st: Snapshot)
    ensures ReadSections(END + tail, compress, st) == Loaded(st)
  {
    assert Le32(0xFFFF_FFFF) == END;
    Reads32(END + tail, 0xFFFF_FFFF, tail);
  }

  lemma {:induction false} AfterEnd(b: seq<Byte>)
    requires END <= b
    ensures b == END + b[4..]
  {
  }

  lemma {:induction false} ForeignIsRefused(b: seq<Byte>, compress: bool, h: Head, ps: seq<Part>, tag: U32,
                                            tail: seq<Byte>, st: Snapshot)
    requires HasForeign(b, compress, h, ps, tag, tail)
    ensures Parse(b, compress, st) == UnknownSection
  {
    HeadReads(h, compress, PartsBytes(ps, compress) + (Le32(tag) + tail), st);
    PartsRead(ps, compress, Le32(tag) + tail, PutHead(h, st));
    Reads32(Le32(tag) + tail, tag, tail);
    ForeignIff(tag, tail, compress, PutAll(ps, PutHead(h, st)));
  }

  /** The loader accepts exactly the files, and what it returns is what their sections set, each over the
      ones before it and over the state loaded into. */
  lemma {:induction false} LoadedIff(b: seq<Byte>, compress: bool, into: Snapshot, st: Snapshot)
    ensures Parse(b, compress, into) == Loaded(st)
       <==> exists h, ps, tail :: IsFile(b, compress, h, ps, tail) && st == PutAll(ps, PutHead(h, into))
  {
    if Parse(b, compress, into) == Loaded(st) {
      var h, rest := HeadRead(b, compress, into);
      var ps, more := SectionsRead(rest, compress, PutHead(h, into));
      AfterEnd(more);
      assert IsFile(b, compress, h, ps, more[4..]);
    }
    if h, ps, tail :| IsFile(b, compress, h, ps, tail) && st == PutAll(ps, PutHead(h, into)) {
      FileLoads(b, compress, h, ps, tail, into);
    }
  }

  /** It refuses a section exactly when, after well-formed ones, the next tag is foreign. */
  lemma {:induction false} UnknownIff(b: seq<Byte>, compress: bool, into: Snapshot)
    ensures Parse(b, compress, into) == UnknownSection
       <==> exists h, ps, tag: U32, tail :: HasForeign(b, compress, h, ps, tag, tail)
  {
    if Parse(b, compress, into) == UnknownSection {
      var h, rest := HeadRead(b, compress, into);
      var ps, more := SectionsRead(rest, compress, PutHead(h, into));
      var tag: U32, tail :| Foreign(tag) && more == Le32(tag) + tail;
      assert HasForeign(b, compress, h, ps, tag, tail);
    }
    if h, ps, tag: U32, tail :| HasForeign(b, compress, h, ps, tag, tail) {
      ForeignIsRefused(b, compress, h, ps, tag, tail, into);
    }
  }

  // ----- what the writer writes -----

  function HeadOf(st: Snapshot, stamp: U64): (h: Head)
    ensures |h.name| < 0x1_0000_0000
  {
    Head(stamp, st.grid, st.block, st.name[..|st.name| % 0x1_0000_0000])
  }

  function PartsOf(st: Snapshot): seq<Part>
    requires Sized(st)
  {
    [Global(|st.global|, st.base, st.global)]
    + ([Shared(st.shared)] + ([Original(st.original)] + ([Current(st.current)] + [Threads(ClipThreads(st.threads))])))
  }

  lemma {:induction false} ClippedFit(ts: seq<Thread>)
    ensures ThreadsFit(ClipThreads(ts)) && ThreadsBytes(ClipThreads(ts)) == ThreadsBytes(ts)
    decreases |ts|
  {
    if ts != [] {
      ClippedFit(ts[1..]);
      ClipCons(ts);
      ClippedThread(ts[0]);
      assert ClipThreads(ts)[1..] == ClipThreads(ts[1..]);
    }
  }

  lemma {:induction false} ClippedThread(t: Thread)
    ensures |ClipThread(t).registers| < 0x1_0000_0000 && ThreadBytes(ClipThread(t)) == ThreadBytes(t)
  {
    var c := ClipThread(t);
    ClipIsIdentityIff(c.registers);
    assert Short32(|c.registers|) == |c.registers| == Short32(|t.registers|);
  }

  lemma {:induction false} BlobIs(p: Part, compress: bool)
    requires p.Shared? || p.Original? || p.Current?
    requires PartFits(p, compress)
    ensures PartBytes(p, compress) == BlobSection(TagOf(p), p.data)
  {
    Le32IsInt(TagOf(p));
    Le64IsInt(|p.data|);
  }

  lemma {:induction false} GlobalIs(st: Snapshot, compress: bool)
    requires Sized(st)
    ensures PartFits(Global(|st.global|, st.base, st.global), compress)
    ensures PartBytes(Global(|st.global|, st.base, st.global), compress) == GlobalSection(st, compress)
  {
    Le32IsInt(1);
    Le64IsInt(|st.global|);
    Le64IsInt(st.base);
    var data := if st.global == [] then [] else (if compress then Int64(|st.global|) else []) + st.global;
    GlobalDataIs(|st.global|, st.global, compress);
    SameConcat(Le32(1), Int32(1), Le64(|st.global|), Int64(|st.global|), Le64(st.base) + data, Int64(st.base) + data);
  }

  lemma {:induction false} GlobalDataIs(size: U64, data: seq<Byte>, compress: bool)
    requires size == |data|
    ensures GlobalBytes(size, data, compress)
         == if data == [] then [] else (if compress then Int64(size) else []) + data
  {
    Le64IsInt(size);
    if data != [] && !compress {
      assert [] + data == data;
    }
  }

  lemma {:induction false} ThreadSectionIs(ts: seq<Thread>, compress: bool)
    requires |ts| < TWO64
    ensures PartFits(Threads(ClipThreads(ts)), compress)
    ensures PartBytes(Threads(ClipThreads(ts)), compress) == ThreadSection(ts)
  {
    ClippedFit(ts);
    ThreadsAre(ClipThreads(ts));
    Le32IsInt(5);
    Le64IsInt(|ts|);
  }

  lemma {:induction false} PartsCons(p: Part, ps: seq<Part>, compress: bool)
    requires PartFits(p, compress) && PartsFit(ps, compress)
    ensures PartsFit([p] + ps, compress)
    ensures PartsBytes([p] + ps, compress) == PartBytes(p, compress) + PartsBytes(ps, compress)
  {
    assert ([p] + ps)[1..] == ps;
  }

  lemma {:induction false} FiveParts(a: Part, b: Part, c: Part, d: Part, e: Part, compress: bool)
    requires PartFits(a, compress) && PartFits(b, compress) && PartFits(c, compress) && PartFits(d, compress)
    requires PartFits(e, compress)
    ensures PartsFit([a] + ([b] + ([c] + ([d] + [e]))), compress)
    ensures PartsBytes([a] + ([b] + ([c] + ([d] + [e]))), compress)
         == PartBytes(a, compress) + (PartBytes(b, compress) + (PartBytes(c, compress)
            + (PartBytes(d, compress) + PartBytes(e, compress))))
  {
    OnePart(e, compress);
    PartsCons(d, [e], compress);
    PartsCons(c, [d] + [e], compress);
    PartsCons(b, [c] + ([d] + [e]), compress);
    PartsCons(a, [b] + ([c] + ([d] + [e])), compress);
  }

  lemma {:induction false} OnePart(p: Part, compress: bool)
    requires PartFits(p, compress)
    ensures PartsFit([p], compress) && PartsBytes([p], compress) == PartBytes(p, compress)
  {
    assert [p][1..] == [];
    assert PartBytes(p, compress) + [] == PartBytes(p, compress);
  }

  /** The writer writes the file of the state's own sections, in this order. */
  lemma {:induction false} SavedIsFile(st: Snapshot, compress: bool, stamp: U64)
    requires Sized(st)
    ensures IsFile(File(st, compress, stamp), compress, HeadOf(st, stamp), PartsOf(st), [])
  {
    var ps, a, b, c, d, e, f, g := Written(st, compress, stamp);
    Assemble(File(st, compress, stamp), compress, HeadOf(st, stamp), ps, a, b, c, d, e, f, g);
  }

  lemma {:induction false} Written(st: Snapshot, compress: bool, stamp: U64)
      returns (ps: seq<Part>, a: seq<Byte>, b: seq<Byte>, c: seq<Byte>, d: seq<Byte>, e: seq<Byte>, f: seq<Byte>,
               g: seq<Byte>)
    requires Sized(st)
    ensures ps == PartsOf(st) && PartsFit(ps, compress) && PartsBytes(ps, compress) == b + (c + (d + (e + f)))
    ensures HeadBytes(HeadOf(st, stamp)) == a && END == g
    ensures File(st, compress, stamp) == a + b + c + d + e + f + g
  {
    ps := PartsOf(st);
    SectionsAre(st, compress);
    HeadWritten(st, stamp);
    EndIs();
    a, b, c := Header(st, stamp), GlobalSection(st, compress), BlobSection(2, st.shared);
    d, e, f := BlobSection(3, st.original), BlobSection(4, st.current), ThreadSection(st.threads);
    g := Int32(END_MARKER);
    FileIs(st, compress, stamp);
  }

  lemma {:induction false} FileIs(st: Snapshot, compress: bool, stamp: U64)
    requires Sized(st)
    ensures File(st, compress, stamp)
         == Header(st, stamp) + GlobalSection(st, compress) + BlobSection(2, st.shared) + BlobSection(3, st.original)
            + BlobSection(4, st.current) + ThreadSection(st.threads) + Int32(END_MARKER)
  {
  }

  lemma {:induction false} EndIs()
    ensures END == Int32(END_MARKER)
  {
    Le32IsInt(END_MARKER);
  }

  lemma {:induction false} SectionsAre(st: Snapshot, compress: bool)
    requires Sized(st)
    ensures PartsFit(PartsOf(st), compress)
    ensures PartsBytes(PartsOf(st), compress)
         == GlobalSection(st, compress) + (BlobSection(2, st.shared) + (BlobSection(3, st.original)
            + (BlobSection(4, st.current) + ThreadSection(st.threads))))
  {
    GlobalIs(st, compress);
    BlobIs(Shared(st.shared), compress);
    BlobIs(Original(st.original), compress);
    BlobIs(Current(st.current), compress);
    ThreadSectionIs(st.threads, compress);
    FiveParts(Global(|st.global|, st.base, st.global), Shared(st.shared), Original(st.original), Current(st.current),
              Threads(ClipThreads(st.threads)), compress);
  }

  lemma {:induction false} Assemble(file: seq<Byte>, compress: bool, h: Head, ps: seq<Part>, a: seq<Byte>, b: seq<Byte>,
                                    c: seq<Byte>, d: seq<Byte>, e: seq<Byte>, f: seq<Byte>, g: seq<Byte>)
    requires |h.name| < 0x1_0000_0000 && PartsFit(ps, compress) && file == a + b + c + d + e + f + g
    requires HeadBytes(h) == a && PartsBytes(ps, compress) == b + (c + (d + (e + f))) && END == g
    ensures IsFile(file, compress, h, ps, [])
  {
    Grouped(a, b, c, d, e, f, g);
  }

  lemma {:induction false} Grouped(a: seq<Byte>, b: seq<Byte>, c: seq<Byte>, d: seq<Byte>, e: seq<Byte>, f: seq<Byte>,
                                   g: seq<Byte>)
    ensures a + b + c + d + e + f + g == a + ((b + (c + (d + (e + f)))) + (g + []))
  {
  }

  lemma {:induction false} HeadWritten(st: Snapshot, stamp: U64)
    ensures HeadBytes(HeadOf(st, stamp)) == Header(st, stamp)
  {
    var h := HeadOf(st, stamp);
    HeadIs(h, st);
    ClipTwice(st.name);
    SameHeader(PutHead(h, st), st, stamp);
  }

  lemma {:induction false} ClipTwice(s: seq<Byte>)
    ensures var c := s[..|s| % 0x1_0000_0000]; Short32(|c|) == Short32(|s|) && Clip(c) == Clip(s)
  {
  }

  lemma {:induction false} SameHeader(a: Snapshot, b: Snapshot, stamp: U64)
    requires a.grid == b.grid && a.block == b.block && Short32(|a.name|) == Short32(|b.name|)
    requires Clip(a.name) == Clip(b.name)
    ensures Header(a, stamp) == Header(b, stamp)
  {
  }

  /** Magic number and version, then the time, the dimensions and the name's length at their offsets. */
  predicate LaidOut(b: seq<Byte>, stamp: U64, grid: Dim, block: Dim, nameLength: U32) {
    && |b| >= 44 && b[..8] == [0x47, 0x4B, 0x50, 0x43, 1, 0, 0, 0] && b[8..16] == Le64(stamp)
    && b[16..20] == Le32(grid.x) && b[20..24] == Le32(grid.y) && b[24..28] == Le32(grid.z)
    && b[28..32] == Le32(block.x) && b[32..36] == Le32(block.y) && b[36..40] == Le32(block.z)
    && b[40..44] == Le32(nameLength)
  }

  /** The fixed part of a file, byte by byte. */
  lemma {:induction false} FileLayout(b: seq<Byte>, compress: bool, h: Head, ps: seq<Part>, tail: seq<Byte>)
    requires IsFile(b, compress, h, ps, tail)
    ensures LaidOut(b, h.stamp, h.grid, h.block, |h.name|)
  {
    HeadLayout(h, PartsBytes(ps, compress) + (END + tail), b);
  }

  lemma {:induction false} HeadLayout(h: Head, rest: seq<Byte>, b: seq<Byte>)
    requires |h.name| < 0x1_0000_0000 && b == HeadBytes(h) + rest
    ensures LaidOut(b, h.stamp, h.grid, h.block, |h.name|)
  {
  }
}
