/** The copy loops that move key and value bytes into the mailbox: four bytes per
    turn, then a remainder loop, over one flat byte memory in place. */
module PayloadCopy {

  type Byte = bv8

  /** The plain loop: one byte at a time, lowest address first. */
  function ByteCopy(m: seq<Byte>, dst: nat, src: nat, n: nat): (r: seq<Byte>)
    requires dst + n <= |m| && src + n <= |m|
    ensures |r| == |m|
  {
    if n == 0 then m
    else
      var before := ByteCopy(m, dst, src, n - 1);
      before[dst + n - 1 := before[src + n - 1]]
  }

  /** One `ld.u8`/`st.u8` pair. */
  method MoveByte(mem: array<Byte>, to: nat, from: nat)
    requires to < mem.Length && from < mem.Length
    modifies mem
    ensures mem[..] == old(mem[..])[to := old(mem[from])]
  {
    mem[to] := mem[from];
  }

  /** One pair of an unrolled turn, against the plain loop. */
  method MoveNext(mem: array<Byte>, dst: nat, src: nat, done: nat, ghost was: seq<Byte>)
    requires |was| == mem.Length && dst + done < mem.Length && src + done < mem.Length
    requires mem[..] == ByteCopy(was, dst, src, done)
    modifies mem
    ensures mem[..] == ByteCopy(was, dst, src, done + 1)
  {
    MoveByte(mem, dst + done, src + done);
  }

  method MoveTwo(mem: array<Byte>, dst: nat, src: nat, done: nat, ghost was: seq<Byte>)
    requires |was| == mem.Length && dst + done + 2 <= mem.Length && src + done + 2 <= mem.Length
    requires mem[..] == ByteCopy(was, dst, src, done)
    modifies mem
    ensures mem[..] == ByteCopy(was, dst, src, done + 2)
  {
    MoveNext(mem, dst, src, done, was);
    MoveNext(mem, dst, src, done + 1, was);
  }

  /** The unrolled loop: from turn `0` to `limit`, a multiple of four. */
  method CopyFours(mem: array<Byte>, dst: nat, src: nat, limit: nat)
    requires limit % 4 == 0 && dst + limit <= mem.Length && src + limit <= mem.Length
    modifies mem
    ensures mem[..] == ByteCopy(old(mem[..]), dst, src, limit)
  {
    ghost var was := mem[..];
    var done := 0;
    while done != limit
      invariant 0 <= done <= limit && done % 4 == 0
      invariant mem[..] == ByteCopy(was, dst, src, done)
      decreases limit - done
    {
      MoveTwo(mem, dst, src, done, was);
      MoveTwo(mem, dst, src, done + 2, was);
      done := done + 4;
    }
  }

  /** The remainder loop: the last `count` bytes after `done`. */
  method CopyRest(mem: array<Byte>, dst: nat, src: nat, done: nat, count: nat, ghost was: seq<Byte>)
    requires |was| == mem.Length
    requires dst + done + count <= mem.Length && src + done + count <= mem.Length
    requires mem[..] == ByteCopy(was, dst, src, done)
    modifies mem
    ensures mem[..] == ByteCopy(was, dst, src, done + count)
  {
    var to, from, left := dst + done, src + done, count;
    while left != 0
      invariant 0 <= left <= count
      invariant to == dst + done + count - left && from == src + done + count - left
      invariant mem[..] == ByteCopy(was, dst, src, done + count - left)
    {
      MoveByte(mem, to, from);
      to, from, left := to + 1, from + 1, left - 1;
    }
  }

  /** How much a signed 32-bit size copies; below one, nothing. */
  function Length(size: int): nat {
    if size < 1 then 0 else size
  }

  /** `size` is the signed 32-bit size of the map's key or value. */
  method CopyUnrolled(mem: array<Byte>, dst: nat, src: nat, size: int)
    requires dst + Length(size) <= mem.Length && src + Length(size) <= mem.Length
    modifies mem
    ensures mem[..] == ByteCopy(old(mem[..]), dst, src, Length(size))
  {
    ghost var was := mem[..];
    if size < 1 {
      return;
    }
    var left := size % 4;
    var done := 0;
    if size >= 4 {
      done := size - size % 4;
      CopyFours(mem, dst, src, done);
    }
    if left != 0 {
      CopyRest(mem, dst, src, done, left, was);
    }
  }

  /** The destination holds what the source held before the copy. */
  ghost predicate Exact(m: seq<Byte>, dst: nat, src: nat, n: nat)
    requires dst + n <= |m| && src + n <= |m|
  {
    ByteCopy(m, dst, src, n)[dst..dst + n] == m[src..src + n]
  }

  lemma {:induction false} CopyFrame(m: seq<Byte>, dst: nat, src: nat, n: nat, a: nat)
    requires dst + n <= |m| && src + n <= |m| && a < |m|
    requires !(dst <= a < dst + n)
    ensures ByteCopy(m, dst, src, n)[a] == m[a]
  {
    if n > 0 {
      CopyFrame(m, dst, src, n - 1, a);
    }
  }

  lemma {:induction false} CopyExact(m: seq<Byte>, dst: nat, src: nat, n: nat)
    requires dst + n <= |m| && src + n <= |m|
    requires dst <= src || src + n <= dst
    ensures Exact(m, dst, src, n)
  {
    var r, was := ByteCopy(m, dst, src, n)[dst..dst + n], m[src..src + n];
    forall k | 0 <= k < n
      ensures r[k] == was[k]
    {
      CopyExactAt(m, dst, src, n, k);
    }
  }

  lemma {:induction false} CopyExactAt(m: seq<Byte>, dst: nat, src: nat, n: nat, k: nat)
    requires dst + n <= |m| && src + n <= |m| && k < n
    requires dst <= src || src + n <= dst
    ensures ByteCopy(m, dst, src, n)[dst + k] == m[src + k]
    decreases n
  {
    if k < n - 1 {
      CopyExactAt(m, dst, src, n - 1, k);
    } else {
      CopyFrame(m, dst, src, n - 1, src + k);
    }
  }

  /** An overlapping copy whose destination starts inside the source repeats its first byte. */
  lemma {:induction false} OverlapSpoils(len: nat, dst: nat, src: nat, n: nat) returns (m: seq<Byte>)
    requires dst + n <= len && src + n <= len && src < dst < src + n
    ensures |m| == len && !Exact(m, dst, src, n)
  {
    m := seq(len, i => if i == src then 1 else 0);
    var d := dst - src;
    Prefix(m, dst, src, d + 1, n, dst + d);
    Prefix(m, dst, src, 1, d, dst);
    assert ByteCopy(m, dst, src, n)[dst..dst + n][d] == 1;
    assert m[src..src + n][d] == 0;
  }

  /** Later turns leave already written destination bytes alone. */
  lemma {:induction false} Prefix(m: seq<Byte>, dst: nat, src: nat, i: nat, n: nat, a: nat)
    requires dst + n <= |m| && src + n <= |m| && i <= n && dst <= a < dst + i
    ensures ByteCopy(m, dst, src, n)[a] == ByteCopy(m, dst, src, i)[a]
    decreases n
  {
    if i < n {
      Prefix(m, dst, src, i, n - 1, a);
    }
  }

  /** The unrolled loop copies exactly, whatever the bytes, if and only if the
      destination does not start inside the source. */
  lemma {:induction false} CopyIsExactIff(len: nat, dst: nat, src: nat, n: nat)
    requires dst + n <= len && src + n <= len
    ensures (forall m: seq<Byte> | |m| == len :: Exact(m, dst, src, n)) <==> (dst <= src || src + n <= dst)
  {
    if dst <= src || src + n <= dst {
      forall m: seq<Byte> | |m| == len
        ensures Exact(m, dst, src, n)
      {
        CopyExact(m, dst, src, n);
      }
    } else {
      var m := OverlapSpoils(len, dst, src, n);
    }
  }

  // ----- the mailbox layout -----

  datatype Field = Flag1 | Flag2 | Occupy | RequestId | MapId | Key | Value | UpdateFlags | Response

  const FIELD_BYTES: nat := 0x4000_0000  // 1 << 30

  /** Offsets as the PTX writes them: 24, 1073741848, 2147483672 and 2147483680 past `constData`. */
  function Offset(f: Field): nat {
    match f
    case Flag1 => 0
    case Flag2 => 4
    case Occupy => 8
    case RequestId => 12
    case MapId => 16
    case Key => 24
    case Value => 1073741848
    case UpdateFlags => 2147483672
    case Response => 2147483680
  }

  function Size(f: Field): nat {
    match f
    case Flag1 => 4
    case Flag2 => 4
    case Occupy => 4
    case RequestId => 4
    case MapId => 8
    case Key => FIELD_BYTES
    case Value => FIELD_BYTES
    case UpdateFlags => 8
    case Response => 8
  }

  const MAILBOX_BYTES: nat := 2147483688

  function Bytes(m: seq<Byte>, base: nat, f: Field): seq<Byte>
    requires base + MAILBOX_BYTES <= |m|
  {
    m[base + Offset(f)..base + Offset(f) + Size(f)]
  }

  /** A buffer of device memory that lies outside the mailbox. */
  predicate Outside(base: nat, len: nat, at: nat, size: nat) {
    at + size <= base || (base + MAILBOX_BYTES <= at && at + size <= len)
  }

  /** Both payload fields start with the given bytes and every other field, and all memory
      outside the mailbox, is as before. */
  ghost predicate Filled(m: seq<Byte>, m': seq<Byte>, base: nat, key: nat, keySize: nat, value: nat, valueSize: nat)
    requires |m| == |m'| && base + MAILBOX_BYTES <= |m| && keySize <= FIELD_BYTES && valueSize <= FIELD_BYTES
    requires Outside(base, |m|, key, keySize) && Outside(base, |m|, value, valueSize)
  {
    && Bytes(m', base, Key)[..keySize] == m[key..key + keySize]
    && Bytes(m', base, Value)[..valueSize] == m[value..value + valueSize]
    && (forall f | f != Key && f != Value :: Bytes(m', base, f) == Bytes(m, base, f))
    && m'[..base] == m[..base]
    && m'[base + MAILBOX_BYTES..] == m[base + MAILBOX_BYTES..]
  }

  /** Helper 2 fills the key and value fields from device memory outside the mailbox. */
  method FillUpdate(mem: array<Byte>, base: nat, key: nat, keySize: int, value: nat, valueSize: int)
    requires base + MAILBOX_BYTES <= mem.Length
    requires keySize <= FIELD_BYTES && valueSize <= FIELD_BYTES
    requires Outside(base, mem.Length, key, Length(keySize)) && Outside(base, mem.Length, value, Length(valueSize))
    modifies mem
    ensures Filled(old(mem[..]), mem[..], base, key, Length(keySize), value, Length(valueSize))
  {
    ghost var m0 := mem[..];
    CopyUnrolled(mem, base + Offset(Key), key, keySize);
    ghost var m1 := mem[..];
    CopyUnrolled(mem, base + Offset(Value), value, valueSize);
    CopiesFill(m0, m1, mem[..], base, key, Length(keySize), value, Length(valueSize));
  }

  /** What that says of the addresses: the key is at offset 24, the value at offset 1073741848. */
  lemma {:induction false} FilledAt(m: seq<Byte>, m': seq<Byte>, base: nat, key: nat, keySize: nat, value: nat,
                                    valueSize: nat)
    requires |m| == |m'| && base + 2147483688 <= |m| && keySize <= 0x4000_0000 && valueSize <= 0x4000_0000
    requires Outside(base, |m|, key, keySize) && Outside(base, |m|, value, valueSize)
    requires Filled(m, m', base, key, keySize, value, valueSize)
    ensures m'[base + 24..base + 24 + keySize] == m[key..key + keySize]
    ensures m'[base + 1073741848..base + 1073741848 + valueSize] == m[value..value + valueSize]
  {
    SliceStart(m', base + 24, 0x4000_0000, keySize);
    SliceStart(m', base + 1073741848, 0x4000_0000, valueSize);
  }

  lemma {:induction false} SliceStart(m: seq<Byte>, lo: nat, size: nat, n: nat)
    requires lo + size <= |m| && n <= size
    ensures m[lo..lo + size][..n] == m[lo..lo + n]
  {
  }

  lemma {:induction false} CopiesFill(m0: seq<Byte>, m1: seq<Byte>, m2: seq<Byte>, base: nat, key: nat, keySize: nat,
                                      value: nat, valueSize: nat)
    requires base + MAILBOX_BYTES <= |m0| == |m1| == |m2|
    requires keySize <= FIELD_BYTES && valueSize <= FIELD_BYTES
    requires Outside(base, |m0|, key, keySize) && Outside(base, |m0|, value, valueSize)
    requires m1 == ByteCopy(m0, base + Offset(Key), key, keySize)
    requires m2 == ByteCopy(m1, base + Offset(Value), value, valueSize)
    ensures Filled(m0, m2, base, key, keySize, value, valueSize)
  {
    var d1, d2 := base + Offset(Key), base + Offset(Value);
    TwoCopies(m0, m1, m2, d1, key, keySize, d2, value, valueSize);
    FieldsFilled(m0, m2, base, d1, key, keySize, d2, value, valueSize);
  }

  /** Bytes outside the two written stretches are as they were. */
  ghost predicate SameOutside(m: seq<Byte>, m': seq<Byte>, d1: nat, n1: nat, d2: nat, n2: nat)
    requires |m| == |m'|
  {
    forall a | 0 <= a < |m| && !(d1 <= a < d1 + n1) && !(d2 <= a < d2 + n2) :: m'[a] == m[a]
  }

  /** Where the PTX and the host's structure have the fields. */
  lemma {:induction false} FieldsAreAt(m: seq<Byte>, base: nat)
    requires base + 2147483688 <= |m|
    ensures Bytes(m, base, Flag1) == m[base..base + 4] && Bytes(m, base, Flag2) == m[base + 4..base + 8]
    ensures Bytes(m, base, Occupy) == m[base + 8..base + 12] && Bytes(m, base, RequestId) == m[base + 12..base + 16]
    ensures Bytes(m, base, MapId) == m[base + 16..base + 24]
    ensures Bytes(m, base, UpdateFlags) == m[base + 2147483672..base + 2147483680]
    ensures Bytes(m, base, Response) == m[base + 2147483680..base + 2147483688]
  {
  }

  /** The control fields and the response lie before the key field or past the value field. */
  lemma {:induction false} ControlFieldsAreClear(f: Field)
    requires f != Key && f != Value
    ensures Offset(f) + Size(f) <= Offset(Key) || Offset(Value) + FIELD_BYTES <= Offset(f)
    ensures Offset(f) + Size(f) <= MAILBOX_BYTES
  {
  }

  lemma {:induction false} FieldsFilled(m0: seq<Byte>, m2: seq<Byte>, base: nat, d1: nat, key: nat, keySize: nat,
                                        d2: nat, value: nat, valueSize: nat)
    requires |m0| == |m2| && base + MAILBOX_BYTES <= |m0|
    requires keySize <= FIELD_BYTES && valueSize <= FIELD_BYTES
    requires Outside(base, |m0|, key, keySize) && Outside(base, |m0|, value, valueSize)
    requires d1 == base + Offset(Key) && d2 == base + Offset(Value)
    requires m2[d1..d1 + keySize] == m0[key..key + keySize] && m2[d2..d2 + valueSize] == m0[value..value + valueSize]
    requires SameOutside(m0, m2, d1, keySize, d2, valueSize)
    ensures Filled(m0, m2, base, key, keySize, value, valueSize)
  {
    assert Bytes(m2, base, Key)[..keySize] == m2[d1..d1 + keySize];
    assert Bytes(m2, base, Value)[..valueSize] == m2[d2..d2 + valueSize];
    forall f | f != Key && f != Value
      ensures Bytes(m2, base, f) == Bytes(m0, base, f)
    {
      ControlFieldsAreClear(f);
      SliceKept(m0, m2, base + Offset(f), base + Offset(f) + Size(f), d1, keySize, d2, valueSize);
    }
    SliceKept(m0, m2, 0, base, d1, keySize, d2, valueSize);
    SliceKept(m0, m2, base + MAILBOX_BYTES, |m0|, d1, keySize, d2, valueSize);
  }

  lemma {:induction false} SliceKept(m0: seq<Byte>, m2: seq<Byte>, lo: nat, hi: nat, d1: nat, n1: nat, d2: nat, n2: nat)
    requires |m0| == |m2| && lo <= hi <= |m0| && SameOutside(m0, m2, d1, n1, d2, n2) && d1 <= d2 && d1 + n1 <= d2 + n2
    requires hi <= d1 || d2 + n2 <= lo
    ensures m2[lo..hi] == m0[lo..hi]
  {
  }

  lemma {:induction false} TwoCopies(m0: seq<Byte>, m1: seq<Byte>, m2: seq<Byte>, d1: nat, s1: nat, n1: nat, d2: nat,
                                     s2: nat, n2: nat)
    requires |m0| == |m1| == |m2|
    requires d1 + n1 <= |m0| && s1 + n1 <= |m0| && d2 + n2 <= |m0| && s2 + n2 <= |m0|
    requires m1 == ByteCopy(m0, d1, s1, n1) && m2 == ByteCopy(m1, d2, s2, n2)
    requires d1 + n1 <= d2
    requires s1 + n1 <= d1 || d2 + n2 <= s1
    requires s2 + n2 <= d1 || d2 + n2 <= s2
    ensures m2[d1..d1 + n1] == m0[s1..s1 + n1]
    ensures m2[d2..d2 + n2] == m0[s2..s2 + n2]
    ensures SameOutside(m0, m2, d1, n1, d2, n2)
  {
    forall a | 0 <= a < |m0| && !(d1 <= a < d1 + n1)
      ensures m1[a] == m0[a]
    {
      CopyFrame(m0, d1, s1, n1, a);
    }
    forall a | 0 <= a < |m0| && !(d2 <= a < d2 + n2)
      ensures m2[a] == m1[a]
    {
      CopyFrame(m1, d2, s2, n2, a);
    }
    CopyExact(m0, d1, s1, n1);
    CopyExact(m1, d2, s2, n2);
    assert m2[d1..d1 + n1] == m1[d1..d1 + n1];
    assert m1[s2..s2 + n2] == m0[s2..s2 + n2];
  }
}
