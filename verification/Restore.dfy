/** The two restoration strategies that copy a snapshot back to device memory: in one
    copy, or in one-megabyte chunks.  Whether a driver call succeeds is a parameter. */
module Restore {

  type Byte = bv8

  const CHUNK: nat := 1024 * 1024

  /** Device memory with the first `n` snapshot bytes in place. */
  function Restored(m: seq<Byte>, base: nat, snap: seq<Byte>, n: nat): (r: seq<Byte>)
    requires n <= |snap| && base + |snap| <= |m|
    ensures |r| == |m|
    ensures forall a | 0 <= a < |m| :: r[a] == if base <= a < base + n then snap[a - base] else m[a]
  {
    m[..base] + snap[..n] + m[base + n..]
  }

  /** Memory with `data` at `at`. */
  function Overwritten(m: seq<Byte>, at: nat, data: seq<Byte>): (r: seq<Byte>)
    requires at + |data| <= |m|
    ensures |r| == |m|
    ensures forall a | 0 <= a < |m| :: r[a] == if at <= a < at + |data| then data[a - at] else m[a]
  {
    m[..at] + data + m[at + |data|..]
  }

  /** `cuMemcpyHtoD`: on success the bytes are in place, on failure nothing moved. */
  method CopyToDevice(dev: array<Byte>, at: nat, data: seq<Byte>, succeeds: bool) returns (ok: bool)
    requires at + |data| <= dev.Length
    modifies dev
    ensures ok == succeeds
    ensures dev[..] == if ok then Overwritten(old(dev[..]), at, data) else old(dev[..])
  {
    ok := succeeds;
    if ok {
      forall i | 0 <= i < |data| {
        dev[at + i] := data[i];
      }
    }
  }

  method ImmediateRestore(dev: array<Byte>, base: nat, snap: seq<Byte>, syncs: bool, copies: bool, records: bool)
      returns (done: bool)
    requires base + |snap| <= dev.Length
    modifies dev
    ensures done <==> syncs && (snap == [] || copies) && records
    ensures dev[..] == if syncs && (snap == [] || copies) then Restored(old(dev[..]), base, snap, |snap|)
                       else old(dev[..])
  {
    if !syncs {
      return false;
    }
    if snap != [] {
      var ok := CopyToDevice(dev, base, snap, copies);
      if !ok {
        return false;
      }
    }
    return records;
  }

  /** How many copies the chunk loop makes when none fails. */
  function Chunks(size: nat): nat {
    (size + CHUNK - 1) / CHUNK
  }

  function Min(a: nat, b: nat): nat {
    if a < b then a else b
  }

  /** Extending a restored prefix by the next bytes restores the longer prefix. */
  lemma {:induction false} ExtendPrefix(m: seq<Byte>, base: nat, snap: seq<Byte>, n: nat, k: nat)
    requires n + k <= |snap| && base + |snap| <= |m|
    ensures Overwritten(Restored(m, base, snap, n), base + n, snap[n..n + k]) == Restored(m, base, snap, n + k)
  {
  }

  /** The next `k` bytes after a restored prefix. */
  method CopyChunk(dev: array<Byte>, base: nat, snap: seq<Byte>, n: nat, k: nat, succeeds: bool, ghost was: seq<Byte>)
      returns (ok: bool)
    requires n + k <= |snap| && base + |snap| <= dev.Length == |was| && dev[..] == Restored(was, base, snap, n)
    modifies dev
    ensures ok == succeeds
    ensures dev[..] == Restored(was, base, snap, if ok then n + k else n)
  {
    ok := CopyToDevice(dev, base + n, snap[n..n + k], succeeds);
    ExtendPrefix(was, base, snap, n, k);
  }

  lemma {:induction false} ChunkCounted(size: nat, copied: nat, restored: nat, chunk: nat)
    requires restored == Min(copied * CHUNK, size) < size && chunk == Min(CHUNK, size - restored)
    ensures copied < Chunks(size) && restored == copied * CHUNK
    ensures restored + chunk == Min((copied + 1) * CHUNK, size)
    ensures restored + chunk == size ==> copied + 1 == Chunks(size)
  {
  }

  /** The chunk loop: `succeeds(i)` is the outcome of its i-th copy. */
  method IncrementalRestore(dev: array<Byte>, base: nat, snap: seq<Byte>, succeeds: nat -> bool)
      returns (done: bool, copied: nat)
    requires base + |snap| <= dev.Length
    modifies dev
    ensures forall i | 0 <= i < copied :: succeeds(i)
    ensures done ==> copied == (|snap| + 1048575) / 1048576 && dev[..] == Restored(old(dev[..]), base, snap, |snap|)
    ensures !done ==> !succeeds(copied) && copied * 1048576 < |snap|
                      && dev[..] == Restored(old(dev[..]), base, snap, copied * 1048576)
  {
    ghost var was := dev[..];
    var restored := 0;
    copied := 0;
    while restored < |snap|
      invariant restored == Min(copied * CHUNK, |snap|)
      invariant copied <= Chunks(|snap|)
      invariant restored == |snap| ==> copied == Chunks(|snap|)
      invariant forall i | 0 <= i < copied :: succeeds(i)
      invariant dev[..] == Restored(was, base, snap, restored)
    {
      var chunk := Min(CHUNK, |snap| - restored);
      ChunkCounted(|snap|, copied, restored, chunk);
      var ok := CopyChunk(dev, base, snap, restored, chunk, succeeds(copied), was);
      if !ok {
        return false, copied;
      }
      restored := restored + chunk;
      copied := copied + 1;
    }
    return true, copied;
  }
}
