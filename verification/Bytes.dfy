/** Little-endian integers as byte strings. */
module Bytes {

  type Byte = x: int | 0 <= x < 256

  function Pow256(n: nat): (p: nat)
    ensures p > 0
  {
    if n == 0 then 1 else 256 * Pow256(n - 1)
  }

  /** The low `n` bytes of `v`, least significant first. */
  function Encode(v: nat, n: nat): (r: seq<Byte>)
    ensures |r| == n
  {
    if n == 0 then [] else [v % 256] + Encode(v / 256, n - 1)
  }

  function Decode(b: seq<Byte>): nat {
    if b == [] then 0 else b[0] + 256 * Decode(b[1..])
  }

  lemma {:induction false} DecodeEncode(v: nat, n: nat)
    requires v < Pow256(n)
    ensures Decode(Encode(v, n)) == v
  {
    if n > 0 {
      DecodeEncode(v / 256, n - 1);
      assert Encode(v, n)[1..] == Encode(v / 256, n - 1);
    }
  }

  lemma {:induction false} DecodeBound(b: seq<Byte>)
    ensures Decode(b) < Pow256(|b|)
  {
    if b != [] {
      DecodeBound(b[1..]);
    }
  }

  lemma {:induction false} Powers()
    ensures Pow256(1) == 0x100
    ensures Pow256(2) == 0x1_0000
    ensures Pow256(4) == 0x1_0000_0000
    ensures Pow256(8) == 0x1_0000_0000_0000_0000
  {
    assert Pow256(3) == 256 * Pow256(2);
    assert Pow256(5) == 256 * Pow256(4);
    assert Pow256(6) == 256 * Pow256(5);
    assert Pow256(7) == 256 * Pow256(6);
  }

  lemma {:induction false} MulGap(x: nat, y: nat, m: nat)
    requires x < y
    ensures x * m + m <= y * m
    decreases y
  {
    assert y * m == (y - 1) * m + m;
    if x < y - 1 {
      MulGap(x, y - 1, m);
    }
  }

  lemma {:induction false} RemaindersAgree(q: nat, k: nat, m: nat, r: nat, s: nat)
    requires q * m + r == k * m + s && r < m && s < m
    ensures r == s
  {
    if q < k {
      MulGap(q, k, m);
    } else if k < q {
      MulGap(k, q, m);
    }
  }

  lemma {:induction false} DivMod(a: nat, m: nat)
    requires m > 0
    ensures a == (a / m) * m + a % m && 0 <= a % m < m && a / m >= 0
  {
  }

  lemma {:induction false} Scale(k: nat, p: nat)
    ensures 256 * (k * p) == k * (256 * p)
  {
  }

  /** Only the low `n` bytes survive. */
  lemma {:induction false} DecodeEncodeMod(v: nat, n: nat)
    ensures Decode(Encode(v, n)) == v % Pow256(n)
  {
    if n > 0 {
      var q, t, p, m := v / 256, v % 256, Pow256(n - 1), Pow256(n);
      DecodeEncodeMod(q, n - 1);
      assert Encode(v, n)[1..] == Encode(q, n - 1);
      DivMod(q, p);
      DivMod(v, m);
      Scale(q / p, p);
      RemaindersAgree(q / p, v / m, m, t + 256 * (q % p), v % m);
    }
  }
}
