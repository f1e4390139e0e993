/** Decimal numerals as the formatting routines write them. */
module Decimal {

  predicate Digit(c: char) {
    '0' <= c <= '9'
  }

  function Numeral(n: nat): (s: string)
    ensures |s| > 0 && forall k | 0 <= k < |s| :: Digit(s[k])
  {
    var last := [('0' as int + n % 10) as char];
    if n < 10 then last else Numeral(n / 10) + last
  }

  function Value(s: string): int {
    if s == [] then 0 else 10 * Value(s[..|s| - 1]) + (s[|s| - 1] as int - '0' as int)
  }

  lemma {:induction false} NumeralValue(n: nat)
    ensures Value(Numeral(n)) == n
  {
    var s := Numeral(n);
    assert s[|s| - 1] as int - '0' as int == n % 10;
    if n < 10 {
      assert s[..|s| - 1] == [];
    } else {
      NumeralValue(n / 10);
      assert s[..|s| - 1] == Numeral(n / 10);
    }
  }

  /** No leading zero: a digit stands for itself, and a longer numeral starts with another digit. */
  lemma {:induction false} NumeralIsCanonical(n: nat)
    ensures Value(Numeral(n)) == n && (|Numeral(n)| == 1 <==> n < 10) && (n >= 10 ==> Numeral(n)[0] != '0')
  {
    NumeralValue(n);
    if n >= 10 {
      NumeralIsCanonical(n / 10);
      if n / 10 < 10 {
        NumeralValue(n / 10);
        assert Numeral(n / 10)[..0] == [];
      }
    }
  }

  lemma {:induction false} NumeralInjective(m: nat, n: nat)
    requires Numeral(m) == Numeral(n)
    ensures m == n
  {
    NumeralValue(m);
    NumeralValue(n);
  }
}
