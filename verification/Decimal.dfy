/** Decimal numerals, as `to_string` and `format!` write them. */
module Decimal {
  import opened Prelude

  predicate IsDigit(b: Byte) {
    48 <= b <= 57
  }

  predicate AllDigits(d: Bytes) {
    forall i :: 0 <= i < |d| ==> IsDigit(d[i])
  }

  predicate StartsWithDigit(s: Bytes) {
    s != [] && IsDigit(s[0])
  }

  function Dec(n: nat): (d: Bytes)
    ensures d != [] && AllDigits(d)
  {
    if n < 10 then [(48 + n) as Byte] else Dec(n / 10) + [(48 + n % 10) as Byte]
  }

  function Value(d: Bytes): nat
    requires AllDigits(d)
  {
    if d == [] then 0 else 10 * Value(d[..|d| - 1]) + (d[|d| - 1] as int - 48)
  }

  lemma {:induction false} ValueOfDec(n: nat)
    ensures Value(Dec(n)) == n
  {
    if n >= 10 {
      ValueOfDec(n / 10);
      assert Dec(n)[..|Dec(n)| - 1] == Dec(n / 10);
    } else {
      assert Dec(n)[..0] == [];
    }
  }

  lemma {:induction false} DecInjective(m: nat, n: nat)
    ensures Dec(m) == Dec(n) ==> m == n
  {
    ValueOfDec(m);
    ValueOfDec(n);
  }

  /** Two runs of digits followed by something else: the runs end at the same place. */
  lemma {:induction false} DigitRuns(a: Bytes, s: Bytes, b: Bytes, t: Bytes)
    requires AllDigits(a) && AllDigits(b) && !StartsWithDigit(s) && !StartsWithDigit(t)
    requires a + s == b + t
    ensures a == b && s == t
  {
    var x := a + s;
    assert forall i :: 0 <= i < |a| ==> x[i] == a[i];
    assert forall i :: 0 <= i < |b| ==> x[i] == b[i];
    assert s != [] ==> x[|a|] == s[0];
    assert t != [] ==> x[|b|] == t[0];
    assert |a| == |b|;
    assert a == (a + s)[..|a|] && s == (a + s)[|a|..];
    assert b == (b + t)[..|b|] && t == (b + t)[|b|..];
  }

  /** A numeral is determined by any text that starts with it, up to the first non-digit. */
  lemma {:induction false} DecUnambiguous(m: nat, s: Bytes, n: nat, t: Bytes)
    requires !StartsWithDigit(s) && !StartsWithDigit(t) && Dec(m) + s == Dec(n) + t
    ensures m == n && s == t
  {
    DigitRuns(Dec(m), s, Dec(n), t);
    DecInjective(m, n);
  }

  /** A numeral as text. */
  function Numeral(n: nat): string {
    var d := Dec(n);
    seq(|d|, i requires 0 <= i < |d| => d[i] as int as char)
  }

  predicate AreDigits(s: string) {
    forall i :: 0 <= i < |s| ==> '0' <= s[i] <= '9'
  }

  function Digits(s: string): (d: Bytes)
    requires AreDigits(s)
    ensures AllDigits(d) && |d| == |s|
  {
    seq(|s|, i requires 0 <= i < |s| => s[i] as int as Byte)
  }

  lemma {:induction false} NumeralDigits(n: nat)
    ensures AreDigits(Numeral(n)) && Numeral(n) != "" && Digits(Numeral(n)) == Dec(n)
  {
    var d := Dec(n);
    forall i | 0 <= i < |d| ensures '0' <= Numeral(n)[i] <= '9' {
      assert IsDigit(d[i]);
    }
  }

  lemma {:induction false} NumeralInjective(m: nat, n: nat)
    ensures Numeral(m) == Numeral(n) ==> m == n
  {
    NumeralDigits(m);
    NumeralDigits(n);
    DecInjective(m, n);
  }
}
