/**
 * Decimal rendering of non-negative integers, as JavaScript prints the slug
 * counter and the clock reading into a slug.
 */
module Decimal {
  import opened Text

  function DigitChar(d: nat): (c: char)
    requires d < 10
    ensures IsDigit(c)
  {
    ('0' as int + d) as char
  }

  function DigitValue(c: char): (d: nat)
    requires IsDigit(c)
    ensures d < 10
  {
    c as int - '0' as int
  }

  predicate AllDigits(s: string) {
    forall i :: 0 <= i < |s| ==> IsDigit(s[i])
  }

  /** The shortest decimal numeral of `n`: digits only, no leading zero. */
  function Show(n: nat): (r: string)
    ensures |r| >= 1 && AllDigits(r)
    ensures r[0] == '0' ==> n == 0
    decreases n
  {
    if n < 10 then [DigitChar(n)] else Show(n / 10) + [DigitChar(n % 10)]
  }

  /** Reads a numeral back: the value it denotes. */
  function Value(s: string): nat
    requires AllDigits(s)
    decreases |s|
  {
    if |s| == 0 then 0 else Value(s[..|s| - 1]) * 10 + DigitValue(s[|s| - 1])
  }

  /** Reading back what `Show` printed gives the number printed. */
  lemma {:induction false} ValueOfShow(n: nat)
    ensures Value(Show(n)) == n
    decreases n
  {
    var s := Show(n);
    if n >= 10 {
      ValueOfShow(n / 10);
      assert s[..|s| - 1] == Show(n / 10);
    }
  }

  /** Distinct numbers print as distinct numerals. */
  lemma ShowInjective(m: nat, n: nat)
    ensures Show(m) == Show(n) ==> m == n
  {
    ValueOfShow(m);
    ValueOfShow(n);
  }

  function Pow10(d: nat): (p: nat)
    ensures p >= 1
  {
    if d == 0 then 1 else 10 * Pow10(d - 1)
  }

  lemma {:induction false} Pow10Add(a: nat, b: nat)
    ensures Pow10(a + b) == Pow10(a) * Pow10(b)
  {
    if a > 0 {
      Pow10Add(a - 1, b);
    }
  }

  /** A number below 10^d prints with at most d digits. */
  lemma {:induction false} ShowLength(n: nat, d: nat)
    requires 1 <= d && n < Pow10(d)
    ensures |Show(n)| <= d
    decreases n
  {
    if n >= 10 {
      assert d >= 2;
      ShowLength(n / 10, d - 1);
    }
  }
}
