/**
  Decimal text of integers as the Java runtime produces and reads it:
  `Integer.toString` (string concatenation of an `int`) for non-negative
  values, and `Long.parseLong` in radix 10.
 */
module Decimal {
  import opened Wrappers

  /** The range of Java's 64-bit `long`. */
  const LONG_MAX: int := 0x7fff_ffff_ffff_ffff
  const LONG_MIN: int := -0x8000_0000_0000_0000

  predicate IsDigit(c: char) {
    '0' <= c <= '9'
  }

  predicate AllDigits(s: string) {
    forall i :: 0 <= i < |s| ==> IsDigit(s[i])
  }

  function DigitChar(d: nat): char
    requires d < 10
  {
    ('0' as int + d) as char
  }

  function DigitValue(c: char): nat
    requires IsDigit(c)
  {
    c as int - '0' as int
  }

  /** The decimal text of `n`: digits only, most significant first, no leading zero. */
  function Render(n: nat): (s: string)
    ensures |s| > 0 && AllDigits(s)
    ensures s[0] == '0' ==> n == 0 && |s| == 1
    decreases n
  {
    if n < 10 then [DigitChar(n)] else Render(n / 10) + [DigitChar(n % 10)]
  }

  /** The value of a string of decimal digits, most significant first. */
  function DigitsValue(s: string): nat
    requires AllDigits(s)
  {
    if |s| == 0 then 0 else DigitsValue(s[..|s| - 1]) * 10 + DigitValue(s[|s| - 1])
  }

  /** Reading back what `Render` wrote gives the number again. */
  lemma {:induction false} DigitsValueOfRender(n: nat)
    ensures DigitsValue(Render(n)) == n
    decreases n
  {
    if n >= 10 {
      DigitsValueOfRender(n / 10);
      var s := Render(n);
      assert s[..|s| - 1] == Render(n / 10);
    }
  }

  /**
    `Long.parseLong(s)`: an optional '+' or '-' followed by at least one
    decimal digit, whose value lies in the range of `long`. `None` stands
    for the `NumberFormatException` thrown on anything else.
   */
  function ParseLong(s: string): (r: Option<int>)
    ensures r.Some? ==> LONG_MIN <= r.value <= LONG_MAX
    ensures r.Some? ==> exists k :: 0 <= k < |s| && IsDigit(s[k])
    ensures |s| > 0 && !IsDigit(s[0]) && s[0] != '+' && s[0] != '-' ==> r.None?
    ensures r.Some? ==> (IsDigit(s[0]) || s[0] == '+' || s[0] == '-') && AllDigits(s[1..])
  {
    if |s| == 0 then None
    else
      var negative := s[0] == '-';
      var digits := if s[0] == '-' || s[0] == '+' then s[1..] else s;
      if |digits| == 0 || !AllDigits(digits) then None
      else
        assert IsDigit(s[|s| - 1]);
        var magnitude: int := DigitsValue(digits);
        var v := if negative then -magnitude else magnitude;
        if LONG_MIN <= v <= LONG_MAX then Some(v) else None
  }

  /** Every non-negative `long` written out by `Render` parses back to itself. */
  lemma ParseLongOfRender(n: nat)
    requires n <= LONG_MAX
    ensures ParseLong(Render(n)) == Some(n)
  {
    DigitsValueOfRender(n);
  }

  /** And so does every negative `long`, written with a leading '-'. */
  lemma ParseLongOfNegated(n: nat)
    requires 0 < n <= -LONG_MIN
    ensures ParseLong("-" + Render(n)) == Some(-(n as int))
  {
    DigitsValueOfRender(n);
    assert ("-" + Render(n))[1..] == Render(n);
  }
}
