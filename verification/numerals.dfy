/** Decimal numerals: the subset of Python's `int()` the records use
    (a non-empty run of ASCII digits) and `str()` / `%s` of a
    non-negative integer. */
module Numerals {
  import opened Results

  predicate IsDigit(c: char) {
    '0' <= c <= '9'
  }

  predicate AllDigits(s: string) {
    forall i :: 0 <= i < |s| ==> IsDigit(s[i])
  }

  /** What `int()` accepts in this model. */
  predicate IsNumeral(s: string) {
    |s| > 0 && AllDigits(s)
  }

  /** What `str()` produces: no leading zero except for "0" itself. */
  predicate IsCanonical(s: string) {
    IsNumeral(s) && (|s| > 1 ==> s[0] != '0')
  }

  function DigitChar(d: nat): char
    requires d < 10
  {
    ('0' as int + d) as char
  }

  function DigitValue(c: char): nat
    requires IsDigit(c)
  {
    c as int - '0' as int
  }

  /** Value of a digit string, most significant digit first. */
  function DigitsValue(s: string): nat
    requires AllDigits(s)
    decreases |s|
  {
    if |s| == 0 then 0 else DigitsValue(s[..|s| - 1]) * 10 + DigitValue(s[|s| - 1])
  }

  /** `int(s)` on a field; `None` where Python raises ValueError. */
  function ParseNat(s: string): Option<nat> {
    if IsNumeral(s) then Some(DigitsValue(s)) else None
  }

  /** `str(n)` for a non-negative integer. */
  function Show(n: nat): (r: string)
    ensures IsCanonical(r)
    decreases n
  {
    if n < 10 then [DigitChar(n)] else Show(n / 10) + [DigitChar(n % 10)]
  }

  /** Reading back what `str` wrote gives the number. */
  lemma {:induction false} ParseShow(n: nat)
    ensures ParseNat(Show(n)) == Some(n)
  {
    ShowValue(n);
  }

  lemma {:induction false} ShowValue(n: nat)
    ensures DigitsValue(Show(n)) == n
    decreases n
  {
    if n >= 10 {
      var s := Show(n);
      assert s[..|s| - 1] == Show(n / 10);
      ShowValue(n / 10);
    }
  }

  lemma {:induction false} LeadingDigitPositive(s: string)
    requires IsCanonical(s) && |s| > 1
    ensures DigitsValue(s) >= 10
    decreases |s|
  {
    var p := s[..|s| - 1];
    if |p| > 1 {
      assert p[0] == s[0];
      LeadingDigitPositive(p);
    } else {
      assert p == [s[0]];
      assert DigitsValue(p) == DigitValue(s[0]);
    }
  }

  /** Every canonical numeral is what `str` writes for its value, so
      `ParseNat` and `Show` are inverse bijections between the naturals
      and canonical numerals. */
  lemma {:induction false} ShowParse(s: string)
    requires IsCanonical(s)
    ensures ParseNat(s).Some? && Show(ParseNat(s).value) == s
    decreases |s|
  {
    if |s| > 1 {
      var p := s[..|s| - 1];
      LeadingDigitPositive(s);
      assert IsCanonical(p) by {
        if |p| > 1 { assert p[0] == s[0]; }
      }
      ShowParse(p);
      var v := DigitsValue(s);
      assert v / 10 == DigitsValue(p) && v % 10 == DigitValue(s[|s| - 1]);
      assert s == p + [s[|s| - 1]];
    }
  }
}
