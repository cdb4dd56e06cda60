/** Python's `int(digits)` on an ASCII digit string and `str(n)` on a
    non-negative integer. */
module Decimal {
  import opened Strings

  predicate AllDigits(s: string) {
    forall i :: 0 <= i < |s| ==> IsDigit(s[i])
  }

  /** No superfluous leading zero: the form `str(n)` produces. */
  predicate Canonical(s: string) {
    |s| >= 1 && AllDigits(s) && (s[0] == '0' ==> |s| == 1)
  }

  function DigitValue(c: char): (d: nat)
    requires IsDigit(c)
    ensures d < 10
  {
    c as int - '0' as int
  }

  function DigitChar(d: nat): (c: char)
    requires d < 10
    ensures IsDigit(c) && DigitValue(c) == d
  {
    ('0' as int + d) as char
  }

  /** `int(s)` for a string of ASCII digits (leading zeros allowed). */
  function DigitsValue(s: string): nat
    requires AllDigits(s)
  {
    if s == [] then 0 else 10 * DigitsValue(s[..|s| - 1]) + DigitValue(s[|s| - 1])
  }

  /** `str(n)`: canonical decimal digits whose value is `n`. */
  function ShowNat(n: nat): (r: string)
    ensures Canonical(r)
    ensures DigitsValue(r) == n
  {
    if n < 10 then [DigitChar(n)]
    else
      var r := ShowNat(n / 10) + [DigitChar(n % 10)];
      assert r[..|r| - 1] == ShowNat(n / 10);
      r
  }

  /** A digit string without a leading zero denotes at least 10^(length - 1). */
  lemma {:induction false} ValueBound(s: string)
    requires AllDigits(s)
    requires s != [] && s[0] != '0'
    ensures DigitsValue(s) >= Pow10(|s| - 1)
  {
    if |s| > 1 {
      ValueBound(s[..|s| - 1]);
    }
  }

  function Pow10(k: nat): (p: nat)
    ensures p >= 1
  {
    if k == 0 then 1 else 10 * Pow10(k - 1)
  }

  /** Parsing then showing gives back any canonical digit string: `str(int(s)) == s`. */
  lemma {:induction false} ShowParse(s: string)
    requires Canonical(s)
    ensures ShowNat(DigitsValue(s)) == s
  {
    var n := DigitsValue(s);
    if |s| == 1 {
      assert s[..|s| - 1] == [];
      assert DigitsValue(s[..|s| - 1]) == 0;
      assert n == DigitValue(s[0]);
      assert [DigitChar(n)] == s;
    } else {
      var init := s[..|s| - 1];
      assert init[0] == s[0];
      ValueBound(init);
      assert DigitsValue(init) >= 1;
      assert n / 10 == DigitsValue(init) && n % 10 == DigitValue(s[|s| - 1]);
      ShowParse(init);
      assert s == init + [s[|s| - 1]];
    }
  }

  /** Two canonical digit strings denote the same number only if they are equal. */
  lemma CanonicalInjective(s: string, t: string)
    requires Canonical(s) && Canonical(t)
    requires DigitsValue(s) == DigitsValue(t)
    ensures s == t
  {
    ShowParse(s);
    ShowParse(t);
  }
}
