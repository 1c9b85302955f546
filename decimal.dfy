/** Decimal text of natural numbers, as produced by strconv.FormatUint/Itoa and read back by strconv.Atoi. */
module Decimal {

  predicate IsDigit(c: char) {
    '0' <= c <= '9'
  }

  predicate AllDigits(s: string) {
    forall i :: 0 <= i < |s| ==> IsDigit(s[i])
  }

  function DigitValue(c: char): (d: nat)
    requires IsDigit(c)
    ensures d < 10
  {
    c as int - '0' as int
  }

  function DigitChar(d: nat): (c: char)
    requires d < 10
    ensures IsDigit(c) && DigitValue(c) == d
  {
    ('0' as int + d) as char
  }

  /** The shortest decimal text of `n` (strconv.FormatUint(n, 10)). */
  function FormatNat(n: nat): (s: string)
    ensures 1 <= |s| && AllDigits(s)
    ensures |s| > 1 ==> s[0] != '0'
  {
    if n < 10 then [DigitChar(n)] else FormatNat(n / 10) + [DigitChar(n % 10)]
  }

  /** The value of a run of decimal digits (strconv.Atoi on ASCII digits). */
  function ParseDigits(s: string): nat
    requires AllDigits(s)
  {
    if s == [] then 0 else ParseDigits(s[..|s| - 1]) * 10 + DigitValue(s[|s| - 1])
  }

  /** strconv.Itoa: a minus sign in front of the magnitude for negative values. */
  function FormatInt(i: int): (s: string)
    ensures i >= 0 ==> s == FormatNat(i)
    ensures i < 0 ==> s == "-" + FormatNat(-i)
  {
    if i < 0 then "-" + FormatNat(-i) else FormatNat(i)
  }

  /** Reading back the decimal text of `n` gives `n`. */
  lemma {:induction false} ParseFormat(n: nat)
    ensures ParseDigits(FormatNat(n)) == n
  {
    if n >= 10 {
      var s := FormatNat(n);
      assert s[..|s| - 1] == FormatNat(n / 10);
      ParseFormat(n / 10);
    }
  }
}
