/** Decimal notation of non-negative integers as Go's `%d` verb writes it,
    and the reading of a leading run of digits back into a number. */
module Decimal {
  import opened Results

  predicate IsDigit(c: char) {
    '0' <= c <= '9'
  }

  predicate AllDigits(s: string) {
    forall i :: 0 <= i < |s| ==> IsDigit(s[i])
  }

  function DigitChar(d: nat): char
    requires d < 10
  {
    ('0' as int + d) as char
  }

  function DigitValue(c: char): nat
    requires IsDigit(c)
  {
    c as int - '0' as int
  }

  /** `%d` of `n`: most significant digit first, no sign, no padding. */
  function FormatNat(n: nat): string
    decreases n
  {
    if n < 10 then [DigitChar(n)] else FormatNat(n / 10) + [DigitChar(n % 10)]
  }

  /** The number a string of digits denotes. */
  function Value(s: string): nat
    requires AllDigits(s)
    decreases |s|
  {
    if |s| == 0 then 0 else 10 * Value(s[..|s| - 1]) + DigitValue(s[|s| - 1])
  }

  /** The formatted number is a non-empty digit string without a leading
      zero, except for zero itself. */
  lemma {:induction false} FormatNatShape(n: nat)
    ensures var s := FormatNat(n);
      |s| > 0 && AllDigits(s) && (s[0] == '0' <==> n == 0)
    decreases n
  {
    if n >= 10 {
      FormatNatShape(n / 10);
      assert FormatNat(n)[0] == FormatNat(n / 10)[0];
    }
  }

  /** Reading the digits back gives the number. */
  lemma {:induction false} FormatNatRoundTrip(n: nat)
    ensures AllDigits(FormatNat(n)) && Value(FormatNat(n)) == n
    decreases n
  {
    FormatNatShape(n);
    if n >= 10 {
      FormatNatRoundTrip(n / 10);
      var s := FormatNat(n);
      assert s[..|s| - 1] == FormatNat(n / 10);
    }
  }

  /** Length of the run of digits that starts `s`. */
  function DigitRun(s: string): (k: nat)
    ensures k <= |s| && AllDigits(s[..k])
    ensures k < |s| ==> !IsDigit(s[k])
    decreases |s|
  {
    if |s| == 0 || !IsDigit(s[0]) then 0
    else
      var k := 1 + DigitRun(s[1..]);
      assert forall i :: 1 <= i < k ==> s[..k][i] == s[1..][..k - 1][i - 1];
      k
  }

  /** The number at the front of `s` and what follows it; `None` when `s`
      does not start with a digit. */
  function ReadNat(s: string): Option<(nat, string)>
  {
    var k := DigitRun(s);
    if k == 0 then None else Some((Value(s[..k]), s[k..]))
  }

  /** The run of digits in front of a non-digit is exactly those digits. */
  lemma {:induction false} DigitRunOfAppend(digits: string, rest: string)
    requires AllDigits(digits)
    requires rest == [] || !IsDigit(rest[0])
    ensures DigitRun(digits + rest) == |digits|
    decreases |digits|
  {
    if |digits| > 0 {
      assert (digits + rest)[1..] == digits[1..] + rest;
      DigitRunOfAppend(digits[1..], rest);
    } else {
      assert digits + rest == rest;
    }
  }

  /** A formatted number followed by a non-digit reads back as that number
      and the remainder. */
  lemma ReadFormatted(n: nat, rest: string)
    requires rest == [] || !IsDigit(rest[0])
    ensures ReadNat(FormatNat(n) + rest) == Some((n, rest))
  {
    var s := FormatNat(n);
    FormatNatShape(n);
    FormatNatRoundTrip(n);
    DigitRunOfAppend(s, rest);
    assert (s + rest)[..|s|] == s;
    assert (s + rest)[|s|..] == rest;
  }
}
