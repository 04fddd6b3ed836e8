/**
  Decimal digit strings: the digit filter of the tip inputs
  (`value.replace(/\D/g, "")`), reading a digit string as a number
  (`Number.parseInt`) and writing a positive number in decimal (the `${i + 1}`
  of the participant labels).
 */
module Decimal {

  /** `\d` in a JavaScript regular expression: the ASCII digits only. */
  predicate IsDigit(c: char) {
    '0' <= c <= '9'
  }

  predicate AllDigits(s: string) {
    forall i :: 0 <= i < |s| ==> IsDigit(s[i])
  }

  /** `replace(/\D/g, "")`: the digits of `s`, in order. */
  function KeepDigits(s: string): (r: string)
    ensures AllDigits(r)
    ensures |r| <= |s|
  {
    if |s| == 0 then ""
    else KeepDigits(s[..|s| - 1]) + (if IsDigit(s[|s| - 1]) then [s[|s| - 1]] else "")
  }

  function DigitValue(c: char): nat
    requires IsDigit(c)
  {
    (c as int - '0' as int) as nat
  }

  function DigitChar(d: nat): (c: char)
    requires d < 10
    ensures IsDigit(c) && DigitValue(c) == d
  {
    ('0' as int + d) as char
  }

  /** `Number.parseInt` on a digit string, read most significant digit
      first; leading zeros are ignored. */
  function DigitsValue(s: string): nat
    requires AllDigits(s)
  {
    if |s| == 0 then 0
    else DigitsValue(s[..|s| - 1]) * 10 + DigitValue(s[|s| - 1])
  }

  /** The decimal numeral of `n`, without leading zeros. */
  function Digits(n: nat): (r: string)
    ensures |r| > 0 && AllDigits(r)
  {
    if n < 10 then [DigitChar(n)] else Digits(n / 10) + [DigitChar(n % 10)]
  }

  /** Reading back a written number gives the number. */
  lemma {:induction false} DigitsRoundTrip(n: nat)
    ensures DigitsValue(Digits(n)) == n
    decreases n
  {
    var r := Digits(n);
    if n < 10 {
      assert r[..0] == "";
    } else {
      DigitsRoundTrip(n / 10);
      assert r[..|r| - 1] == Digits(n / 10);
    }
  }

  /** Distinct numbers have distinct numerals. */
  lemma DigitsInjective(a: nat, b: nat)
    requires a != b
    ensures Digits(a) != Digits(b)
  {
    DigitsRoundTrip(a);
    DigitsRoundTrip(b);
  }

  /** The digit filter works piecewise. */
  lemma {:induction false} KeepDigitsAppend(a: string, b: string)
    ensures KeepDigits(a + b) == KeepDigits(a) + KeepDigits(b)
    decreases |b|
  {
    if |b| == 0 {
      assert a + b == a;
    } else {
      var b' := b[..|b| - 1];
      assert (a + b)[..|a + b| - 1] == a + b';
      KeepDigitsAppend(a, b');
    }
  }

  /** A string of digits passes the filter unchanged. */
  lemma {:induction false} KeepDigitsOfDigits(s: string)
    requires AllDigits(s)
    ensures KeepDigits(s) == s
    decreases |s|
  {
    if |s| > 0 {
      KeepDigitsOfDigits(s[..|s| - 1]);
      assert s == s[..|s| - 1] + [s[|s| - 1]];
    }
  }

  /** Filtering twice is filtering once. */
  lemma KeepDigitsIdempotent(s: string)
    ensures KeepDigits(KeepDigits(s)) == KeepDigits(s)
  {
    KeepDigitsOfDigits(KeepDigits(s));
  }

  /** A separator, currency sign or any other non-digit typed anywhere is
      dropped. */
  lemma KeepDigitsSkipsNonDigit(a: string, c: char, b: string)
    requires !IsDigit(c)
    ensures KeepDigits(a + [c] + b) == KeepDigits(a + b)
  {
    KeepDigitsAppend(a + [c], b);
    KeepDigitsAppend(a, [c]);
    KeepDigitsAppend(a, b);
    assert [c][..0] == "";
    assert KeepDigits([c]) == "";
  }
}
