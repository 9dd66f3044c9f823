/**
 * The C library's `atoi` as the four tools use it to read numeric options:
 * leading white space is skipped, an optional sign is read, then the longest
 * run of decimal digits (section 7.22.1.2 of ISO/IEC 9899:2011, which refers
 * to the subject-sequence rules of `strtol` in section 7.22.1.4). A string
 * without digits converts to 0.
 */
module Atoi {

  import opened CInt

  /** The white-space characters of the "C" locale: space, \t, \n, \v, \f, \r. */
  predicate IsSpace(c: char) {
    c == ' ' || 9 <= c as int <= 13
  }

  predicate IsDigit(c: char) {
    '0' <= c <= '9'
  }

  predicate AllDigits(s: string) {
    forall i :: 0 <= i < |s| ==> IsDigit(s[i])
  }

  function DigitValue(c: char): (d: nat)
    requires IsDigit(c)
    ensures d < 10
  {
    (c - '0') as nat
  }

  function DigitChar(d: nat): (c: char)
    requires d < 10
    ensures IsDigit(c) && DigitValue(c) == d
  {
    '0' + d as char
  }

  /** The input with its leading white space removed. */
  function SkipSpace(s: string): (r: string)
    ensures |r| <= |s| && r == s[|s| - |r|..]
    ensures |r| == 0 || !IsSpace(r[0])
    ensures forall i :: 0 <= i < |s| - |r| ==> IsSpace(s[i])
  {
    if |s| > 0 && IsSpace(s[0]) then SkipSpace(s[1..]) else s
  }

  /** The longest prefix made of decimal digits. */
  function DigitPrefix(s: string): (r: string)
    ensures r <= s && AllDigits(r)
    ensures |r| == |s| || !IsDigit(s[|r|])
  {
    if |s| > 0 && IsDigit(s[0]) then [s[0]] + DigitPrefix(s[1..]) else []
  }

  /** The number a digit string denotes, most significant digit first. */
  function DigitsValue(ds: string): nat
    requires AllDigits(ds)
  {
    if |ds| == 0 then 0 else DigitsValue(ds[..|ds| - 1]) * 10 + DigitValue(ds[|ds| - 1])
  }

  /**
   * `atoi(s)`. The C function's behaviour is undefined when the value does
   * not fit an `int`; here the value is the exact one, and each caller
   * converts it to the width of the variable it is stored in.
   */
  function Atoi(s: string): int {
    var t := SkipSpace(s);
    if |t| > 0 && t[0] == '-' then -(DigitsValue(DigitPrefix(t[1..])) as int)
    else if |t| > 0 && t[0] == '+' then DigitsValue(DigitPrefix(t[1..]))
    else DigitsValue(DigitPrefix(t))
  }

  /** The decimal representation of a natural number, without leading zeros. */
  function NatToString(n: nat): (s: string)
    ensures |s| > 0 && AllDigits(s)
  {
    if n < 10 then [DigitChar(n)] else NatToString(n / 10) + [DigitChar(n % 10)]
  }

  /** The decimal representation of an integer, as `printf("%d")` writes it. */
  function IntToString(i: int): (s: string)
    ensures |s| > 0
  {
    if i < 0 then "-" + NatToString(-i) else NatToString(i)
  }

  lemma {:induction false} DigitsValueOfNatToString(n: nat)
    ensures DigitsValue(NatToString(n)) == n
  {
    var s := NatToString(n);
    if n >= 10 {
      DigitsValueOfNatToString(n / 10);
      assert s[..|s| - 1] == NatToString(n / 10);
    }
  }

  /** A string that starts with a digit string and then a non-digit has that string as its digit prefix. */
  lemma {:induction false} DigitPrefixOfDigits(ds: string, rest: string)
    requires AllDigits(ds)
    requires |rest| == 0 || !IsDigit(rest[0])
    ensures DigitPrefix(ds + rest) == ds
  {
    if |ds| > 0 {
      assert (ds + rest)[1..] == ds[1..] + rest;
      DigitPrefixOfDigits(ds[1..], rest);
    } else {
      assert ds + rest == rest;
    }
  }

  /**
   * `atoi` reads back what `printf("%d")` writes, and stops at the first
   * character that cannot continue the number ("100k" reads as 100).
   */
  lemma AtoiReadsDecimal(i: int, rest: string)
    requires |rest| == 0 || !IsDigit(rest[0])
    ensures Atoi(IntToString(i) + rest) == i
  {
    if i < 0 {
      DigitsValueOfNatToString(-i);
      AtoiOfNegative(NatToString(-i), rest);
    } else {
      DigitsValueOfNatToString(i);
      AtoiOfDigits(NatToString(i), rest);
    }
  }

  /** Digits then a non-digit: `atoi` reads the digits. */
  lemma AtoiOfDigits(ds: string, rest: string)
    requires |ds| > 0 && AllDigits(ds)
    requires |rest| == 0 || !IsDigit(rest[0])
    ensures Atoi(ds + rest) == DigitsValue(ds)
  {
    var s := ds + rest;
    DigitPrefixOfDigits(ds, rest);
    assert s[0] == ds[0];
    assert IsDigit(s[0]) && !IsSpace(s[0]) && s[0] != '-' && s[0] != '+';
    assert SkipSpace(s) == s;
  }

  /** A minus sign, digits, then a non-digit: `atoi` reads the negated digits. */
  lemma AtoiOfNegative(ds: string, rest: string)
    requires AllDigits(ds)
    requires |rest| == 0 || !IsDigit(rest[0])
    ensures Atoi("-" + ds + rest) == -(DigitsValue(ds) as int)
  {
    var s := "-" + ds + rest;
    assert s[0] == '-' && s[1..] == ds + rest;
    AtoiAfterMinus(s);
    DigitPrefixOfDigits(ds, rest);
  }

  /** A string starting with a minus sign converts to the negated digits after it. */
  lemma AtoiAfterMinus(s: string)
    requires |s| > 0 && s[0] == '-'
    ensures Atoi(s) == -(DigitsValue(DigitPrefix(s[1..])) as int)
  {
    assert !IsSpace(s[0]);
    assert SkipSpace(s) == s;
  }

  /** A string with no digit after the optional blanks and sign converts to 0. */
  lemma AtoiWithoutDigits(s: string)
    requires var t := SkipSpace(s);
             var u := if |t| > 0 && (t[0] == '-' || t[0] == '+') then t[1..] else t;
             |u| == 0 || !IsDigit(u[0])
    ensures Atoi(s) == 0
  {
  }
}
