/**
 The decimal header values of a chunk message: `fmt.Sprintf("%d", n)` on the sending side and
 `fmt.Sscanf(s, "%d", &n)` into a 64-bit integer on the receiving side.
 */
module Decimal {
  import opened Common

  const INT64_LIMIT: int := 0x8000_0000_0000_0000

  predicate IsDigit(c: char) {
    '0' <= c <= '9'
  }

  function DigitValue(c: char): nat
    requires IsDigit(c)
  {
    (c - '0') as nat
  }

  function DigitChar(d: nat): char
    requires d < 10
  {
    '0' + d as char
  }

  function Format(n: nat): string {
    if n < 10 then [DigitChar(n)] else Format(n / 10) + [DigitChar(n % 10)]
  }

  predicate AllDigits(s: string) {
    forall i :: 0 <= i < |s| ==> IsDigit(s[i])
  }

  function Value(digits: string): nat
    requires AllDigits(digits)
  {
    if digits == "" then 0
    else Value(digits[..|digits| - 1]) * 10 + DigitValue(digits[|digits| - 1])
  }

  /** The longest prefix of `s` made of digits. */
  function LeadingDigits(s: string): (r: string)
    ensures AllDigits(r) && r <= s
  {
    if s == "" || !IsDigit(s[0]) then "" else [s[0]] + LeadingDigits(s[1..])
  }

  predicate IsBlank(c: char) {
    c in {' ', '\t', '\r'}
  }

  function SkipBlanks(s: string): string {
    if s != "" && IsBlank(s[0]) then SkipBlanks(s[1..]) else s
  }

  /**
   Blanks, an optional sign, then at least one digit; what follows the digits is not looked at.
   A value that does not fit 64 bits is an error.
   */
  function Scan(s: string): Option<int> {
    var t := SkipBlanks(s);
    var negative := t != "" && t[0] == '-';
    var digits := LeadingDigits(if t != "" && t[0] in {'+', '-'} then t[1..] else t);
    if digits == "" then None
    else
      var v: int := if negative then 0 - Value(digits) else Value(digits);
      if -INT64_LIMIT <= v < INT64_LIMIT then Some(v) else None
  }

  lemma {:induction false} LeadingDigitsOfDigits(s: string)
    requires AllDigits(s)
    ensures LeadingDigits(s) == s
  {
    if s != "" {
      LeadingDigitsOfDigits(s[1..]);
    }
  }

  lemma {:induction false} FormatIsDecimal(n: nat)
    ensures Format(n) != "" && AllDigits(Format(n)) && Value(Format(n)) == n
  {
    if n >= 10 {
      FormatIsDecimal(n / 10);
      assert Format(n)[..|Format(n)| - 1] == Format(n / 10);
    } else {
      assert Format(n)[..0] == "";
    }
  }

  /** A printed natural number parses back to itself exactly when it fits a signed 64-bit integer. */
  lemma HeaderRoundTrip(n: nat)
    ensures Scan(Format(n)) == if n < INT64_LIMIT then Some(n) else None
  {
    FormatIsDecimal(n);
    LeadingDigitsOfDigits(Format(n));
  }

  /** Hence distinct numbers are printed differently. */
  lemma FormatInjective(m: nat, n: nat)
    requires Format(m) == Format(n)
    ensures m == n
  {
    FormatIsDecimal(m);
    FormatIsDecimal(n);
  }

  lemma {:induction false} LeadingDigitsStop(s: string, rest: string)
    requires AllDigits(s) && (rest == "" || !IsDigit(rest[0]))
    ensures LeadingDigits(s + rest) == s
  {
    if s == "" {
      assert s + rest == rest;
    } else {
      LeadingDigitsStop(s[1..], rest);
      assert (s + rest)[1..] == s[1..] + rest;
    }
  }

  lemma ScanUnsigned(n: nat, tail: string)
    requires LeadingDigits(tail) != "" && Value(LeadingDigits(tail)) == n
    ensures Scan(tail) == if n < INT64_LIMIT then Some(n) else None
  {
    assert SkipBlanks(tail) == tail;
  }

  lemma ScanAfterSign(sign: char, n: nat, tail: string)
    requires sign in {'+', '-'} && LeadingDigits(tail) != "" && Value(LeadingDigits(tail)) == n
    ensures var v := if sign == '-' then 0 - n else n;
            Scan([sign] + tail) == if -INT64_LIMIT <= v < INT64_LIMIT then Some(v) else None
  {
    var s := [sign] + tail;
    assert s[0] == sign && s[1..] == tail;
    assert SkipBlanks(s) == s;
  }

  lemma SignSplits(sign: string, tail: string)
    requires sign in {"", "+", "-"}
    ensures if sign == "" then sign + tail == tail else (sign + tail)[0] == sign[0] && (sign + tail)[1..] == tail
  {
  }

  predicate IsBlankOrSign(c: char) {
    IsBlank(c) || c in {'+', '-'}
  }

  predicate AllBlank(s: string) {
    forall i :: 0 <= i < |s| ==> IsBlank(s[i])
  }

  lemma {:induction false} SkipAllBlanks(blanks: string, s: string)
    requires AllBlank(blanks)
    ensures SkipBlanks(blanks + s) == SkipBlanks(s)
  {
    if blanks == "" {
      assert blanks + s == s;
    } else {
      assert (blanks + s)[1..] == blanks[1..] + s;
      SkipAllBlanks(blanks[1..], s);
    }
  }

  /** What `Scan` makes of blanks, an optional sign, the digits of `n`, and a rest that does not go on with a digit. */
  lemma ScanSigned(blanks: string, sign: string, n: nat, rest: string)
    requires AllBlank(blanks) && sign in {"", "+", "-"} && (rest == "" || !IsDigit(rest[0]))
    ensures var v := if sign == "-" then 0 - n else n;
            Scan(blanks + (sign + (Format(n) + rest))) == if -INT64_LIMIT <= v < INT64_LIMIT then Some(v) else None
  {
    ScanIgnoresBlanks(blanks, sign + (Format(n) + rest));
    FormatIsDecimal(n);
    LeadingDigitsStop(Format(n), rest);
    if sign == "" {
      assert sign + (Format(n) + rest) == Format(n) + rest;
      ScanUnsigned(n, Format(n) + rest);
    } else {
      assert sign == [sign[0]];
      ScanAfterSign(sign[0], n, Format(n) + rest);
    }
  }

  /** Without a digit after blanks and an optional sign there is no number. */
  lemma ScanWithoutDigits(blanks: string, sign: string, rest: string)
    requires AllBlank(blanks) && sign in {"", "+", "-"} && (rest == "" || !IsDigit(rest[0]))
    requires sign == "" ==> rest == "" || !IsBlankOrSign(rest[0])
    ensures Scan(blanks + (sign + rest)) == None
  {
    ScanIgnoresBlanks(blanks, sign + rest);
    SignSplits(sign, rest);
    assert SkipBlanks(sign + rest) == sign + rest;
  }

  /** Blanks in front of a number do not matter. */
  lemma ScanIgnoresBlanks(blanks: string, s: string)
    requires AllBlank(blanks)
    ensures Scan(blanks + s) == Scan(s)
  {
    SkipAllBlanks(blanks, s);
  }
}
