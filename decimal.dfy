/**
  Fixed-width integers and the decimal text form of a signed 64-bit integer.

  `ParseLongLong` stands in for the host's strict string-to-long-long conversion
  (an optional '-', then digits without a leading zero, within the int64 range;
  "0" alone is zero) and `FormatLongLong` for the host's long-long-to-string
  conversion. The two are proved inverse to each other in both directions.
 */
module Decimal {
  import opened Optional

  const MinInt64: int := -0x8000_0000_0000_0000
  const MaxInt64: int := 0x7fff_ffff_ffff_ffff
  const MaxUint64: int := 0xffff_ffff_ffff_ffff
  const MaxUint32: int := 0xffff_ffff

  type u64 = x: int | 0 <= x <= 0xffff_ffff_ffff_ffff
  type u32 = x: int | 0 <= x <= 0xffff_ffff

  predicate InInt64(x: int) {
    MinInt64 <= x <= MaxInt64
  }

  /** The value a `uint64_t` has when it is passed where a `long long` is expected. */
  function ToSigned(v: u64): (r: int)
    ensures InInt64(r)
    ensures v <= MaxInt64 ==> r == v
    ensures (r + 0x1_0000_0000_0000_0000) % 0x1_0000_0000_0000_0000 == v
  {
    if v <= MaxInt64 then v else v - 0x1_0000_0000_0000_0000
  }

  predicate IsDigit(c: char) {
    '0' <= c <= '9'
  }

  predicate AllDigits(s: string) {
    forall i :: 0 <= i < |s| ==> IsDigit(s[i])
  }

  function DigitValue(c: char): (d: nat)
    requires IsDigit(c)
    ensures d < 10
  {
    (c as int) - ('0' as int)
  }

  function DigitChar(d: nat): (c: char)
    requires d < 10
    ensures IsDigit(c) && DigitValue(c) == d
  {
    (('0' as int) + d) as char
  }

  /** The number a string of decimal digits denotes, most significant digit first. */
  function DigitsValue(s: string): nat
    requires AllDigits(s)
  {
    if s == [] then 0 else DigitsValue(s[..|s| - 1]) * 10 + DigitValue(s[|s| - 1])
  }

  /** The shortest decimal digit string of `n`. */
  function NatToDigits(n: nat): (s: string)
    ensures |s| > 0 && AllDigits(s)
    decreases n
  {
    if n < 10 then [DigitChar(n)] else NatToDigits(n / 10) + [DigitChar(n % 10)]
  }

  /** A digit string without a superfluous leading zero. */
  predicate Canonical(s: string) {
    |s| > 0 && AllDigits(s) && (s[0] == '0' ==> |s| == 1)
  }

  function FormatLongLong(n: int): (s: string)
    ensures |s| > 0
  {
    if n < 0 then "-" + NatToDigits(-n) else NatToDigits(n)
  }

  function ParseLongLong(s: string): (r: Option<int>)
    ensures r.Some? ==> InInt64(r.value)
    ensures r.Some? ==> 0 < |s| <= 20
  {
    if |s| == 0 then None
    else if s[0] == '-' then
      DigitsLength(s[1..]);
      var m := s[1..];
      if Canonical(m) && m[0] != '0' && DigitsValue(m) <= -MinInt64 then Some(0 - DigitsValue(m)) else None
    else
      DigitsLength(s);
      if Canonical(s) && DigitsValue(s) <= MaxInt64 then Some(DigitsValue(s))
    else None
  }

  function Pow10(k: nat): (p: nat)
    ensures p > 0
  {
    if k == 0 then 1 else 10 * Pow10(k - 1)
  }

  /** A digit string with a non-zero leading digit denotes at least 10^(length - 1). */
  lemma {:induction false} DigitsLowerBound(s: string)
    requires AllDigits(s) && |s| > 0 && s[0] != '0'
    ensures DigitsValue(s) >= Pow10(|s| - 1)
    decreases |s|
  {
    if |s| > 1 {
      var p := s[..|s| - 1];
      assert p[0] == s[0];
      DigitsLowerBound(p);
    }
  }

  /** Hence a value within the int64 range has at most 19 such digits. */
  lemma DigitsLength(s: string)
    ensures Canonical(s) && s[0] != '0' && DigitsValue(s) <= -MinInt64 ==> |s| <= 19
  {
    if Canonical(s) && s[0] != '0' && |s| > 19 {
      DigitsLowerBound(s);
      Pow10Monotone(19, |s| - 1);
      Pow10Nineteen();
    }
  }

  lemma Pow10Nineteen()
    ensures Pow10(19) == 10_000_000_000_000_000_000
  {
    assert Pow10(6) == 1_000_000;
    assert Pow10(12) == 1_000_000_000_000;
  }

  lemma {:induction false} Pow10Monotone(a: nat, b: nat)
    requires a <= b
    ensures Pow10(a) <= Pow10(b)
    decreases b
  {
    if a < b { Pow10Monotone(a, b - 1); }
  }

  lemma {:induction false} NatToDigitsValue(n: nat)
    ensures DigitsValue(NatToDigits(n)) == n
    ensures Canonical(NatToDigits(n))
    ensures n > 0 ==> NatToDigits(n)[0] != '0'
    decreases n
  {
    var s := NatToDigits(n);
    if n >= 10 {
      NatToDigitsValue(n / 10);
      var p := NatToDigits(n / 10);
      assert s == p + [DigitChar(n % 10)];
      assert s[..|s| - 1] == p;
      assert s[0] == p[0];
    }
  }

  lemma {:induction false} DigitsValueNatToDigits(s: string)
    requires Canonical(s)
    ensures NatToDigits(DigitsValue(s)) == s
    decreases |s|
  {
    if |s| > 1 {
      var p := s[..|s| - 1];
      assert Canonical(p) && p[0] == s[0];
      DigitsValueNatToDigits(p);
      DigitsPositive(p);
      var v := DigitsValue(s);
      assert v / 10 == DigitsValue(p) && v % 10 == DigitValue(s[|s| - 1]);
      assert s == p + [s[|s| - 1]];
    }
  }

  /** A canonical digit string that starts with a non-zero digit denotes a positive number. */
  lemma {:induction false} DigitsPositive(s: string)
    requires AllDigits(s) && |s| > 0 && s[0] != '0'
    ensures DigitsValue(s) > 0
    decreases |s|
  {
    if |s| > 1 {
      var p := s[..|s| - 1];
      assert p[0] == s[0];
      DigitsPositive(p);
    }
  }

  /** Formatting then parsing gives the number back (the host's conversions agree). */
  lemma ParseFormat(n: int)
    requires InInt64(n)
    ensures ParseLongLong(FormatLongLong(n)) == Some(n)
  {
    if n < 0 { ParseFormatNegative(n); } else { ParseFormatNonNegative(n); }
  }

  lemma ParseFormatNegative(n: int)
    requires MinInt64 <= n < 0
    ensures ParseLongLong(FormatLongLong(n)) == Some(n)
  {
    var m := NatToDigits(-n);
    NatToDigitsValue(-n);
    var s := FormatLongLong(n);
    assert s == "-" + m;
    assert s[0] == '-' && s[1..] == m;
  }

  lemma ParseFormatNonNegative(n: int)
    requires 0 <= n <= MaxInt64
    ensures ParseLongLong(FormatLongLong(n)) == Some(n)
  {
    NatToDigitsValue(n);
    var s := FormatLongLong(n);
    assert s == NatToDigits(n) && s[0] != '-';
  }

  /** A string the parser accepts is exactly the formatted form of its value. */
  lemma FormatParse(s: string)
    requires ParseLongLong(s).Some?
    ensures FormatLongLong(ParseLongLong(s).value) == s
  {
    if s[0] == '-' {
      var m := s[1..];
      DigitsValueNatToDigits(m);
      DigitsPositive(m);
      assert s == "-" + m;
    } else {
      DigitsValueNatToDigits(s);
    }
  }
}
