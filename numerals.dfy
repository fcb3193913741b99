/**
 * Unsigned 32-bit integers and their decimal notation: what `u32::from_str`
 * accepts (an optional leading '+', then one or more ASCII digits, with a value
 * of at most 2^32 - 1) and the shortest numeral of a value, as its partner.
 */
module Numerals {
  import opened Wrappers

  const MaxU32: nat := 0xFFFF_FFFF

  /** The values of Rust's `u32`. */
  type U32 = n: nat | n <= MaxU32

  predicate IsDigit(c: char) {
    '0' <= c <= '9'
  }

  predicate AllDigits(s: string) {
    forall i :: 0 <= i < |s| ==> IsDigit(s[i])
  }

  function DigitValue(c: char): (d: nat)
    requires IsDigit(c)
    ensures d < 10
  {
    c as int - '0' as int
  }

  function DigitChar(d: nat): (c: char)
    requires d < 10
    ensures IsDigit(c) && DigitValue(c) == d
  {
    (d + '0' as int) as char
  }

  /** The number denoted by a string of digits, most significant first. */
  function DecimalValue(s: string): nat
    requires AllDigits(s)
    decreases |s|
  {
    if s == [] then 0 else 10 * DecimalValue(s[..|s| - 1]) + DigitValue(s[|s| - 1])
  }

  /** A numeral is canonical when it has no leading zero (unless it is "0"). */
  predicate Canonical(s: string) {
    |s| > 0 && AllDigits(s) && (|s| == 1 || s[0] != '0')
  }

  /** The shortest decimal numeral of `n`. */
  function Decimal(n: nat): (s: string)
    ensures Canonical(s)
    ensures DecimalValue(s) == n
    decreases n
  {
    if n < 10 then [DigitChar(n)]
    else
      var prefix := Decimal(n / 10);
      var s := prefix + [DigitChar(n % 10)];
      assert s[..|s| - 1] == prefix;
      s
  }

  function Zeros(k: nat): (z: string)
    ensures |z| == k && AllDigits(z)
  {
    seq(k, _ => '0')
  }

  /** The digits of `s` with its leading zeros removed, keeping at least one. */
  function StripZeros(s: string): (r: string)
    requires |s| > 0 && AllDigits(s)
    ensures Canonical(r) && |r| <= |s|
    ensures s == Zeros(|s| - |r|) + r
    decreases |s|
  {
    if |s| > 1 && s[0] == '0' then
      var r := StripZeros(s[1..]);
      var k := |s| - 1 - |r|;
      assert Zeros(k + 1) == ['0'] + Zeros(k);
      assert s == ['0'] + (Zeros(k) + r);
      r
    else
      s
  }

  /** The part of an atom after an optional leading '+'. */
  function Unsigned(s: string): string {
    if |s| > 0 && s[0] == '+' then s[1..] else s
  }

  /** `u32::from_str`: an optional '+', then at least one digit, at most 2^32 - 1. */
  function ParseU32(s: string): Option<U32> {
    var digits := Unsigned(s);
    if digits == [] || !AllDigits(digits) then None
    else
      var v := DecimalValue(digits);
      if v <= MaxU32 then Some(v) else None
  }

  lemma {:induction false} MulAtLeast(x: nat, q: nat)
    requires x >= 1
    ensures x * q >= q
    decreases x
  {
    if x > 1 {
      MulAtLeast(x - 1, q);
      assert x * q == (x - 1) * q + q;
    }
  }

  /** A quotient of naturals never exceeds its dividend, so a u32 quotient is a u32. */
  lemma QuotientBound(y: nat, x: nat)
    requires x > 0
    ensures y / x <= y
  {
    assert y == x * (y / x) + y % x && y % x >= 0;
    MulAtLeast(x, y / x);
  }

  lemma {:induction false} ZerosValue(k: nat)
    ensures DecimalValue(Zeros(k)) == 0
  {
    if k > 0 {
      assert Zeros(k)[..k - 1] == Zeros(k - 1);
      ZerosValue(k - 1);
    }
  }

  /** Leading zeros do not change the value of a numeral. */
  lemma {:induction false} LeadingZerosValue(k: nat, s: string)
    requires AllDigits(s)
    ensures AllDigits(Zeros(k) + s)
    ensures DecimalValue(Zeros(k) + s) == DecimalValue(s)
    decreases |s|
  {
    var t := Zeros(k) + s;
    if s == [] {
      assert t == Zeros(k);
      ZerosValue(k);
    } else {
      var init := s[..|s| - 1];
      assert t[..|t| - 1] == Zeros(k) + init;
      LeadingZerosValue(k, init);
    }
  }

  /** A numeral without leading zeros denotes at least 10^(length - 1); we need only its two first steps. */
  lemma {:induction false} CanonicalValueBound(s: string)
    requires Canonical(s) && s[0] != '0'
    ensures DecimalValue(s) >= 1
    ensures |s| > 1 ==> DecimalValue(s) >= 10
    decreases |s|
  {
    if |s| > 1 {
      var init := s[..|s| - 1];
      assert init[0] == s[0];
      CanonicalValueBound(init);
    }
  }

  /** A canonical numeral is the shortest numeral of its own value. */
  lemma {:induction false} CanonicalIsDecimal(s: string)
    requires Canonical(s)
    ensures Decimal(DecimalValue(s)) == s
    decreases |s|
  {
    var n := DecimalValue(s);
    if |s| > 1 {
      var init := s[..|s| - 1];
      assert init[0] == s[0];
      CanonicalValueBound(s);
      CanonicalValueBound(init);
      var d := DigitValue(s[|s| - 1]);
      assert n == 10 * DecimalValue(init) + d;
      assert n / 10 == DecimalValue(init) && n % 10 == d;
      CanonicalIsDecimal(init);
      assert s == init + [s[|s| - 1]];
    }
  }

  /**
   * Everything `u32::from_str` accepts is an optional '+', some zeros and the
   * shortest numeral of the value it returns.
   */
  lemma ParseU32Accepted(s: string)
    requires ParseU32(s).Some?
    ensures AllDigits(Unsigned(s)) && |Unsigned(s)| > 0
    ensures Decimal(ParseU32(s).value) == StripZeros(Unsigned(s))
  {
    var d := Unsigned(s);
    var r := StripZeros(d);
    LeadingZerosValue(|d| - |r|, r);
    CanonicalIsDecimal(r);
  }

  /** Conversely, every such string is accepted, with the value of the numeral. */
  lemma ParseU32Numeral(n: U32, k: nat, plus: bool)
    ensures ParseU32((if plus then "+" else "") + Zeros(k) + Decimal(n)) == Some(n)
  {
    var s := (if plus then "+" else "") + Zeros(k) + Decimal(n);
    LeadingZerosValue(k, Decimal(n));
    assert Unsigned(s) == Zeros(k) + Decimal(n);
  }

  /** A numeral whose value exceeds 2^32 - 1 is refused. */
  lemma ParseU32Overflow(s: string)
    requires |s| > 0 && AllDigits(s) && DecimalValue(s) > MaxU32
    ensures ParseU32(s) == None && ParseU32("+" + s) == None
  {
    assert Unsigned("+" + s) == s;
  }
}
