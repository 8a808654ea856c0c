/** Decimal text of non-negative integers, as PHP renders an `int` when it is
    concatenated into a string, together with the reading-back direction. */
module Decimal {

  predicate IsDigit(c: char) {
    '0' <= c <= '9'
  }

  predicate IsDigits(s: string) {
    forall i :: 0 <= i < |s| ==> IsDigit(s[i])
  }

  function DigitChar(d: nat): (c: char)
    requires d < 10
    ensures IsDigit(c)
  {
    (d + '0' as int) as char
  }

  function DigitValue(c: char): (d: nat)
    requires IsDigit(c)
    ensures d < 10 && DigitChar(d) == c
  {
    c as int - '0' as int
  }

  /** The canonical decimal rendering of `n`: non-empty, digits only, no leading zero. */
  function FromNat(n: nat): (s: string)
    ensures |s| > 0 && IsDigits(s)
    ensures s[0] == '0' ==> n == 0
  {
    if n < 10 then [DigitChar(n)] else FromNat(n / 10) + [DigitChar(n % 10)]
  }

  /** The value of a string of decimal digits. */
  function ToNat(s: string): nat
    requires IsDigits(s)
  {
    if s == [] then 0 else 10 * ToNat(s[..|s| - 1]) + DigitValue(s[|s| - 1])
  }

  lemma {:induction false} ToNatFromNat(n: nat)
    ensures ToNat(FromNat(n)) == n
  {
    var s := FromNat(n);
    if n < 10 {
      assert s[..|s| - 1] == [];
    } else {
      assert s[..|s| - 1] == FromNat(n / 10);
      ToNatFromNat(n / 10);
    }
  }

  /** Rendering is injective: different counts never print the same. */
  lemma FromNatInjective(m: nat, n: nat)
    ensures FromNat(m) == FromNat(n) <==> m == n
  {
    if FromNat(m) == FromNat(n) {
      ToNatFromNat(m);
      ToNatFromNat(n);
    }
  }

  /** Length of the longest prefix of `s` made of digits. */
  function LeadingDigits(s: string): (k: nat)
    ensures k <= |s| && IsDigits(s[..k])
    ensures k < |s| ==> !IsDigit(s[k])
  {
    if |s| > 0 && IsDigit(s[0]) then 1 + LeadingDigits(s[1..]) else 0
  }

  /** Length of the longest suffix of `s` made of digits. */
  function TrailingDigits(s: string): (k: nat)
    ensures k <= |s| && IsDigits(s[|s| - k..])
    ensures k < |s| ==> !IsDigit(s[|s| - k - 1])
  {
    if |s| > 0 && IsDigit(s[|s| - 1]) then 1 + TrailingDigits(s[..|s| - 1]) else 0
  }

  lemma {:induction false} LeadingDigitsOfConcat(d: string, rest: string)
    requires IsDigits(d)
    requires |rest| == 0 || !IsDigit(rest[0])
    ensures LeadingDigits(d + rest) == |d|
  {
    if d == [] {
      assert d + rest == rest;
    } else {
      assert (d + rest)[1..] == d[1..] + rest;
      LeadingDigitsOfConcat(d[1..], rest);
    }
  }

  lemma {:induction false} TrailingDigitsOfConcat(init: string, d: string)
    requires IsDigits(d)
    requires |init| == 0 || !IsDigit(init[|init| - 1])
    ensures TrailingDigits(init + d) == |d|
  {
    if d == [] {
      assert init + d == init;
    } else {
      var s := init + d;
      assert s[..|s| - 1] == init + d[..|d| - 1];
      TrailingDigitsOfConcat(init, d[..|d| - 1]);
    }
  }
}
