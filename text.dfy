/**
 * Character classes and numeric text shared by the configuration loader, the
 * HTTP helpers and the logger: the C locale's isspace, decimal rendering as
 * printf's %d and %zu produce it, and atoi on decimal input.
 */
module Text {

  /** isspace in the C locale: space, \t, \n, \v, \f and \r. */
  predicate IsSpace(c: char) {
    c == ' ' || c == '\t' || c == '\n' || c == '\U{000B}' || c == '\U{000C}' || c == '\r'
  }

  function NotSpace(c: char): bool { !IsSpace(c) }

  predicate AllSpace(s: string) {
    forall i :: 0 <= i < |s| ==> IsSpace(s[i])
  }

  predicate IsDigit(c: char) {
    '0' <= c <= '9'
  }

  predicate AllDigits(s: string) {
    forall i :: 0 <= i < |s| ==> IsDigit(s[i])
  }

  /** The length of the longest prefix of s whose characters all satisfy p. */
  function PrefixWhile(s: string, p: char -> bool): (k: nat)
    ensures k <= |s|
    ensures forall i :: 0 <= i < k ==> p(s[i])
    ensures k < |s| ==> !p(s[k])
  {
    if s == [] || !p(s[0]) then 0 else 1 + PrefixWhile(s[1..], p)
  }

  /** A prefix that satisfies p throughout, followed by a character that does not, is the whole run. */
  lemma {:induction false} PrefixWhileStopsAt(a: string, b: string, p: char -> bool)
    requires forall i :: 0 <= i < |a| ==> p(a[i])
    requires b == [] || !p(b[0])
    ensures PrefixWhile(a + b, p) == |a|
  {
    if a != [] {
      assert (a + b)[1..] == a[1..] + b;
      PrefixWhileStopsAt(a[1..], b, p);
    }
  }

  function DigitChar(d: nat): (c: char)
    requires d < 10
    ensures IsDigit(c)
  {
    "0123456789"[d]
  }

  function DigitValue(c: char): (d: nat)
    requires IsDigit(c)
    ensures d < 10
  {
    (c as int) - ('0' as int)
  }

  lemma DigitValueOfDigitChar(d: nat)
    requires d < 10
    ensures DigitValue(DigitChar(d)) == d
  {
  }

  /** Decimal rendering of a natural number, most significant digit first, no leading zero. */
  function NatToString(n: nat): (s: string)
    ensures |s| >= 1 && AllDigits(s)
    ensures |s| > 1 ==> s[0] != '0'
    decreases n
  {
    if n < 10 then [DigitChar(n)] else NatToString(n / 10) + [DigitChar(n % 10)]
  }

  function Pow10(k: nat): (p: nat)
    ensures p >= 1
  {
    if k == 0 then 1 else 10 * Pow10(k - 1)
  }

  /** A number below 10^k renders in at most k digits. */
  lemma {:induction false} NatToStringLength(n: nat, k: nat)
    requires 1 <= k && n < Pow10(k)
    ensures |NatToString(n)| <= k
    decreases n
  {
    if n >= 10 {
      assert Pow10(1) == 10;
      assert n / 10 < Pow10(k - 1);
      NatToStringLength(n / 10, k - 1);
    }
  }

  /** The largest values of C's int and size_t render in at most 10 and 20 digits. */
  lemma MachineWordDigits(n: nat)
    ensures n < 0x8000_0000 ==> |NatToString(n)| <= 10
    ensures n < 0x1_0000_0000_0000_0000 ==> |NatToString(n)| <= 20
  {
    assert Pow10(10) == 10_000_000_000;
    assert Pow10(20) == 100_000_000_000_000_000_000;
    if n < 0x8000_0000 {
      NatToStringLength(n, 10);
    }
    if n < 0x1_0000_0000_0000_0000 {
      NatToStringLength(n, 20);
    }
  }

  /** printf's %d: a minus sign before the magnitude of a negative number. */
  function IntToString(i: int): (s: string)
    ensures |s| >= 1
    ensures s[0] == '-' <==> i < 0
    ensures i >= 0 ==> AllDigits(s)
  {
    if i < 0 then "-" + NatToString(-i) else NatToString(i)
  }

  /** The value of a string of decimal digits, most significant first; the empty string is 0. */
  function DigitsValue(s: string): nat
    requires AllDigits(s)
  {
    if s == [] then 0 else DigitsValue(s[..|s| - 1]) * 10 + DigitValue(s[|s| - 1])
  }

  lemma {:induction false} DigitsValueOfNatToString(n: nat)
    ensures DigitsValue(NatToString(n)) == n
    decreases n
  {
    var s := NatToString(n);
    if n >= 10 {
      var front := NatToString(n / 10);
      assert s[..|s| - 1] == front;
      DigitsValueOfNatToString(n / 10);
      DigitValueOfDigitChar(n % 10);
    } else {
      DigitValueOfDigitChar(n);
    }
  }

  /** Different numbers render differently, so a rendered counter never repeats. */
  lemma NatToStringInjective(m: nat, n: nat)
    requires NatToString(m) == NatToString(n)
    ensures m == n
  {
    DigitsValueOfNatToString(m);
    DigitsValueOfNatToString(n);
  }

  /**
   * atoi: skip leading isspace, an optional sign, then the value of the longest
   * run of digits (0 when there is none). Overflow is not modelled.
   */
  function Atoi(s: string): int {
    var t := s[PrefixWhile(s, IsSpace)..];
    if |t| > 0 && (t[0] == '-' || t[0] == '+') then
      var v: int := DigitsValue(t[1..][..PrefixWhile(t[1..], IsDigit)]);
      if t[0] == '-' then -v else v
    else
      DigitsValue(t[..PrefixWhile(t, IsDigit)])
  }

  lemma PrefixWhileAll(s: string, p: char -> bool)
    requires forall i :: 0 <= i < |s| ==> p(s[i])
    ensures PrefixWhile(s, p) == |s|
  {
    PrefixWhileStopsAt(s, [], p);
    assert s + [] == s;
  }

  /** atoi reads back exactly what %d wrote. */
  lemma AtoiIntToString(i: int)
    ensures Atoi(IntToString(i)) == i
  {
    var s := IntToString(i);
    var digits := NatToString(if i < 0 then -i else i);
    assert !IsSpace(s[0]);
    assert PrefixWhile(s, IsSpace) == 0;
    assert s[0..] == s;
    PrefixWhileAll(digits, IsDigit);
    assert digits[..|digits|] == digits;
    DigitsValueOfNatToString(if i < 0 then -i else i);
    if i < 0 {
      assert s[1..] == digits;
    }
  }

  /** A decimal value with trailing garbage, as in "12ab". */
  lemma AtoiStopsAtNonDigit(n: nat, tail: string)
    requires tail == [] || !IsDigit(tail[0])
    ensures Atoi(NatToString(n) + tail) == n
  {
    var digits := NatToString(n);
    var s := digits + tail;
    assert !IsSpace(s[0]);
    assert s[0..] == s;
    PrefixWhileStopsAt(digits, tail, IsDigit);
    assert s[..|digits|] == digits;
    DigitsValueOfNatToString(n);
  }

  /**
   * Text that does not start with space, a sign or a digit, or a sign not
   * followed by a digit, reads as 0.
   */
  lemma AtoiOfNonNumeric(s: string)
    requires || s == []
             || !(IsDigit(s[0]) || IsSpace(s[0]) || s[0] == '+' || s[0] == '-')
             || ((s[0] == '+' || s[0] == '-') && (|s| == 1 || !IsDigit(s[1])))
    ensures Atoi(s) == 0
  {
    if s != [] {
      assert PrefixWhile(s, IsSpace) == 0;
      assert s[0..] == s;
    }
  }
}
