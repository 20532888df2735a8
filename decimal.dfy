/**
 * Decimal text of integers, as PHP's `(string)$int` writes it, and the
 * parser that reads it back. Used by the payload codec and by the
 * entry Ids of a batched SQS send.
 */
module Decimal {
  import opened Wrappers

  predicate IsDigit(c: char) {
    '0' <= c <= '9'
  }

  predicate AllDigits(s: string) {
    forall i :: 0 <= i < |s| ==> IsDigit(s[i])
  }

  function DigitChar(d: nat): (c: char)
    requires d < 10
    ensures IsDigit(c) && DigitValue(c) == d
  {
    (48 + d) as char
  }

  function DigitValue(c: char): nat
    requires IsDigit(c)
  {
    c as int - 48
  }

  /** The shortest decimal text of `n` (no sign, no leading zero). */
  function NatToString(n: nat): (s: string)
    ensures |s| >= 1 && AllDigits(s)
  {
    if n < 10 then [DigitChar(n)]
    else NatToString(n / 10) + [DigitChar(n % 10)]
  }

  function DigitsValue(s: string): nat
    requires AllDigits(s)
  {
    if |s| == 0 then 0
    else DigitsValue(s[..|s| - 1]) * 10 + DigitValue(s[|s| - 1])
  }

  lemma {:induction false} DigitsValueOfNatToString(n: nat)
    ensures DigitsValue(NatToString(n)) == n
  {
    if n >= 10 {
      var s := NatToString(n);
      assert s[..|s| - 1] == NatToString(n / 10);
      DigitsValueOfNatToString(n / 10);
    }
  }

  /** Distinct numbers have distinct decimal texts. */
  lemma NatToStringInjective(a: nat, b: nat)
    requires NatToString(a) == NatToString(b)
    ensures a == b
  {
    DigitsValueOfNatToString(a);
    DigitsValueOfNatToString(b);
  }

  /** Length of the run of digits at the front of `s`. */
  function DigitPrefix(s: string): (k: nat)
    ensures k <= |s| && AllDigits(s[..k])
    ensures k < |s| ==> !IsDigit(s[k])
  {
    if |s| == 0 || !IsDigit(s[0]) then 0
    else
      var k := 1 + DigitPrefix(s[1..]);
      assert s[..k] == [s[0]] + s[1..][..k - 1];
      k
  }

  lemma {:induction false} DigitPrefixOfDigits(ds: string, rest: string)
    requires AllDigits(ds)
    requires rest == [] || !IsDigit(rest[0])
    ensures DigitPrefix(ds + rest) == |ds|
  {
    if |ds| > 0 {
      assert (ds + rest)[1..] == ds[1..] + rest;
      DigitPrefixOfDigits(ds[1..], rest);
    }
  }

  /** Reads digits up to the terminator `t` and returns the number and what follows `t`. */
  function ParseNatUntil(s: string, t: char): (r: Option<(nat, string)>)
    ensures r.Some? ==> |r.value.1| < |s|
  {
    var k := DigitPrefix(s);
    if k == 0 || k >= |s| || s[k] != t then None
    else Some((DigitsValue(s[..k]), s[k + 1..]))
  }

  lemma ParseNatUntilRoundTrip(n: nat, t: char, rest: string)
    requires !IsDigit(t)
    ensures ParseNatUntil(NatToString(n) + [t] + rest, t) == Some((n, rest))
  {
    var ds := NatToString(n);
    var s := ds + [t] + rest;
    assert s == ds + ([t] + rest);
    DigitPrefixOfDigits(ds, [t] + rest);
    assert s[..|ds|] == ds;
    assert s[|ds| + 1..] == rest;
    DigitsValueOfNatToString(n);
  }

  /** `(string)$i`: an optional minus sign followed by the digits. */
  function IntToString(i: int): string {
    if i < 0 then "-" + NatToString(-i) else NatToString(i)
  }

  function ParseIntUntil(s: string, t: char): (r: Option<(int, string)>)
    ensures r.Some? ==> |r.value.1| < |s|
  {
    if |s| > 0 && s[0] == '-' then
      match ParseNatUntil(s[1..], t)
      case None => None
      case Some((n, rest)) => Some((0 - (n as int), rest))
    else
      match ParseNatUntil(s, t)
      case None => None
      case Some((n, rest)) => Some((n as int, rest))
  }

  lemma ParseIntUntilRoundTrip(i: int, t: char, rest: string)
    requires !IsDigit(t)
    ensures ParseIntUntil(IntToString(i) + [t] + rest, t) == Some((i, rest))
  {
    var s := IntToString(i) + [t] + rest;
    if i < 0 {
      assert s[1..] == NatToString(-i) + [t] + rest;
      ParseNatUntilRoundTrip(-i, t, rest);
    } else {
      ParseNatUntilRoundTrip(i, t, rest);
      assert s[0] != '-' by { assert s[0] == NatToString(i)[0]; }
    }
  }
}
