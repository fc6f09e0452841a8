/**
 * Decimal rendering of integers, as Go's `%d` verb produces it, and the
 * matching parser. The parser exists to prove that rendering is injective:
 * it is used for the tile cache key "z-x-y" and for the red, green and blue
 * components of a terminal colour escape.
 */
module Decimal {

  import opened Wrappers
  import opened Seqs

  predicate IsDigit(c: char) {
    '0' <= c <= '9'
  }

  function DigitChar(d: nat): (c: char)
    requires d < 10
    ensures IsDigit(c) && DigitValue(c) == d
  {
    ('0' as int + d) as char
  }

  function DigitValue(c: char): (d: nat)
    requires IsDigit(c)
    ensures d < 10
  {
    c as int - '0' as int
  }

  /** `n` in decimal, most significant digit first, without leading zeros. */
  function NatStr(n: nat): (s: string)
    ensures |s| >= 1
    ensures forall i | 0 <= i < |s| :: IsDigit(s[i])
  {
    if n < 10 then [DigitChar(n)] else NatStr(n / 10) + [DigitChar(n % 10)]
  }

  /** `i` in decimal, with a leading '-' when negative (Go's `%d`). */
  function IntStr(i: int): (s: string)
    ensures |s| >= 1
  {
    if i < 0 then "-" + NatStr(-i) else NatStr(i)
  }

  /** The value of a non-empty run of digits. */
  function DigitsValue(s: string): nat
    requires forall i | 0 <= i < |s| :: IsDigit(s[i])
  {
    if s == [] then 0 else DigitsValue(s[..|s| - 1]) * 10 + DigitValue(s[|s| - 1])
  }

  /** The length of the longest prefix of `s` made of digits. */
  function DigitRun(s: string): (n: nat)
    ensures n <= |s|
    ensures forall i | 0 <= i < n :: IsDigit(s[i])
    ensures n < |s| ==> !IsDigit(s[n])
  {
    if s == [] || !IsDigit(s[0]) then 0 else 1 + DigitRun(s[1..])
  }

  /** Reads a natural number at the front of `s`: its value and what follows it. */
  function ParseNat(s: string): Option<(nat, string)> {
    var n := DigitRun(s);
    if n == 0 then None else Some((DigitsValue(s[..n]), s[n..]))
  }

  /** Reads an integer with an optional leading '-' at the front of `s`. */
  function ParseInt(s: string): Option<(int, string)> {
    var negative := s != [] && s[0] == '-';
    match ParseNat(if negative then s[1..] else s)
    case None => None
    case Some(p) => Some((if negative then -(p.0 as int) else p.0 as int, p.1))
  }

  lemma {:induction false} DigitsValueOfNatStr(n: nat)
    ensures DigitsValue(NatStr(n)) == n
  {
    if n >= 10 {
      var s := NatStr(n);
      assert s[..|s| - 1] == NatStr(n / 10);
      DigitsValueOfNatStr(n / 10);
    }
  }

  lemma {:induction false} DigitRunOfDigits(ds: string, rest: string)
    requires forall i | 0 <= i < |ds| :: IsDigit(ds[i])
    requires rest == [] || !IsDigit(rest[0])
    ensures DigitRun(ds + rest) == |ds|
  {
    if ds != [] {
      assert (ds + rest)[1..] == ds[1..] + rest;
      DigitRunOfDigits(ds[1..], rest);
    }
  }

  /** Rendering a natural number and parsing it back gives the number and the untouched rest. */
  lemma NatStrRoundTrip(n: nat, rest: string)
    requires rest == [] || !IsDigit(rest[0])
    ensures ParseNat(NatStr(n) + rest) == Some((n, rest))
  {
    var s := NatStr(n) + rest;
    DigitRunOfDigits(NatStr(n), rest);
    assert s[..|NatStr(n)|] == NatStr(n);
    assert s[|NatStr(n)|..] == rest;
    DigitsValueOfNatStr(n);
  }

  /** The same for integers in Go's `%d` form. */
  lemma IntStrRoundTrip(i: int, rest: string)
    requires rest == [] || !IsDigit(rest[0])
    ensures ParseInt(IntStr(i) + rest) == Some((i, rest))
  {
    if i < 0 {
      Assoc("-", NatStr(-i), rest);
      NegativeRoundTrip(-i, rest);
    } else {
      NonNegativeRoundTrip(i, rest);
    }
  }

  lemma NegativeRoundTrip(n: nat, rest: string)
    requires rest == [] || !IsDigit(rest[0])
    ensures ParseInt("-" + (NatStr(n) + rest)) == Some((-(n as int), rest))
  {
    var t := NatStr(n) + rest;
    var s := "-" + t;
    assert s[0] == '-';
    assert s[1..] == t;
    NatStrRoundTrip(n, rest);
  }

  lemma NonNegativeRoundTrip(n: nat, rest: string)
    requires rest == [] || !IsDigit(rest[0])
    ensures ParseInt(NatStr(n) + rest) == Some((n, rest))
  {
    var s := NatStr(n) + rest;
    assert s[0] == NatStr(n)[0];
    assert IsDigit(s[0]);
    NatStrRoundTrip(n, rest);
  }

  lemma NatStrInjective(a: nat, b: nat)
    requires NatStr(a) == NatStr(b)
    ensures a == b
  {
    NatStrRoundTrip(a, []);
    NatStrRoundTrip(b, []);
    assert NatStr(a) + [] == NatStr(a);
    assert NatStr(b) + [] == NatStr(b);
  }
}
