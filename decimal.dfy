/**
 * Decimal text of integers, as JavaScript writes an integer-valued number
 * inside a template literal (`${n}`), together with the reader that takes
 * such text back to the number. The formatters and the mapping error message
 * build their strings with it; the reader is what the round-trip lemmas use.
 */
module Decimal {
  import opened Wrappers

  predicate IsDigit(c: char) {
    '0' <= c <= '9'
  }

  predicate AllDigits(s: string) {
    forall i :: 0 <= i < |s| ==> IsDigit(s[i])
  }

  function DigitValue(c: char): (d: nat)
    requires IsDigit(c)
    ensures d < 10
  {
    c as int - '0' as int
  }

  function DigitChar(d: nat): (c: char)
    requires d < 10
    ensures IsDigit(c) && DigitValue(c) == d
  {
    ('0' as int + d) as char
  }

  /** Decimal digits of `n`, most significant first, without leading zeros. */
  function NatText(n: nat): (s: string)
    ensures |s| >= 1 && AllDigits(s)
    ensures |s| > 1 ==> s[0] != '0'
  {
    if n < 10 then [DigitChar(n)] else NatText(n / 10) + [DigitChar(n % 10)]
  }

  /** `${i}` for an integer-valued number: a minus sign, then the digits of |i|. */
  function IntText(i: int): (s: string)
    ensures |s| >= 1 && (s[0] == '-' <==> i < 0)
    ensures i >= 0 ==> AllDigits(s)
  {
    if i < 0 then "-" + NatText(-i) else NatText(i)
  }

  /** The number a string of digits denotes. */
  function DigitsValue(s: string): nat
    requires AllDigits(s)
  {
    if s == [] then 0 else DigitsValue(s[..|s| - 1]) * 10 + DigitValue(s[|s| - 1])
  }

  /** Length of the longest prefix of `s` made of digits. */
  function DigitRun(s: string): (k: nat)
    ensures k <= |s| && AllDigits(s[..k])
    ensures k < |s| ==> !IsDigit(s[k])
  {
    if s == [] || !IsDigit(s[0]) then 0
    else
      var k := 1 + DigitRun(s[1..]);
      assert s[..k] == [s[0]] + s[1..][..k - 1];
      k
  }

  /** Reads the natural number at the head of `s`, returning it with the rest of `s`. */
  function ReadNat(s: string): Option<(nat, string)> {
    var k := DigitRun(s);
    if k == 0 then None else Some((DigitsValue(s[..k]), s[k..]))
  }

  /** Reads an optionally negative integer at the head of `s`. */
  function ReadInt(s: string): Option<(int, string)> {
    var negative := |s| > 0 && s[0] == '-';
    var r := ReadNat(if negative then s[1..] else s);
    if r.None? then None
    else if negative then Some((-(r.value.0 as int), r.value.1))
    else Some((r.value.0 as int, r.value.1))
  }

  /** Text that does not continue a run of digits. */
  predicate StopsDigits(rest: string) {
    rest == [] || !IsDigit(rest[0])
  }

  lemma {:induction false} DigitsValueOfNatText(n: nat)
    ensures DigitsValue(NatText(n)) == n
  {
    if n >= 10 {
      var s := NatText(n);
      assert s[..|s| - 1] == NatText(n / 10);
      DigitsValueOfNatText(n / 10);
    }
  }

  lemma {:induction false} DigitRunOfDigits(d: string, rest: string)
    requires AllDigits(d) && StopsDigits(rest)
    ensures DigitRun(d + rest) == |d|
  {
    if d == [] {
      assert d + rest == rest;
    } else {
      assert (d + rest)[1..] == d[1..] + rest;
      DigitRunOfDigits(d[1..], rest);
    }
  }

  /** Reading back the text of `n` gives `n` and leaves what followed it. */
  lemma ReadNatText(n: nat, rest: string)
    requires StopsDigits(rest)
    ensures ReadNat(NatText(n) + rest) == Some((n, rest))
  {
    var d := NatText(n);
    var s := d + rest;
    DigitRunOfDigits(d, rest);
    assert s[..|d|] == d;
    assert s[|d|..] == rest;
    DigitsValueOfNatText(n);
  }

  /** Reading back the text of `i` gives `i` and leaves what followed it. */
  lemma ReadIntText(i: int, rest: string)
    requires StopsDigits(rest)
    ensures ReadInt(IntText(i) + rest) == Some((i, rest))
  {
    if i < 0 {
      var d := NatText(-i);
      assert IntText(i) + rest == ['-'] + (d + rest);
      ReadNegativeText(-i, rest);
    } else {
      ReadNonNegativeText(i, rest);
    }
  }

  lemma ReadNonNegativeText(n: nat, rest: string)
    requires StopsDigits(rest)
    ensures ReadInt(NatText(n) + rest) == Some((n as int, rest))
  {
    assert IsDigit((NatText(n) + rest)[0]);
    ReadNatText(n, rest);
  }

  lemma ReadNegativeText(n: nat, rest: string)
    requires StopsDigits(rest)
    ensures ReadInt(['-'] + (NatText(n) + rest)) == Some((-(n as int), rest))
  {
    var t := NatText(n) + rest;
    ReadNatText(n, rest);
    assert (['-'] + t)[1..] == t;
  }
}
