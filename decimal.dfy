/** Decimal text of integers, as Java's `String.format("%d", n)` writes it and
    `Integer.parseInt(s)` reads it back (src/com/solver/Game.java uses the first
    to render solutions and the second to turn card ranks into `int`s). */
module Decimal {
  import opened Wrappers

  /** The range of a Java `int`, outside which `Integer.parseInt` fails. */
  const INT_MIN: int := -0x8000_0000
  const INT_MAX: int := 0x7fff_ffff

  predicate IsDigit(c: char) { '0' <= c <= '9' }

  predicate AllDigits(s: string) {
    forall m :: 0 <= m < |s| ==> IsDigit(s[m])
  }

  function DigitValue(c: char): (d: nat)
    requires IsDigit(c)
    ensures d < 10
  {
    (c as int) - ('0' as int)
  }

  function DigitChar(d: nat): (c: char)
    requires d < 10
    ensures IsDigit(c) && DigitValue(c) == d
  {
    ('0' as int + d) as char
  }

  /** The number a string of decimal digits denotes, most significant first. */
  function DigitsValue(s: string): nat
    requires AllDigits(s)
  {
    if s == [] then 0 else 10 * DigitsValue(s[..|s| - 1]) + DigitValue(s[|s| - 1])
  }

  /** `%d` of a non-negative number: its shortest decimal digit string. */
  function FormatNat(n: nat): (r: string)
    ensures |r| > 0 && AllDigits(r)
    ensures DigitsValue(r) == n
    ensures r[0] == '0' ==> r == "0"
    decreases n
  {
    if n < 10 then [DigitChar(n)]
    else
      var r := FormatNat(n / 10) + [DigitChar(n % 10)];
      assert r[..|r| - 1] == FormatNat(n / 10);
      r
  }

  /** `%d` of any integer: a minus sign before the digits of a negative one. */
  function FormatInt(n: int): (r: string)
    ensures |r| > 0 && (IsDigit(r[0]) || r[0] == '-')
  {
    if n < 0 then "-" + FormatNat(-n) else FormatNat(n)
  }

  function InIntRange(v: int): Option<int> {
    if INT_MIN <= v <= INT_MAX then Some(v) else None
  }

  /** `Integer.parseInt(s)` in base 10 over ASCII digits: an optional `+` or
      `-`, at least one digit, and a value that fits an `int`; anything else
      is the `NumberFormatException` case, here `None`. */
  function ParseInt(s: string): (r: Option<int>)
    ensures r.Some? ==> INT_MIN <= r.value <= INT_MAX
    ensures r.Some? ==> |s| > 0
  {
    if |s| > 0 && (s[0] == '-' || s[0] == '+') then
      if |s| > 1 && AllDigits(s[1..]) then
        var v: int := DigitsValue(s[1..]);
        InIntRange(if s[0] == '-' then -v else v)
      else None
    else if |s| > 0 && AllDigits(s) then InIntRange(DigitsValue(s))
    else None
  }

  /** Reading back what `%d` wrote gives the number again, for every `int`. */
  lemma ParseFormatInt(n: int)
    requires INT_MIN <= n <= INT_MAX
    ensures ParseInt(FormatInt(n)) == Some(n)
  {
    if n < 0 {
      assert FormatInt(n)[1..] == FormatNat(-n);
    }
  }

  /** The length of the run of digits a string starts with. */
  function DigitRun(s: string): (p: nat)
    ensures p <= |s| && AllDigits(s[..p])
    ensures p < |s| ==> !IsDigit(s[p])
  {
    if |s| > 0 && IsDigit(s[0]) then
      var p := 1 + DigitRun(s[1..]);
      assert s[..p] == [s[0]] + s[1..][..p - 1];
      p
    else 0
  }

  /** Reads the integer an expression text starts with: an optional minus
      sign and the longest run of digits after it, returning the number and
      the text left after it. */
  function ReadNumber(s: string): (r: Option<(int, string)>)
    ensures r.Some? ==> |r.value.1| < |s|
  {
    var neg := |s| > 0 && s[0] == '-';
    var t := if neg then s[1..] else s;
    var p := DigitRun(t);
    if p == 0 then None
    else
      var v: int := DigitsValue(t[..p]);
      Some((if neg then -v else v, t[p..]))
  }

  lemma {:induction false} DigitRunOfDigits(x: string, rest: string)
    requires AllDigits(x)
    requires rest == [] || !IsDigit(rest[0])
    ensures DigitRun(x + rest) == |x|
    decreases |x|
  {
    if x != [] {
      assert (x + rest)[1..] == x[1..] + rest;
      DigitRunOfDigits(x[1..], rest);
    }
  }

  /** The digits `ReadNumber` finds at the front of `t`, when `t` starts
      with the digits `x` followed by a non-digit or nothing. */
  lemma ReadDigitsFront(x: string, rest: string)
    requires x != [] && AllDigits(x)
    requires rest == [] || !IsDigit(rest[0])
    ensures DigitRun(x + rest) == |x|
    ensures (x + rest)[..|x|] == x && (x + rest)[|x|..] == rest
  {
    DigitRunOfDigits(x, rest);
  }

  /** `ReadNumber` reads back exactly what `%d` wrote, whatever follows it,
      as long as the next character is not a digit. */
  lemma ReadFormatInt(n: int, rest: string)
    requires rest == [] || !IsDigit(rest[0])
    ensures ReadNumber(FormatInt(n) + rest) == Some((n, rest))
  {
    if n < 0 {
      ReadNegative(n, rest);
    } else {
      ReadNonNegative(n, rest);
    }
  }

  lemma ReadNonNegative(n: nat, rest: string)
    requires rest == [] || !IsDigit(rest[0])
    ensures ReadNumber(FormatNat(n) + rest) == Some((n, rest))
  {
    var digits := FormatNat(n);
    ReadDigitsFront(digits, rest);
    assert (digits + rest)[0] != '-';
  }

  lemma ReadNegative(n: int, rest: string)
    requires n < 0 && (rest == [] || !IsDigit(rest[0]))
    ensures ReadNumber("-" + FormatNat(-n) + rest) == Some((n, rest))
  {
    var digits := FormatNat(-n);
    var s := "-" + digits + rest;
    ReadDigitsFront(digits, rest);
    assert s[0] == '-';
    assert s[1..] == digits + rest;
  }


}
