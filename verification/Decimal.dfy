/** Decimal numbers in text. Text is a string with one character per octet. */
module Decimal {
  import opened Wrappers

  predicate IsDigit(c: char) {
    '0' <= c <= '9'
  }

  function Digit(d: nat): (c: char)
    requires d < 10
    ensures IsDigit(c) && DigitValue(c) == d
  {
    ('0' as int + d) as char
  }

  function DigitValue(c: char): (d: nat)
    requires IsDigit(c)
    ensures d < 10
  {
    c as int - '0' as int
  }

  predicate AllDigits(s: string) {
    forall i :: 0 <= i < |s| ==> IsDigit(s[i])
  }

  /** The number that a string of digits denotes, leading zeros or not. */
  function Value(s: string): nat
    requires AllDigits(s)
  {
    if s == "" then 0 else 10 * Value(s[..|s| - 1]) + DigitValue(s[|s| - 1])
  }

  /** The shortest decimal text of a number. */
  function Show(n: nat): (s: string)
    ensures s != "" && AllDigits(s)
    ensures Value(s) == n
    ensures s[0] == '0' ==> n == 0 && |s| == 1
  {
    if n < 10 then
      assert [Digit(n)][..0] == "";
      [Digit(n)]
    else
      var init := Show(n / 10);
      assert (init + [Digit(n % 10)])[..|init|] == init;
      init + [Digit(n % 10)]
  }

  /** `parse::<u16>` and `parse::<u32>`: an optional plus sign and digits below a bound. */
  function ParseUnsigned(s: string, bound: nat): (r: Option<nat>)
    ensures r.Some? ==> r.value < bound
  {
    var digits := if s != "" && s[0] == '+' then s[1..] else s;
    if digits == "" || !AllDigits(digits) || Value(digits) >= bound then None
    else Some(Value(digits))
  }

  lemma ParseShown(n: nat, bound: nat)
    requires n < bound
    ensures ParseUnsigned(Show(n), bound) == Some(n)
  {
    assert IsDigit(Show(n)[0]);
  }

  /** The text is an optional plus sign and digits that denote the number. */
  ghost predicate Denotes(s: string, n: nat) {
    exists digits: string ::
      digits != "" && AllDigits(digits) && Value(digits) == n && (s == digits || s == "+" + digits)
  }

  lemma ParseUnsignedExactly(s: string, bound: nat, n: nat)
    ensures ParseUnsigned(s, bound) == Some(n) <==> n < bound && Denotes(s, n)
  {
    if n < bound && Denotes(s, n) {
      var digits: string :|
        digits != "" && AllDigits(digits) && Value(digits) == n && (s == digits || s == "+" + digits);
      assert IsDigit(digits[0]);
      assert s == "+" + digits ==> s[1..] == digits;
    }
    if ParseUnsigned(s, bound) == Some(n) && s[0] == '+' {
      assert s == "+" + s[1..];
    }
  }

  /** Leading zeros do not matter. */
  lemma {:induction false} ZeroInFront(s: string)
    requires AllDigits(s)
    ensures AllDigits("0" + s) && Value("0" + s) == Value(s)
    decreases |s|
  {
    var t := "0" + s;
    if s == "" {
      assert t[..0] == "" && Value(t) == 10 * Value("") + DigitValue('0');
    } else {
      ZeroInFront(s[..|s| - 1]);
      assert t[..|t| - 1] == "0" + s[..|s| - 1];
    }
  }
}
