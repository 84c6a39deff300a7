/**
  Decimal text for the numbers the bot prints and reads: the 1-based task
  positions and the task count it concatenates into replies (JavaScript's
  number-to-string conversion on non-negative integers), and the index text
  the `done` handler receives, classified the way `isNaN` and `parseInt`
  agree on plain signed integers.
 */
module Decimal {
  import opened Wrappers

  predicate IsDigit(c: char) {
    '0' <= c <= '9'
  }

  /** A non-empty run of ASCII digits. */
  predicate IsDigits(s: string) {
    |s| > 0 && forall i :: 0 <= i < |s| ==> IsDigit(s[i])
  }

  function DigitChar(d: nat): (c: char)
    requires d < 10
    ensures IsDigit(c)
  {
    ('0' as int + d) as char
  }

  function DigitValue(c: char): (d: nat)
    requires IsDigit(c)
    ensures d < 10 && DigitChar(d) == c
  {
    c as int - '0' as int
  }

  /** The shortest decimal spelling of `n`, most significant digit first. */
  function NatToString(n: nat): (s: string)
    ensures IsDigits(s)
    ensures |s| > 1 ==> s[0] != '0'
    decreases n
  {
    if n < 10 then [DigitChar(n)] else NatToString(n / 10) + [DigitChar(n % 10)]
  }

  /** The value of a run of decimal digits, read most significant digit first. */
  function DigitsValue(s: string): (v: nat)
    requires forall i :: 0 <= i < |s| ==> IsDigit(s[i])
  {
    if s == [] then 0 else DigitsValue(s[..|s| - 1]) * 10 + DigitValue(s[|s| - 1])
  }

  /**
    The integer an index text denotes: an optional `+` or `-` followed by
    one or more ASCII digits. Any other text is classified as not a number.
   */
  function ParseIndex(text: string): (r: Option<int>) {
    if IsDigits(text) then Some(DigitsValue(text))
    else if |text| > 1 && text[0] == '-' && IsDigits(text[1..]) then Some(-(DigitsValue(text[1..]) as int))
    else if |text| > 1 && text[0] == '+' && IsDigits(text[1..]) then Some(DigitsValue(text[1..]))
    else None
  }

  /** Reading back what NatToString spells gives the number again. */
  lemma {:induction false} DigitsValueOfNatToString(n: nat)
    ensures DigitsValue(NatToString(n)) == n
    decreases n
  {
    var s := NatToString(n);
    if n >= 10 {
      DigitsValueOfNatToString(n / 10);
      assert s[..|s| - 1] == NatToString(n / 10);
    }
  }

  /** The text the bot prints for position or count `n` parses back to `n`. */
  lemma ParseIndexOfNatToString(n: nat)
    ensures ParseIndex(NatToString(n)) == Some(n)
    ensures ParseIndex("-" + NatToString(n)) == Some(-(n as int))
  {
    DigitsValueOfNatToString(n);
    var s := "-" + NatToString(n);
    assert s[1..] == NatToString(n);
    assert !IsDigit(s[0]);
  }

  /** Two numbers print the same only if they are equal. */
  lemma NatToStringInjective(m: nat, n: nat)
    requires NatToString(m) == NatToString(n)
    ensures m == n
  {
    DigitsValueOfNatToString(m);
    DigitsValueOfNatToString(n);
  }

  /** Text holding a character other than a leading sign and digits is not a number. */
  lemma ParseIndexRejects(text: string, k: nat)
    requires 0 < k < |text| && !IsDigit(text[k])
    ensures ParseIndex(text) == None
  {
    assert !IsDigits(text);
    assert !IsDigits(text[1..]) by { assert text[1..][k - 1] == text[k]; }
  }
}
