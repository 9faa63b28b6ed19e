/** Decimal digit strings: the value the lexer accumulates from a run of digits
    (`value = value * 10 + digit`) and the text C#'s `int.ToString()` prints. */
module Decimal {

  predicate IsDigit(c: char) {
    '0' <= c <= '9'
  }

  function DigitValue(c: char): (d: nat)
    requires IsDigit(c)
    ensures d <= 9
  {
    c as int - '0' as int
  }

  function DigitChar(d: nat): (c: char)
    requires d <= 9
    ensures IsDigit(c) && DigitValue(c) == d
  {
    ('0' as int + d) as char
  }

  predicate AllDigits(s: string) {
    forall i | 0 <= i < |s| :: IsDigit(s[i])
  }

  /** The value of a digit string, accumulated left to right. */
  function ValueOf(s: string): nat
    requires AllDigits(s)
    decreases |s|
  {
    if s == [] then 0 else ValueOf(s[..|s| - 1]) * 10 + DigitValue(s[|s| - 1])
  }

  lemma ValueOfSnoc(s: string, c: char)
    requires AllDigits(s) && IsDigit(c)
    ensures AllDigits(s + [c])
    ensures ValueOf(s + [c]) == ValueOf(s) * 10 + DigitValue(c)
  {
    assert (s + [c])[..|s|] == s;
  }

  /** Every character of `s` from position `i` up to, not including, `j`
      is a digit. */
  predicate DigitsIn(s: string, i: nat, j: nat) {
    forall k | i <= k < j && k < |s| :: IsDigit(s[k])
  }

  /** The value the lexer accumulates over the digits from `i` up to `j`:
      `value = value * 10 + digit`, one digit at a time. */
  function RunValue(s: string, i: nat, j: nat): nat
    requires i <= j <= |s| && DigitsIn(s, i, j)
    decreases j
  {
    if j == i then 0 else RunValue(s, i, j - 1) * 10 + DigitValue(s[j - 1])
  }

  /** The accumulated value is the value of the digit string between the
      two positions. */
  lemma {:induction false} RunValueIsValueOf(s: string, i: nat, j: nat)
    requires i <= j <= |s| && DigitsIn(s, i, j)
    ensures AllDigits(s[i..j]) && RunValue(s, i, j) == ValueOf(s[i..j])
    decreases j
  {
    if j > i {
      RunValueIsValueOf(s, i, j - 1);
      assert s[i..j] == s[i..j - 1] + [s[j - 1]];
      ValueOfSnoc(s[i..j - 1], s[j - 1]);
    } else {
      assert s[i..j] == [];
    }
  }

  /** Accumulating fewer digits of a run never gives a larger value. */
  lemma {:induction false} RunValuePrefix(s: string, i: nat, k: nat, e: nat)
    requires i <= k <= e <= |s| && DigitsIn(s, i, e)
    ensures DigitsIn(s, i, k) && RunValue(s, i, k) <= RunValue(s, i, e)
    decreases e
  {
    if k < e {
      RunValuePrefix(s, i, k, e - 1);
    }
  }

  /** Canonical decimal text of a natural number: no sign, no leading zero. */
  function NatToString(n: nat): (s: string)
    ensures |s| >= 1 && AllDigits(s)
    ensures s[0] == '0' ==> n == 0 && s == "0"
    ensures ValueOf(s) == n
    decreases n
  {
    if n < 10 then
      [DigitChar(n)]
    else
      var p := NatToString(n / 10);
      ValueOfSnoc(p, DigitChar(n % 10));
      p + [DigitChar(n % 10)]
  }

  /** Decimal text of an integer as `int.ToString()` prints it. */
  function IntToString(i: int): (s: string)
    ensures |s| >= 1
    ensures s[0] == '-' <==> i < 0
    ensures i >= 0 ==> s == NatToString(i)
    ensures i < 0 ==> s[1..] == NatToString(-i)
  {
    if i < 0 then "-" + NatToString(-i) else NatToString(i)
  }

  lemma NatToStringInjective(a: nat, b: nat)
    requires NatToString(a) == NatToString(b)
    ensures a == b
  {
  }
}
