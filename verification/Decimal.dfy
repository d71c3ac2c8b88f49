/** Decimal numerals without sign. */
module Decimal {
  import opened Options

  function Numeral(n: nat): char
    requires n < 10
  {
    ('0' as int + n) as char
  }

  predicate IsNumeral(c: char) {
    '0' <= c <= '9'
  }

  function Format(n: nat): (s: string)
    ensures s != "" && forall i | 0 <= i < |s| :: IsNumeral(s[i])
  {
    if n < 10 then [Numeral(n)] else Format(n / 10) + [Numeral(n % 10)]
  }

  function Value(s: string): nat
    requires forall i | 0 <= i < |s| :: IsNumeral(s[i])
  {
    if s == "" then 0
    else
      assert IsNumeral(s[|s| - 1]);
      10 * Value(s[..|s| - 1]) + (s[|s| - 1] as int - '0' as int)
  }

  /** The value of one or more digits, when it is at most `limit`. */
  function Parse(s: string, limit: nat): Option<nat> {
    if s == "" || !(forall i | 0 <= i < |s| :: IsNumeral(s[i])) then None
    else if Value(s) > limit then None
    else Some(Value(s))
  }

  lemma {:induction false} FormatReadsBack(n: nat)
    ensures Value(Format(n)) == n
  {
    if n >= 10 {
      FormatReadsBack(n / 10);
      assert Format(n)[..|Format(n)| - 1] == Format(n / 10);
    }
  }
}
