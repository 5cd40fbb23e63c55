/** Numbers in decimal and hexadecimal digits. */
module Numerals {

  function Digit(d: nat): (c: char)
    requires d < 16
    ensures d < 10 ==> '0' <= c <= '9'
  {
    "0123456789abcdef"[d]
  }

  function Decimal(n: nat): (s: string)
    ensures s != "" && forall c | c in s :: '0' <= c <= '9'
  {
    if n < 10 then [Digit(n)] else Decimal(n / 10) + [Digit(n % 10)]
  }

  /** The number that a string of decimal digits stands for. */
  function DigitsValue(s: string): nat {
    if s == "" then 0
    else 10 * DigitsValue(s[..|s| - 1]) + (var c := s[|s| - 1]; if '0' <= c <= '9' then c as int - '0' as int else 0)
  }

  lemma DigitCode(d: nat)
    requires d < 10
    ensures Digit(d) as int == '0' as int + d
  {
  }

  lemma {:induction false} DecimalParses(n: nat)
    ensures DigitsValue(Decimal(n)) == n
  {
    DigitCode(n % 10);
    if n >= 10 {
      DecimalParses(n / 10);
      assert Decimal(n)[..|Decimal(n)| - 1] == Decimal(n / 10);
    } else {
      assert Decimal(n)[..0] == "";
    }
  }
}
