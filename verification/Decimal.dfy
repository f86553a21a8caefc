/** Natural numbers in decimal. */
module Decimal {

  function Digit(n: nat): char
    requires n < 10
  {
    n as char + '0'
  }

  function FormatNat(n: nat): string {
    if n < 10 then [Digit(n)] else FormatNat(n / 10) + [Digit(n % 10)]
  }

  predicate IsDigit(c: char) {
    '0' <= c <= '9'
  }

  predicate AllDigits(s: string) {
    forall i :: 0 <= i < |s| ==> IsDigit(s[i])
  }

  function DigitsValue(s: string): nat
    requires AllDigits(s)
  {
    if s == "" then 0
    else 10 * DigitsValue(s[..|s| - 1]) + (s[|s| - 1] as int - '0' as int)
  }

  /** Reading what was printed. */
  lemma {:induction false} FormatNatValue(n: nat)
    ensures FormatNat(n) != "" && AllDigits(FormatNat(n)) && DigitsValue(FormatNat(n)) == n
  {
    if n >= 10 {
      FormatNatValue(n / 10);
      assert FormatNat(n)[..|FormatNat(n)| - 1] == FormatNat(n / 10);
    }
  }

  /** It is printed without leading zeros. */
  lemma {:induction false} FormatNatCanonical(n: nat)
    ensures FormatNat(n) == "0" || (FormatNat(n) != "" && FormatNat(n)[0] != '0')
  {
    if n >= 10 {
      FormatNatCanonical(n / 10);
      FormatNatValue(n / 10);
      assert DigitsValue("0") == 0 by {
        assert "0"[..0] == "";
      }
      assert FormatNat(n)[0] == FormatNat(n / 10)[0];
    }
  }

  /** What a digit adds. */
  lemma DigitsValueNext(s: string, c: char)
    requires AllDigits(s) && IsDigit(c)
    ensures AllDigits(s + [c]) && DigitsValue(s + [c]) == 10 * DigitsValue(s) + (c as int - 48)
  {
    assert (s + [c])[..|s|] == s;
  }
}
