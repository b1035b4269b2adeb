/** Decimal numerals, as str() writes natural numbers. */
module Decimals {

  function Digits(n: nat): (r: string)
    ensures r != ""
  {
    if n < 10 then ["0123456789"[n]] else Digits(n / 10) + ["0123456789"[n % 10]]
  }

  /** What a numeral stands for. */
  function Value(s: string): int {
    if s == "" then 0 else 10 * Value(s[..|s| - 1]) + (s[|s| - 1] as int - '0' as int)
  }

  predicate IsDigit(c: char) {
    '0' <= c <= '9'
  }

  /** Digits, without a leading zero, that stand for the number. */
  lemma {:induction false} DigitsRead(n: nat)
    ensures Value(Digits(n)) == n && forall i :: 0 <= i < |Digits(n)| ==> IsDigit(Digits(n)[i])
    ensures n > 0 ==> Digits(n)[0] != '0'
  {
    if n < 10 {
      assert Digits(n)[..0] == "";
      LastDigit(n);
    } else {
      DigitsRead(n / 10);
      LastDigit(n % 10);
      assert Digits(n)[..|Digits(n)| - 1] == Digits(n / 10);
    }
  }

  lemma LastDigit(d: nat)
    requires d < 10
    ensures "0123456789"[d] as int == '0' as int + d && IsDigit("0123456789"[d])
  {
  }

  /** Leading zeros do not change the number. */
  lemma {:induction false} LeadingZeros(zeros: nat, s: string)
    ensures Value(seq(zeros, _ => '0') + s) == Value(s)
  {
    var padded := seq(zeros, _ => '0') + s;
    if s != "" {
      assert padded[..|padded| - 1] == seq(zeros, _ => '0') + s[..|s| - 1];
      LeadingZeros(zeros, s[..|s| - 1]);
    } else if zeros > 0 {
      assert padded[..|padded| - 1] == seq(zeros - 1, _ => '0') + s;
      LeadingZeros(zeros - 1, s);
    }
  }
}
