/** Decimal numerals as JSON writes them. */
module Decimal {

  function Digit(d: nat): char
    requires d < 10
  {
    ['0', '1', '2', '3', '4', '5', '6', '7', '8', '9'][d]
  }

  function Numeral(n: nat): string {
    if n < 10 then [Digit(n)] else Numeral(n / 10) + [Digit(n % 10)]
  }

  predicate IsDigit(c: char) { '0' <= c <= '9' }

  function Value(text: string): nat
    requires forall i :: 0 <= i < |text| ==> IsDigit(text[i])
  {
    if text == "" then 0
    else
      var last := text[|text| - 1];
      assert IsDigit(last);
      10 * Value(text[..|text| - 1]) + (last as int - '0' as int)
  }

  /** A numeral is not empty, has no leading zero unless it is 0, and stands for its number. */
  lemma {:induction false} NumeralStandsFor(n: nat)
    ensures Numeral(n) != "" && (Numeral(n)[0] == '0' ==> n == 0)
    ensures (forall i :: 0 <= i < |Numeral(n)| ==> IsDigit(Numeral(n)[i])) && Value(Numeral(n)) == n
  {
    if n >= 10 {
      NumeralStandsFor(n / 10);
      assert Numeral(n)[..|Numeral(n)| - 1] == Numeral(n / 10);
    } else {
      assert Numeral(n)[..0] == "";
    }
  }

  /** Smaller numbers have no longer numerals. */
  lemma {:induction false} NumeralLengthMonotone(a: nat, b: nat)
    requires a <= b
    ensures |Numeral(a)| <= |Numeral(b)|
  {
    if b >= 10 && a >= 10 { NumeralLengthMonotone(a / 10, b / 10); }
  }
}
