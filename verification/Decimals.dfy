/** Decimal numerals, as they appear in wire names and list summaries. */
module Decimals {

  function Digit(n: nat): char
    requires n < 10
  {
    "0123456789"[n]
  }

  predicate IsDigit(c: char) {
    c in "0123456789"
  }

  function ToDecimal(n: nat): (text: string)
    ensures text != "" && forall i :: 0 <= i < |text| ==> IsDigit(text[i])
  {
    if n < 10 then [Digit(n)] else ToDecimal(n / 10) + [Digit(n % 10)]
  }

  lemma {:induction false} DigitsDiffer(a: nat, b: nat)
    requires a < 10 && b < 10 && Digit(a) == Digit(b)
    ensures a == b
  {
  }

  lemma {:induction false} DecimalIsInjective(a: nat, b: nat)
    requires ToDecimal(a) == ToDecimal(b)
    ensures a == b
  {
    var last := |ToDecimal(a)| - 1;
    assert ToDecimal(a)[last] == Digit(a % 10) && ToDecimal(b)[last] == Digit(b % 10);
    DigitsDiffer(a % 10, b % 10);
    assert a >= 10 ==> |ToDecimal(a)| >= 2;
    assert b >= 10 ==> |ToDecimal(b)| >= 2;
    if a >= 10 && b >= 10 {
      assert ToDecimal(a)[..last] == ToDecimal(a / 10) && ToDecimal(b)[..last] == ToDecimal(b / 10);
      DecimalIsInjective(a / 10, b / 10);
    }
  }
}
