/** Numbers as ASCII digits. */
module Digits {
  import opened Prelude

  function Digit(n: int): Byte
    requires 0 <= n < 10
  {
    (48 + n) as Byte
  }

  function Decimal(n: nat): Bytes {
    if n < 10 then [Digit(n)] else Decimal(n / 10) + [Digit(n % 10)]
  }

  predicate IsDigit(b: Byte) {
    48 <= b <= 57
  }

  predicate AllDigits(text: Bytes) {
    forall i :: 0 <= i < |text| ==> IsDigit(text[i])
  }

  function Value(text: Bytes): (n: nat)
    requires AllDigits(text)
  {
    if text == [] then 0 else 10 * Value(text[..|text|-1]) + (text[|text|-1] as int - 48)
  }
}
