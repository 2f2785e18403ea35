/** Decimal numbers. */
module Decimal {
  function Pow10(n: nat): nat
    ensures Pow10(n) > 0
  {
    if n == 0 then 1 else 10 * Pow10(n - 1)
  }

  function Digit(d: int): char
    requires 0 <= d < 10
  {
    ('0' as int + d) as char
  }

  predicate IsDigit(c: char) {
    '0' <= c <= '9'
  }

  predicate AllDigits(s: string) {
    forall i :: 0 <= i < |s| ==> IsDigit(s[i])
  }

  /** n in decimal, padded with zeros to at least width digits. */
  function Pad(n: nat, width: nat): string
    decreases n, width
  {
    if n == 0 && width == 0 then ""
    else Pad(n / 10, if width > 0 then width - 1 else 0) + [Digit(n % 10)]
  }

  function Number(s: string): nat
    requires AllDigits(s)
  {
    if s == "" then 0 else 10 * Number(s[..|s| - 1]) + (s[|s| - 1] as int - '0' as int)
  }

  lemma {:induction false} PadReadsBack(n: nat, width: nat)
    ensures AllDigits(Pad(n, width)) && Number(Pad(n, width)) == n
    ensures if n < Pow10(width) then |Pad(n, width)| == width else |Pad(n, width)| > width
    decreases n, width
  {
    if n != 0 || width != 0 {
      var w := if width > 0 then width - 1 else 0;
      PadReadsBack(n / 10, w);
      assert Pad(n, width)[..|Pad(n, width)| - 1] == Pad(n / 10, w);
    }
  }

  /** n in decimal, without leading zeros. */
  function Digits(n: int): string
    decreases if n < 0 then 1 - n else n
  {
    if n < 0 then "-" + Digits(-n)
    else if n < 10 then [Digit(n)]
    else Digits(n / 10) + [Digit(n % 10)]
  }

  lemma {:induction false} DigitsReadBack(n: nat)
    ensures var d := Digits(n); d != "" && AllDigits(d) && Number(d) == n && (d[0] == '0' ==> n == 0)
    decreases n
  {
    var d := Digits(n);
    assert d[|d| - 1] == Digit(n % 10) && d[..|d| - 1] == if n < 10 then "" else Digits(n / 10);
    if n >= 10 {
      DigitsReadBack(n / 10);
    } else {
      assert Number("") == 0;
    }
  }
}
