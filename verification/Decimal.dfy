/**
 * Decimal text of natural numbers: writing a number and reading one, and that the first undoes the
 * second.
 *
 * Retry delays read header lines with it, and the JSON printers write integers.
 */
module Decimal {
  predicate IsDigit(c: char) { '0' <= c <= '9' }

  predicate AllDigits(text: string) { forall c :: c in text ==> IsDigit(c) }

  function NatText(n: nat): (r: string)
    ensures |r| >= 1
  {
    if n < 10 then [('0' as int + n) as char] else NatText(n / 10) + [('0' as int + n % 10) as char]
  }

  /** The number a text of digits denotes. */
  function NatValue(text: string): (r: int)
    ensures AllDigits(text) ==> r >= 0
  {
    if |text| == 0 then 0
    else
      assert AllDigits(text) ==> IsDigit(text[|text| - 1]) && AllDigits(text[..|text| - 1]);
      10 * NatValue(text[..|text| - 1]) + (text[|text| - 1] as int - '0' as int)
  }

  lemma {:induction false} NatTextValue(n: nat)
    ensures |NatText(n)| > 0 && AllDigits(NatText(n))
    ensures NatValue(NatText(n)) == n
  {
    var text := NatText(n);
    if n >= 10 {
      NatTextValue(n / 10);
      assert text[..|text| - 1] == NatText(n / 10);
    } else {
      assert text[..0] == "";
    }
  }

  function Pow10(k: nat): nat { if k == 0 then 1 else 10 * Pow10(k - 1) }

  /** A number is below a power of ten exactly when it has no more digits than the power has zeros. */
  lemma {:induction false} NatTextLength(n: nat, k: nat)
    requires k >= 1
    ensures |NatText(n)| <= k <==> n < Pow10(k)
  {
    assert Pow10(1) == 10 * Pow10(0) == 10;
    if k > 1 {
      Pow10Grows(1, k);
      if n >= 10 {
        NatTextLength(n / 10, k - 1);
      }
    } else if n >= 10 {
      assert |NatText(n / 10)| >= 1;
    }
  }

  lemma {:induction false} Pow10Grows(j: nat, k: nat)
    requires j <= k
    ensures 1 <= Pow10(j) <= Pow10(k)
  {
    if j < k {
      Pow10Grows(j, k - 1);
    } else if k > 0 {
      Pow10Grows(j - 1, k - 1);
    }
  }
}
