/** Decimal notation of natural numbers. */
module Digits {
  predicate IsDigit(c: char) { '0' <= c <= '9' }

  predicate AllDigits(text: string)
  {
    forall i :: 0 <= i < |text| ==> IsDigit(text[i])
  }

  function Value(digits: string): nat
    requires AllDigits(digits)
  {
    if digits == "" then 0
    else 10 * Value(digits[..|digits| - 1]) + (digits[|digits| - 1] - '0') as int
  }

  function Decimal(n: nat): string
  {
    var last := ['0' + (n % 10) as char];
    if n < 10 then last else Decimal(n / 10) + last
  }

  lemma {:induction false} DecimalReads(n: nat)
    ensures Decimal(n) != "" && AllDigits(Decimal(n)) && Value(Decimal(n)) == n
    decreases n
  {
    var text := Decimal(n);
    var last := '0' + (n % 10) as char;
    if n < 10 {
      assert text[..0] == "" && Value(text[..0]) == 0;
    } else {
      DecimalReads(n / 10);
      assert text[..|text| - 1] == Decimal(n / 10);
    }
  }

  function PowerOfTen(n: nat): nat
  {
    if n == 0 then 1 else 10 * PowerOfTen(n - 1)
  }

  lemma {:induction false} DecimalLength(n: nat, width: nat)
    requires width >= 1 && n < PowerOfTen(width)
    ensures |Decimal(n)| <= width
    decreases width
  {
    if n >= 10 {
      assert width > 1 by {
        assert PowerOfTen(1) == 10 * PowerOfTen(0);
      }
      DecimalLength(n / 10, width - 1);
    }
  }

  /** Different numbers have different notations. */
  lemma {:induction false} DecimalInjective(m: nat, n: nat)
    requires Decimal(m) == Decimal(n)
    ensures m == n
  {
    DecimalReads(m);
    DecimalReads(n);
  }
}
