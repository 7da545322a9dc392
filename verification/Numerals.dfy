/** Decimal numerals, printed and read. */
module Numerals {
  import opened Text

  const MAX_INT64 := 0x7FFF_FFFF_FFFF_FFFF

  function Digit(n: nat): (c: char)
    ensures IsDigit(c)
  {
    ('0' as int + n % 10) as char
  }

  /** The last `width` decimal digits. */
  function Digits(n: nat, width: nat): (s: string)
    ensures |s| == width && forall i :: 0 <= i < |s| ==> IsDigit(s[i])
  {
    if width == 0 then "" else Digits(n / 10, width - 1) + [Digit(n)]
  }

  function Decimal(n: nat): string {
    if n < 10 then [Digit(n)] else Decimal(n / 10) + [Digit(n)]
  }

  predicate AllDigits(s: string) { forall i :: 0 <= i < |s| ==> IsDigit(s[i]) }

  /** The number a run of decimal digits spells. */
  function ValueOf(digits: string): nat
    requires AllDigits(digits)
  {
    if digits == "" then 0
    else 10 * ValueOf(digits[..|digits| - 1]) + (digits[|digits| - 1] as int - '0' as int)
  }

  lemma DigitIsItsValue(n: nat)
    ensures Digit(n) as int - '0' as int == n % 10
  {}

  /** One more digit. */
  lemma ValueOfMore(front: string, n: nat)
    requires AllDigits(front)
    ensures AllDigits(front + [Digit(n)]) && ValueOf(front + [Digit(n)]) == 10 * ValueOf(front) + n % 10
  {
    var s := front + [Digit(n)];
    DigitIsItsValue(n);
    assert s[..|s| - 1] == front && s[|s| - 1] == Digit(n);
  }

  lemma {:induction false} DecimalReads(n: nat)
    ensures AllDigits(Decimal(n)) && ValueOf(Decimal(n)) == n && Decimal(n) != ""
    ensures n > 0 ==> Decimal(n)[0] != '0'
  {
    if n < 10 {
      ValueOfMore("", n);
      DigitIsItsValue(n);
      assert "" + [Digit(n)] == Decimal(n);
    } else {
      DecimalReads(n / 10);
      ValueOfMore(Decimal(n / 10), n);
    }
  }

  lemma {:induction false} ReadsDecimal(digits: string)
    requires AllDigits(digits) && digits != "" && digits[0] != '0'
    ensures ValueOf(digits) > 0 && Decimal(ValueOf(digits)) == digits
  {
    var n, last := ValueOf(digits), |digits| - 1;
    assert digits == digits[..last] + [digits[last]];
    assert Digit(n) == digits[last];
    if last > 0 {
      ReadsDecimal(digits[..last]);
      assert n / 10 == ValueOf(digits[..last]);
    }
  }

  function Pow2(n: nat): nat {
    if n == 0 then 1 else 2 * Pow2(n - 1)
  }

  function Pow10(n: nat): (p: nat)
    ensures p > 0
  {
    if n == 0 then 1 else 10 * Pow10(n - 1)
  }

  lemma {:induction false} DigitsRead(n: nat, width: nat)
    requires n < Pow10(width)
    ensures ValueOf(Digits(n, width)) == n
  {
    if width > 0 {
      DigitsRead(n / 10, width - 1);
      ValueOfMore(Digits(n / 10, width - 1), n);
    }
  }

  lemma {:induction false} ReadDigits(digits: string)
    requires AllDigits(digits)
    ensures Digits(ValueOf(digits), |digits|) == digits && ValueOf(digits) < Pow10(|digits|)
  {
    if digits != "" {
      var n, last := ValueOf(digits), |digits| - 1;
      ReadDigits(digits[..last]);
      assert digits == digits[..last] + [digits[last]];
      assert n / 10 == ValueOf(digits[..last]) && Digit(n) == digits[last];
    }
  }

  lemma {:induction false} DecimalDigits(n: nat, k: nat)
    requires k >= 1 && n < Pow10(k)
    ensures |Decimal(n)| <= k
  {
    if n >= 10 {
      assert k >= 2 by { assert Pow10(1) == 10 * Pow10(0) == 10; }
      DecimalDigits(n / 10, k - 1);
    }
  }
}
