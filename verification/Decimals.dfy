/** Decimal rendering of natural numbers, as `%d` and `%04d` print them. */
module Decimals {

  const DIGITS := "0123456789"

  function Decimal(n: nat): (s: string)
    ensures s != ""
  {
    if n < 10 then [DIGITS[n]] else Decimal(n / 10) + [DIGITS[n % 10]]
  }

  function Zeros(k: nat): (s: string)
    ensures |s| == k && forall i :: 0 <= i < k ==> s[i] == '0'
  {
    seq(k, _ => '0')
  }

  function Padded(n: nat, width: nat): string {
    var s := Decimal(n);
    if |s| >= width then s else Zeros(width - |s|) + s
  }

  lemma DigitsDistinct(i: nat, j: nat)
    requires i < 10 && j < 10 && DIGITS[i] == DIGITS[j]
    ensures i == j
  {
    assert forall k: nat :: k < 10 ==> DIGITS[k] as int == '0' as int + k;
    assert DIGITS[i] as int == DIGITS[j] as int;
  }

  /** Different numbers print differently. */
  lemma {:induction false} DecimalInjective(m: nat, n: nat)
    requires Decimal(m) == Decimal(n)
    ensures m == n
  {
    var s, t := Decimal(m), Decimal(n);
    assert s[|s| - 1] == t[|t| - 1];
    assert s[|s| - 1] == DIGITS[m % 10] && t[|t| - 1] == DIGITS[n % 10];
    DigitsDistinct(m % 10, n % 10);
    if m >= 10 && n >= 10 {
      assert s[..|s| - 1] == Decimal(m / 10) && t[..|t| - 1] == Decimal(n / 10);
      DecimalInjective(m / 10, n / 10);
    }
  }

  /** The number that digits stand for. */
  function Value(s: string): int {
    if s == "" then 0 else Value(s[..|s| - 1]) * 10 + (s[|s| - 1] as int - '0' as int)
  }

  predicate AllDigits(s: string) {
    forall c :: c in s ==> '0' <= c <= '9'
  }

  lemma DigitValue(i: nat)
    requires i < 10
    ensures DIGITS[i] as int == '0' as int + i
  {
    assert forall k: nat :: k < 10 ==> DIGITS[k] as int == '0' as int + k;
  }

  /** A number is written in digits that stand for it, without leading zeros. */
  lemma {:induction false} DecimalMeaning(n: nat)
    ensures Value(Decimal(n)) == n && AllDigits(Decimal(n))
    ensures |Decimal(n)| > 1 ==> Decimal(n)[0] != '0'
    ensures Decimal(n)[0] == '0' ==> n == 0
  {
    DigitValue(n % 10);
    if n < 10 {
      assert Decimal(n)[..0] == "";
    } else {
      DecimalMeaning(n / 10);
      var s := Decimal(n);
      assert s[..|s| - 1] == Decimal(n / 10);
    }
  }

  lemma {:induction false} ZerosStandForNothing(k: nat, s: string)
    ensures Value(Zeros(k) + s) == Value(s)
  {
    var t := Zeros(k) + s;
    if s != "" {
      ZerosStandForNothing(k, s[..|s| - 1]);
      assert t[..|t| - 1] == Zeros(k) + s[..|s| - 1];
    } else if k > 0 {
      ZerosStandForNothing(k - 1, "");
      assert t[..|t| - 1] == Zeros(k - 1) + "";
    }
  }

  /** Padding is with zeros on the left, up to the width. */
  lemma PaddedMeaning(n: nat, width: nat)
    ensures Value(Padded(n, width)) == n && AllDigits(Padded(n, width)) && |Padded(n, width)| >= width
    ensures |Padded(n, width)| > width ==> Padded(n, width) == Decimal(n)
  {
    DecimalMeaning(n);
    if |Decimal(n)| < width {
      ZerosStandForNothing(width - |Decimal(n)|, Decimal(n));
    }
  }
}
