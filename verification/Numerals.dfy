/** Printing natural numbers in octal and decimal, and reading the latter back. */
module Numerals {

  function DigitChar(d: nat): (c: char)
    requires d < 10
    ensures '0' <= c <= '9' && c as int == '0' as int + d
  {
    ('0' as int + d) as char
  }

  /** The digits of `n`, most significant first, without leading zeros. */
  function Digits(n: nat, base: nat): (s: string)
    requires base == 8 || base == 10
    ensures |s| >= 1 && forall i :: 0 <= i < |s| ==> '0' <= s[i] && s[i] as int < '0' as int + base
  {
    if n < base then [DigitChar(n)]
    else
      assert n / base < n;
      Digits(n / base, base) + [DigitChar(n % base)]
  }

  /** The number a string of decimal digits stands for. */
  function Value(s: string): nat
    requires forall i :: 0 <= i < |s| ==> '0' <= s[i]
  {
    if s == "" then 0 else Value(s[..|s| - 1]) * 10 + (s[|s| - 1] as int - '0' as int)
  }

  /** Reading back printed digits gives the number. */
  lemma {:induction false} ValueOfDigits(n: nat)
    ensures Value(Digits(n, 10)) == n
  {
    var s := Digits(n, 10);
    if n >= 10 {
      ValueOfDigits(n / 10);
      assert s[..|s| - 1] == Digits(n / 10, 10);
    } else {
      assert s[..|s| - 1] == "";
    }
  }

  /** fmt's %d */
  function Decimal(i: int): string {
    if i < 0 then "-" + Digits(-i, 10) else Digits(i, 10)
  }

  lemma DecimalInjective(i: int, j: int)
    requires Decimal(i) == Decimal(j)
    ensures i == j
  {
    if i < 0 {
      assert Decimal(i)[0] == '-';
      assert Decimal(i)[1..] == Digits(-i, 10);
    }
    if j < 0 {
      assert Decimal(j)[0] == '-';
      assert Decimal(j)[1..] == Digits(-j, 10);
    }
    ValueOfDigits(if i < 0 then -i else i);
    ValueOfDigits(if j < 0 then -j else j);
  }

  lemma DecimalHasNoDot(i: int)
    ensures '.' !in Decimal(i)
  {
  }
}
