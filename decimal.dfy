/** Decimal text of integers: Python's `str(n)` and `int(s)`, and the digit
    arithmetic that relates a decimal string to its value. */
module Decimal {
  import opened Wrappers
  import Text

  function Pow10(k: nat): (r: nat)
    ensures r >= 1
  {
    if k == 0 then 1 else 10 * Pow10(k - 1)
  }

  predicate IsDigit(c: char) { '0' <= c <= '9' }

  predicate AllDigits(s: string) { forall i :: 0 <= i < |s| ==> IsDigit(s[i]) }

  function DigitValue(c: char): (d: nat)
    requires IsDigit(c)
    ensures d < 10
  {
    c as int - '0' as int
  }

  function DigitChar(d: nat): (c: char)
    requires d < 10
    ensures IsDigit(c) && DigitValue(c) == d
  {
    ('0' as int + d) as char
  }

  /** `str(n)` for n >= 0: nonempty, digits only, no leading zero. */
  function NatToString(n: nat): (s: string)
    ensures |s| >= 1 && AllDigits(s)
    ensures |s| > 1 ==> s[0] != '0'
  {
    if n < 10 then [DigitChar(n)] else NatToString(n / 10) + [DigitChar(n % 10)]
  }

  /** `str(n)`: a minus sign before the digits of |n| when n is negative. */
  function IntToString(n: int): string {
    if n < 0 then "-" + NatToString(-n) else NatToString(n)
  }

  /** The value of a string of decimal digits, most significant first. */
  function DigitsValue(s: string): nat
    requires AllDigits(s)
  {
    if s == [] then 0 else 10 * DigitsValue(s[..|s| - 1]) + DigitValue(s[|s| - 1])
  }

  lemma {:induction false} NatToStringValue(n: nat)
    ensures DigitsValue(NatToString(n)) == n
  {
    if n >= 10 {
      NatToStringValue(n / 10);
      var s := NatToString(n);
      assert s[..|s| - 1] == NatToString(n / 10);
    }
  }

  /** The number of decimal digits of n is the least k with n < 10^k. */
  lemma {:induction false} NatToStringLength(n: nat)
    ensures n < Pow10(|NatToString(n)|)
    ensures |NatToString(n)| > 1 ==> Pow10(|NatToString(n)| - 1) <= n
  {
    if n >= 10 {
      NatToStringLength(n / 10);
    }
  }

  /** Reading the k-th digit from the right of `str(n)` is `n // 10^k % 10`. */
  lemma {:induction false} NatToStringDigit(n: nat, k: nat)
    requires k < |NatToString(n)|
    ensures NatToString(n)[|NatToString(n)| - 1 - k] == DigitChar(n / Pow10(k) % 10)
  {
    if n >= 10 && k > 0 {
      NatToStringDigit(n / 10, k - 1);
      DivDiv(n, 10, Pow10(k - 1));
    }
  }

  /** Beyond the digits of n every decimal digit is zero. */
  lemma NatBeyondDigits(n: nat, k: nat)
    requires k >= |NatToString(n)|
    ensures n / Pow10(k) == 0
  {
    NatToStringLength(n);
    Pow10Monotone(|NatToString(n)|, k);
    DivUnique(n, Pow10(k), 0, n);
  }

  lemma {:induction false} Pow10Monotone(i: nat, j: nat)
    requires i <= j
    ensures Pow10(i) <= Pow10(j)
  {
    if i < j {
      Pow10Monotone(i, j - 1);
    }
  }

  lemma MulMonotone(d: int, x: int, y: int)
    requires d >= 0 && x <= y
    ensures d * x <= d * y
  {
    var e := y - x;
    assert d * y == d * x + d * e;
  }

  lemma MulStep(d: int, x: int, y: int)
    requires d >= 0 && x < y
    ensures d * x + d <= d * y
  {
    MulMonotone(d, x + 1, y);
    assert d * (x + 1) == d * x + d;
  }

  lemma DivUnique(a: int, d: int, q: int, r: int)
    requires d > 0 && 0 <= r < d && a == d * q + r
    ensures a / d == q && a % d == r
  {
    var q0, r0 := a / d, a % d;
    assert a == d * q0 + r0;
    if q0 > q {
      MulStep(d, q, q0);
    } else if q0 < q {
      MulStep(d, q0, q);
    }
  }

  lemma DivDiv(a: nat, b: nat, c: nat)
    requires b > 0 && c > 0
    ensures a / b / c == a / (b * c)
  {
    var q1, r1 := a / b, a % b;
    var q2, r2 := q1 / c, q1 % c;
    assert a == b * q1 + r1;
    assert q1 == c * q2 + r2;
    assert b * q1 == b * (c * q2) + b * r2;
    assert b * (c * q2) == (b * c) * q2;
    MulMonotone(b, r2, c - 1);
    assert b * (c - 1) == b * c - b;
    DivUnique(a, b * c, q2, b * r2 + r1);
  }

  /** Python's `int(s)` on the forms this code meets: surrounding whitespace,
      an optional sign and at least one decimal digit. */
  function ParseInt(s: string): (r: Option<int>)
  {
    var t := Text.Strip(s);
    if |t| > 0 && (t[0] == '-' || t[0] == '+') then
      (if |t| > 1 && AllDigits(t[1..])
       then var v: int := DigitsValue(t[1..]); Some(if t[0] == '-' then -v else v)
       else None)
    else if |t| > 0 && AllDigits(t) then Some(DigitsValue(t))
    else None
  }

  /** `int(str(n)) == n`. */
  lemma ParseIntToString(n: int)
    ensures ParseInt(IntToString(n)) == Some(n)
  {
    var s := IntToString(n);
    NoWhitespaceStrip(s);
    if n < 0 {
      NatToStringValue(-n);
      assert s[1..] == NatToString(-n);
    } else {
      NatToStringValue(n);
    }
  }

  lemma NoWhitespaceStrip(s: string)
    requires |s| > 0 && (s[0] == '-' || IsDigit(s[0])) && IsDigit(s[|s| - 1])
    ensures Text.Strip(s) == s
  {
    assert !Text.IsPyWhitespace(s[|s| - 1]);
    assert Text.RStrip(s) == s;
    assert !Text.IsPyWhitespace(s[0]);
    assert Text.LStrip(s) == s;
  }
}
