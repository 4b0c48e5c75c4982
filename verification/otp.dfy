/** `generateOTP` of server/index.js: `Math.floor(100000 + Math.random() * 900000).toString()`.
    The random draw is a parameter: a fraction `num / den` in [0, 1). */
module Otp {

  const OTP_LOW: nat := 100000
  const OTP_SPAN: nat := 900000
  const OTP_LENGTH: nat := 6

  /** The value `Math.random()` returned, as the exact fraction `num / den`. */
  datatype Draw = Draw(num: nat, den: nat)

  /** `Math.random()` always lies in [0, 1). */
  predicate ValidDraw(d: Draw) {
    d.den > 0 && d.num < d.den
  }

  /** `Math.floor(100000 + r * 900000)` for the draw `r`. */
  function OtpValue(d: Draw): (v: nat)
    requires ValidDraw(d)
    ensures OTP_LOW <= v < OTP_LOW + OTP_SPAN
  {
    DivBelow(d.num * OTP_SPAN, OTP_SPAN, d.den);
    OTP_LOW + (d.num * OTP_SPAN) / d.den
  }

  /** A quotient stays below `b` when the dividend stays below `b` times the divisor. */
  lemma DivBelow(a: nat, b: nat, d: nat)
    requires d > 0 && a < b * d
    ensures a / d < b
  {
    var q := a / d;
    assert q * d <= a;
    MulCancel(q, b, d);
  }

  /** Every code in the range comes out of some draw. */
  lemma EveryCodeReachable(v: nat)
    requires OTP_LOW <= v < OTP_LOW + OTP_SPAN
    ensures OtpValue(Draw(v - OTP_LOW, OTP_SPAN)) == v
  {
  }

  /** A larger draw never gives a smaller code. */
  lemma {:induction false} OtpValueMonotone(d1: Draw, d2: Draw)
    requires ValidDraw(d1) && ValidDraw(d2) && d1.den == d2.den && d1.num <= d2.num
    ensures OtpValue(d1) <= OtpValue(d2)
  {
    var n1, n2 := d1.num * OTP_SPAN, d2.num * OTP_SPAN;
    assert n1 <= n2;
    DivMonotone(n1, n2, d1.den);
  }

  lemma DivMonotone(a: nat, b: nat, d: nat)
    requires a <= b && d > 0
    ensures a / d <= b / d
  {
    var qa, qb := a / d, b / d;
    assert qa * d <= a;
    assert b < (qb + 1) * d;
    MulCancel(qa, qb + 1, d);
  }

  lemma MulCancel(x: nat, y: nat, d: nat)
    requires d > 0 && x * d < y * d
    ensures x < y
  {
  }

  function Pow10(k: nat): (p: nat)
    ensures p >= 1
  {
    if k == 0 then 1 else 10 * Pow10(k - 1)
  }

  function DigitChar(d: nat): (c: char)
    requires d < 10
    ensures '0' <= c <= '9'
  {
    ('0' as int + d) as char
  }

  predicate IsDigit(c: char) {
    '0' <= c <= '9'
  }

  function DigitValue(c: char): (d: nat)
    requires IsDigit(c)
    ensures d < 10
  {
    c as int - '0' as int
  }

  /** `n.toString()` for a non-negative integer. */
  function DecimalString(n: nat): (s: string)
    ensures |s| >= 1
    ensures forall i :: 0 <= i < |s| ==> IsDigit(s[i])
  {
    if n < 10 then [DigitChar(n)] else DecimalString(n / 10) + [DigitChar(n % 10)]
  }

  /** The value of a string of decimal digits (what `parseInt` reads back). */
  function ParseDecimal(s: string): nat
    requires forall i :: 0 <= i < |s| ==> IsDigit(s[i])
  {
    if s == [] then 0 else ParseDecimal(s[..|s| - 1]) * 10 + DigitValue(s[|s| - 1])
  }

  /** Reading back the decimal string gives the number. */
  lemma {:induction false} ParseDecimalString(n: nat)
    ensures ParseDecimal(DecimalString(n)) == n
  {
    var s := DecimalString(n);
    if n >= 10 {
      ParseDecimalString(n / 10);
      assert s[..|s| - 1] == DecimalString(n / 10);
    }
  }

  /** A number with exactly `k` digits is printed with `k` characters and no leading zero. */
  lemma {:induction false} DecimalStringLength(n: nat, k: nat)
    requires k >= 1 && Pow10(k - 1) <= n < Pow10(k)
    ensures |DecimalString(n)| == k
    ensures k > 1 ==> DecimalString(n)[0] != '0'
  {
    if k > 1 {
      assert n >= 10;
      assert Pow10(k - 2) <= n / 10 < Pow10(k - 1);
      DecimalStringLength(n / 10, k - 1);
      assert DecimalString(n)[0] == DecimalString(n / 10)[0];
      if k == 2 {
        assert DecimalString(n / 10)[0] == DigitChar(n / 10);
      }
    }
  }

  /** `generateOTP()`: a six-character decimal code between 100000 and 999999. */
  function GenerateOtp(d: Draw): (code: string)
    requires ValidDraw(d)
    ensures |code| == OTP_LENGTH
    ensures forall i :: 0 <= i < |code| ==> IsDigit(code[i])
    ensures code[0] != '0'
    ensures OTP_LOW <= ParseDecimal(code) < OTP_LOW + OTP_SPAN
  {
    var v := OtpValue(d);
    assert Pow10(5) == OTP_LOW && Pow10(6) == OTP_LOW + OTP_SPAN;
    DecimalStringLength(v, OTP_LENGTH);
    ParseDecimalString(v);
    DecimalString(v)
  }

  /** Two draws give the same code exactly when they give the same value. */
  lemma GenerateOtpInjective(d1: Draw, d2: Draw)
    requires ValidDraw(d1) && ValidDraw(d2)
    ensures GenerateOtp(d1) == GenerateOtp(d2) <==> OtpValue(d1) == OtpValue(d2)
  {
    ParseDecimalString(OtpValue(d1));
    ParseDecimalString(OtpValue(d2));
  }
}
