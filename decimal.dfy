/**
 * Decimal text as printed by the C library's `%d`, `%zd`, `%PRId64` and
 * `%0<w>d` conversions, and read back by `%SCNu64`.
 */
module Decimal {

  predicate IsDigit(c: char)
  {
    '0' <= c <= '9'
  }

  predicate AllDigits(s: string)
  {
    forall i :: 0 <= i < |s| ==> IsDigit(s[i])
  }

  function DigitChar(d: nat): (c: char)
    requires d < 10
    ensures IsDigit(c) && DigitValue(c) == d
  {
    ['0', '1', '2', '3', '4', '5', '6', '7', '8', '9'][d]
  }

  function DigitValue(c: char): nat
    requires IsDigit(c)
  {
    c as nat - '0' as nat
  }

  /** The decimal digits of n, without leading zeros ("0" for zero). */
  function Dec(n: nat): (s: string)
  {
    if n < 10 then [DigitChar(n)] else Dec(n / 10) + [DigitChar(n % 10)]
  }

  /** The value of a string of digits, most significant first. */
  function DigitsValue(s: string): nat
    requires AllDigits(s)
  {
    if s == [] then 0 else 10 * DigitsValue(s[..|s| - 1]) + DigitValue(s[|s| - 1])
  }

  /** Printing a number in decimal and reading the digits back gives the number. */
  lemma {:induction false} DecRoundTrip(n: nat)
    ensures |Dec(n)| >= 1 && AllDigits(Dec(n))
    ensures DigitsValue(Dec(n)) == n
    ensures |Dec(n)| > 1 ==> Dec(n)[0] != '0'
  {
    if n >= 10 {
      DecRoundTrip(n / 10);
      var s := Dec(n);
      assert s[..|s| - 1] == Dec(n / 10);
    }
  }

  /** Different numbers have different decimal texts. */
  lemma {:induction false} DecInjective(a: nat, b: nat)
    requires Dec(a) == Dec(b)
    ensures a == b
  {
    DecRoundTrip(a);
    DecRoundTrip(b);
  }

  /** `%d` of a signed integer: a minus sign for negative values. */
  function SignedDec(i: int): string
  {
    if i < 0 then "-" + Dec(-i) else Dec(i)
  }

  /** Reads back the text of `SignedDec`. */
  function SignedValue(s: string): int
    requires |s| >= 1 && AllDigits(if s[0] == '-' then s[1..] else s)
  {
    if s[0] == '-' then -(DigitsValue(s[1..]) as int) else DigitsValue(s)
  }

  lemma {:induction false} SignedDecRoundTrip(i: int)
    ensures |SignedDec(i)| >= 1
    ensures AllDigits(if SignedDec(i)[0] == '-' then SignedDec(i)[1..] else SignedDec(i))
    ensures SignedValue(SignedDec(i)) == i
    ensures SignedDec(i)[0] == '-' <==> i < 0
  {
    if i < 0 {
      var d := Dec(-i);
      DecRoundTrip(-i);
      assert ("-" + d)[0] == '-' && ("-" + d)[1..] == d;
    } else {
      DecRoundTrip(i);
      assert IsDigit(Dec(i)[0]);
    }
  }

  function Zeros(k: nat): (s: string)
    ensures |s| == k
  {
    if k == 0 then "" else Zeros(k - 1) + "0"
  }

  /** Every character of the fill is the digit zero. */
  lemma {:induction false} ZerosDigits(k: nat)
    ensures forall i :: 0 <= i < k ==> Zeros(k)[i] == '0'
  {
    if k > 0 {
      ZerosDigits(k - 1);
      assert forall i :: 0 <= i < k - 1 ==> Zeros(k)[i] == Zeros(k - 1)[i];
    }
  }

  /**
   * `%0<width>d`: the field is at least `width` characters, padded with
   * zeros between the sign and the digits.
   */
  function ZeroPadded(i: int, width: nat): string
  {
    var sign := if i < 0 then "-" else "";
    var digits := Dec(if i < 0 then -i else i);
    var fill := if |sign| + |digits| < width then width - |sign| - |digits| else 0;
    sign + Zeros(fill) + digits
  }

  /** A prefix of zeros does not change the value of a digit string. */
  lemma {:induction false} LeadingZeros(k: nat, s: string)
    requires AllDigits(s)
    ensures AllDigits(Zeros(k) + s) && DigitsValue(Zeros(k) + s) == DigitsValue(s)
  {
    ZerosDigits(k);
    if s != [] {
      var t := Zeros(k) + s;
      assert t[..|t| - 1] == Zeros(k) + s[..|s| - 1];
      LeadingZeros(k, s[..|s| - 1]);
    } else if k > 0 {
      assert Zeros(k) + s == Zeros(k - 1) + "0";
      LeadingZeros(k - 1, s);
      assert Zeros(k - 1) + s == Zeros(k - 1);
    }
  }

  function Pow10(n: nat): (r: nat)
    ensures r >= 1
  {
    if n == 0 then 1 else 10 * Pow10(n - 1)
  }

  /** A number below 10^w has at most w digits. */
  lemma {:induction false} DecLength(n: nat, w: nat)
    requires n < Pow10(w)
    ensures |Dec(n)| <= w || (n == 0 && w == 0)
  {
    if n >= 10 {
      DecLength(n / 10, w - 1);
    }
  }

  /**
   * A non-negative value below 10^width prints as exactly `width` digits
   * whose value is the number.
   */
  lemma {:induction false} ZeroPaddedExact(n: nat, width: nat)
    requires 1 <= width && n < Pow10(width)
    ensures |ZeroPadded(n, width)| == width
    ensures AllDigits(ZeroPadded(n, width)) && DigitsValue(ZeroPadded(n, width)) == n
  {
    DecLength(n, width);
    DecRoundTrip(n);
    var fill := width - |Dec(n)|;
    assert ZeroPadded(n, width) == Zeros(fill) + Dec(n);
    LeadingZeros(fill, Dec(n));
  }
}
