/** Decimal text as `printf("%d")` and `printf("%03d")` write it, with
    the reading-back function that makes the round trip statable. */
module Text {
  import opened CArith

  predicate IsDigit(c: char) { '0' <= c <= '9' }

  predicate AllDigits(s: string) { forall i :: 0 <= i < |s| ==> IsDigit(s[i]) }

  function DigitChar(d: int): (c: char)
    requires 0 <= d < 10
    ensures IsDigit(c) && c as int - '0' as int == d
  {
    (d + '0' as int) as char
  }

  function DigitValue(c: char): (d: int)
    requires IsDigit(c)
    ensures 0 <= d < 10 && DigitChar(d) == c
  {
    c as int - '0' as int
  }

  /** `%d` of a non-negative number: no leading zeros, at least one digit. */
  function NatToDecimal(n: nat): (s: string)
    ensures |s| >= 1 && AllDigits(s)
    ensures |s| > 1 ==> s[0] != '0'
  {
    if n < 10 then [DigitChar(n)] else NatToDecimal(n / 10) + [DigitChar(n % 10)]
  }

  /** `%d` of any int. */
  function IntToDecimal(n: int): (s: string)
    ensures n < 0 <==> (|s| > 0 && s[0] == '-')
  {
    if n < 0 then "-" + NatToDecimal(-n) else NatToDecimal(n)
  }

  /** `%03d` of a number below 1000: exactly three digits. */
  function ZeroPad3(n: nat): (s: string)
    requires n < 1000
    ensures |s| == 3 && AllDigits(s)
    ensures DecimalValue(s) == n
  {
    var q := n / 10;
    EuclidNat(n, 10);
    EuclidNat(q, 10);
    var a, b, c := q / 10, q % 10, n % 10;
    var s := [DigitChar(a), DigitChar(b), DigitChar(c)];
    var s1, s2 := s[..1], s[..2];
    assert s1[..0] == [] && s2[..1] == s1 && s[..2] == s2;
    assert DecimalValue(s1) == a;
    assert DecimalValue(s2) == a * 10 + b;
    assert a * 100 + b * 10 + c == n;
    s
  }

  /** The number a string of decimal digits denotes. */
  function DecimalValue(s: string): nat
    requires AllDigits(s)
  {
    if s == [] then 0 else DecimalValue(s[..|s| - 1]) * 10 + DigitValue(s[|s| - 1])
  }

  lemma {:induction false} DecimalRoundTrip(n: nat)
    ensures DecimalValue(NatToDecimal(n)) == n
  {
    var s := NatToDecimal(n);
    if n >= 10 {
      DecimalRoundTrip(n / 10);
      assert s[..|s| - 1] == NatToDecimal(n / 10);
    }
  }

  lemma {:induction false} DecimalInjective(a: nat, b: nat)
    requires NatToDecimal(a) == NatToDecimal(b)
    ensures a == b
  {
    DecimalRoundTrip(a);
    DecimalRoundTrip(b);
  }
}
