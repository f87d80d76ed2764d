/**
 The string operations the request helpers use: `str.rstrip` and `str.lstrip`
 with a single character, `str()` of an integer, and `int()` of a float
 (truncation toward zero), which together turn a clock reading into the
 `timestamp` parameter.
 */
module Text {
  import opened PyData

  /** `s.rstrip(c)`: `s` without its run of trailing `c` characters. */
  function RStrip(s: string, c: char): (r: string)
    ensures |r| <= |s| && r == s[..|r|]
    ensures r == [] || r[|r| - 1] != c
    ensures forall i :: |r| <= i < |s| ==> s[i] == c
  {
    if |s| > 0 && s[|s| - 1] == c then RStrip(s[..|s| - 1], c) else s
  }

  /** `s.lstrip(c)`: `s` without its run of leading `c` characters. */
  function LStrip(s: string, c: char): (r: string)
    ensures |r| <= |s| && r == s[|s| - |r|..]
    ensures r == [] || r[0] != c
    ensures forall i :: 0 <= i < |s| - |r| ==> s[i] == c
  {
    if |s| > 0 && s[0] == c then LStrip(s[1..], c) else s
  }

  predicate IsDigit(c: char) {
    '0' <= c <= '9'
  }

  function DigitChar(d: nat): (c: char)
    requires d < 10
    ensures IsDigit(c)
  {
    ('0' as int + d) as char
  }

  /** `str(n)` for a non-negative integer: decimal digits, no leading zero. */
  function NatToDecimal(n: nat): (r: string)
    ensures |r| >= 1
    ensures forall i :: 0 <= i < |r| ==> IsDigit(r[i])
    ensures r[0] == '0' ==> n == 0 && r == "0"
  {
    if n < 10 then [DigitChar(n)] else NatToDecimal(n / 10) + [DigitChar(n % 10)]
  }

  /** `str(i)` for any integer: a minus sign before the digits of a negative
      number. */
  function IntToDecimal(i: int): (r: string)
    ensures |r| >= 1 && (r[0] == '-' <==> i < 0)
  {
    if i < 0 then "-" + NatToDecimal(-i) else NatToDecimal(i)
  }

  /** The value of a string of decimal digits. */
  function DigitsValue(s: string): nat
    requires forall i :: 0 <= i < |s| ==> IsDigit(s[i])
  {
    if s == [] then 0
    else
      assert IsDigit(s[|s| - 1]);
      DigitsValue(s[..|s| - 1]) * 10 + (s[|s| - 1] as int - '0' as int)
  }

  /** Reads back an optionally signed decimal integer; the reference the
      formatting above is checked against. */
  function ParseDecimal(s: string): Option<int> {
    if |s| > 0 && s[0] == '-' then
      var digits := s[1..];
      if |digits| > 0 && forall i :: 0 <= i < |digits| ==> IsDigit(digits[i])
      then Some(0 - DigitsValue(digits) as int) else None
    else if |s| > 0 && forall i :: 0 <= i < |s| ==> IsDigit(s[i])
    then Some(DigitsValue(s)) else None
  }

  lemma {:induction false} NatToDecimalValue(n: nat)
    ensures DigitsValue(NatToDecimal(n)) == n
  {
    if n >= 10 {
      NatToDecimalValue(n / 10);
      var r := NatToDecimal(n);
      assert r[..|r| - 1] == NatToDecimal(n / 10);
    }
  }

  /** `str` of an integer reads back as that integer, so distinct integers
      have distinct decimal strings. */
  lemma IntToDecimalRoundTrip(i: int)
    ensures ParseDecimal(IntToDecimal(i)) == Some(i)
  {
    if i < 0 {
      var digits := NatToDecimal(-i);
      NatToDecimalValue(-i);
      assert IntToDecimal(i)[1..] == digits;
      assert ParseDecimal(IntToDecimal(i)) == Some(0 - DigitsValue(digits) as int);
    } else {
      var digits := NatToDecimal(i);
      NatToDecimalValue(i);
      assert IsDigit(digits[0]);
      assert ParseDecimal(digits) == Some(DigitsValue(digits) as int);
    }
  }

  lemma IntToDecimalInjective(i: int, j: int)
    requires IntToDecimal(i) == IntToDecimal(j)
    ensures i == j
  {
    IntToDecimalRoundTrip(i);
    IntToDecimalRoundTrip(j);
  }

  /** `int(t)` for a float: the integer part, rounding toward zero. */
  function TruncateTowardZero(t: real): (r: int)
    ensures t >= 0.0 ==> 0 <= r && r as real <= t < r as real + 1.0
    ensures t < 0.0 ==> r <= 0 && r as real - 1.0 < t <= r as real
  {
    if t >= 0.0 then t.Floor else -((-t).Floor)
  }

  /** `str(int(datetime.timestamp(now)))`: the whole Unix seconds of a clock
      reading, as a decimal string. */
  function TimestampString(now: real): (ts: string)
    ensures ParseDecimal(ts) == Some(TruncateTowardZero(now))
  {
    IntToDecimalRoundTrip(TruncateTowardZero(now));
    IntToDecimal(TruncateTowardZero(now))
  }
}
