/** Lengths of time in microseconds, and numbers in decimal. */
module Units {
  const SECOND := 1000000
  const MINUTE := 60 * SECOND
  const HOUR := 60 * MINUTE
  const DAY := 24 * HOUR

  function Digit(n: int): char
    requires 0 <= n < 10
  {
    ('0' as int + n) as char
  }

  /** Decimal digits without padding. */
  function Decimal(n: nat): string {
    if n < 10 then [Digit(n)] else Decimal(n / 10) + [Digit(n % 10)]
  }

  function DigitValue(c: char): int {
    c as int - '0' as int
  }

  predicate IsDigit(c: char) {
    '0' <= c <= '9'
  }

  function Value(s: string): int {
    if s == "" then 0 else Value(s[..|s| - 1]) * 10 + DigitValue(s[|s| - 1])
  }

  /** Digits without a leading zero. */
  predicate PlainDigits(s: string) {
    s != "" && (forall i :: 0 <= i < |s| ==> IsDigit(s[i])) && (s[0] == '0' ==> |s| == 1)
  }

  /** The text reads as this number: an optional minus sign and plain digits. */
  predicate ReadsAs(s: string, n: int) {
    if n < 0 then s != "" && s[0] == '-' && PlainDigits(s[1..]) && Value(s[1..]) == -n
    else PlainDigits(s) && Value(s) == n
  }

  lemma {:induction false} DecimalReads(n: nat)
    ensures PlainDigits(Decimal(n)) && Value(Decimal(n)) == n && (n > 0 ==> Decimal(n)[0] != '0')
  {
    if n >= 10 {
      DecimalReads(n / 10);
      assert Decimal(n)[..|Decimal(n)| - 1] == Decimal(n / 10);
    } else {
      assert [Digit(n)][..0] == "";
    }
  }

  lemma {:induction false} ReadsDecimal(s: string)
    requires PlainDigits(s)
    ensures Value(s) >= 0 && Decimal(Value(s)) == s && (s[0] != '0' ==> Value(s) > 0)
  {
    var n := |s| - 1;
    var d := DigitValue(s[n]);
    assert IsDigit(s[n]);
    if n == 0 {
      assert s[..0] == "";
    } else {
      ReadsDecimal(s[..n]);
      var v := Value(s[..n]);
      assert Value(s) == v * 10 + d;
      assert (v * 10 + d) / 10 == v && (v * 10 + d) % 10 == d;
      assert s == s[..n] + [s[n]];
    }
  }
}
