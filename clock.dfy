/** Times of day as `HH:mm` text and as minutes since midnight. */
module Clock {
  import opened Digits

  predicate IsClockText(c: string) {
    && |c| == 5
    && IsDigit(c[0]) && IsDigit(c[1]) && c[2] == ':' && IsDigit(c[3]) && IsDigit(c[4])
    && DigitValue(c[0]) * 10 + DigitValue(c[1]) < 24
    && DigitValue(c[3]) * 10 + DigitValue(c[4]) < 60
  }

  /** `const [h, m] = c.split(':').map(Number); h * 60 + m` on well-formed text. */
  function ClockMinutes(c: string): (m: int)
    requires IsClockText(c)
    ensures 0 <= m < 24 * 60
  {
    (DigitValue(c[0]) * 10 + DigitValue(c[1])) * 60 + DigitValue(c[3]) * 10 + DigitValue(c[4])
  }

  /** The `HH:mm` text of a time of day. */
  function FormatClock(m: int): string
    requires 0 <= m < 24 * 60
  {
    Pad2(m / 60) + ":" + Pad2(m % 60)
  }

  lemma Pad2Digits(n: nat)
    requires n < 100
    ensures Pad2(n) == [DigitChar(n / 10), DigitChar(n % 10)]
  {
    if n < 10 {
      assert NatToString(n) == [DigitChar(n)];
      assert Pad2(n) == ['0'] + [DigitChar(n)];
    } else {
      assert NatToString(n / 10) == [DigitChar(n / 10)];
      assert NatToString(n) == [DigitChar(n / 10), DigitChar(n % 10)];
    }
  }

  /** Formatting a time of day and reading it back gives the same minutes. */
  lemma FormatThenRead(m: int)
    requires 0 <= m < 24 * 60
    ensures IsClockText(FormatClock(m)) && ClockMinutes(FormatClock(m)) == m
  {
    Pad2Digits(m / 60);
    Pad2Digits(m % 60);
  }

  lemma DivModBy(q: int, r: int, k: int)
    requires k == 10 || k == 60
    requires 0 <= r < k
    ensures (q * k + r) / k == q && (q * k + r) % k == r
  {
  }

  lemma DigitRoundTrip(c: char)
    requires IsDigit(c)
    ensures DigitChar(DigitValue(c)) == c
  {
  }

  /** The text of a time of day is its four digits around a colon. */
  lemma FormatClockChars(m: int)
    requires 0 <= m < 24 * 60
    ensures FormatClock(m) == [DigitChar(m / 60 / 10), DigitChar(m / 60 % 10), ':', DigitChar(m % 60 / 10), DigitChar(m % 60 % 10)]
  {
    Pad2Digits(m / 60);
    Pad2Digits(m % 60);
  }

  /** Clock text is its two digit pairs around the colon. */
  lemma ClockTextParts(c: string)
    requires IsClockText(c)
    ensures c == [c[0], c[1]] + ":" + [c[3], c[4]]
  {
  }

  /** Reading well-formed text and formatting it again gives the same text. */
  lemma ReadThenFormat(c: string)
    requires IsClockText(c)
    ensures FormatClock(ClockMinutes(c)) == c
  {
    FormatClockText(c);
    ClockTextParts(c);
  }

  /** Formatting the minutes read from clock text gives its two digit pairs around a colon. */
  lemma FormatClockText(c: string)
    requires IsClockText(c)
    ensures FormatClock(ClockMinutes(c)) == [c[0], c[1]] + ":" + [c[3], c[4]]
  {
    FormatDigitPairs(c[0], c[1], c[3], c[4], ClockMinutes(c));
  }

  /** The text of the time `m` written with digits `a b : x y` is those digits. */
  lemma FormatDigitPairs(a: char, b: char, x: char, y: char, m: int)
    requires IsDigit(a) && IsDigit(b) && IsDigit(x) && IsDigit(y)
    requires DigitValue(a) * 10 + DigitValue(b) < 24 && DigitValue(x) * 10 + DigitValue(y) < 60
    requires m == (DigitValue(a) * 10 + DigitValue(b)) * 60 + DigitValue(x) * 10 + DigitValue(y)
    ensures FormatClock(m) == [a, b] + ":" + [x, y]
  {
    DivModOf(m, DigitValue(a) * 10 + DigitValue(b), DigitValue(x) * 10 + DigitValue(y), 60);
    DivModOf(m / 60, DigitValue(a), DigitValue(b), 10);
    DivModOf(m % 60, DigitValue(x), DigitValue(y), 10);
    FormatClockChars(m);
    DigitRoundTrip(a);
    DigitRoundTrip(b);
    DigitRoundTrip(x);
    DigitRoundTrip(y);
  }

  lemma DivModOf(n: int, q: int, r: int, k: int)
    requires k == 10 || k == 60
    requires 0 <= r < k && n == q * k + r
    ensures n / k == q && n % k == r
  {
    DivModBy(q, r, k);
  }
}
