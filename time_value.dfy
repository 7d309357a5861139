/** The (hours, minutes, seconds) record the source takes from time.h, and the MM:SS
    text the time entry redraws (src/main.cpp:234-249). The record's own methods are
    not part of this model; see Device for its decrement. */
module TimeValue {

  datatype Time = Time(hours: int, minutes: int, seconds: int)

  /** Largest value of the minutes and of the seconds field. */
  const MAX_FIELD: nat := 59

  predicate InRange(t: Time)
  {
    0 <= t.minutes <= MAX_FIELD && 0 <= t.seconds <= MAX_FIELD
  }

  /** The countdown's end test: both minutes and seconds are 0 (src/main.cpp:373). */
  predicate IsZero(t: Time)
  {
    t.minutes == 0 && t.seconds == 0
  }

  function DigitChar(d: nat): char
    requires d <= 9
  {
    ('0' as int + d) as char
  }

  predicate IsDigitChar(c: char)
  {
    '0' <= c <= '9'
  }

  function DigitValue(c: char): int
  {
    c as int - '0' as int
  }

  /** What `print(n)` writes for a non-negative number: its decimal digits. */
  function Decimal(n: nat): string
    decreases n
  {
    if n < 10 then [DigitChar(n)] else Decimal(n / 10) + [DigitChar(n % 10)]
  }

  /** A two-character field read back as a number. */
  function ReadTwo(s: string): int
    requires |s| == 2
  {
    10 * DigitValue(s[0]) + DigitValue(s[1])
  }

  /** One field as the redraw prints it: a '0' first when the value is below 10. */
  function Padded(n: nat): (s: string)
    requires n < 100
    ensures |s| == 2 && IsDigitChar(s[0]) && IsDigitChar(s[1])
    ensures ReadTwo(s) == n
    ensures s[0] == '0' <==> n < 10
  {
    if n < 10 then "0" + Decimal(n)
    else
      assert Decimal(n / 10) == [DigitChar(n / 10)];
      assert Decimal(n) == [DigitChar(n / 10), DigitChar(n % 10)];
      Decimal(n)
  }

  /** The whole redraw: minutes, ':' and seconds, each padded to two digits. */
  function Render(minutes: nat, seconds: nat): (s: string)
    requires minutes < 100 && seconds < 100
    ensures |s| == 5 && s[2] == ':'
    ensures forall i :: 0 <= i < 5 && i != 2 ==> IsDigitChar(s[i])
    ensures ReadTwo(s[..2]) == minutes && ReadTwo(s[3..]) == seconds
    ensures s[0] == '0' <==> minutes < 10
    ensures s[3] == '0' <==> seconds < 10
  {
    Padded(minutes) + ":" + Padded(seconds)
  }
}
