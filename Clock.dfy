/** Wall-clock arithmetic in whole minutes, and the zero-padded `HH:MM`
    rendering the slot lists use. An instant `t` lies on day `t / 1440` at
    minute-of-day `t % 1440`; `At(day, m)` is the inverse split. */
module Clock {
  import opened Domain

  const MinutesPerHour: int := 60
  const MinutesPerDay: int := 24 * MinutesPerHour

  function DayOf(t: int): int { t / MinutesPerDay }

  function MinuteOfDay(t: int): (m: int)
    ensures 0 <= m < MinutesPerDay
  {
    t % MinutesPerDay
  }

  /** The instant at minute `m` of `day`. */
  function At(day: int, m: int): int { day * MinutesPerDay + m }

  lemma AtSplits(day: int, m: int)
    requires 0 <= m < MinutesPerDay
    ensures DayOf(At(day, m)) == day && MinuteOfDay(At(day, m)) == m
  {
  }

  lemma SplitJoins(t: int)
    ensures At(DayOf(t), MinuteOfDay(t)) == t
  {
  }

  predicate IsDigit(c: char) { '0' <= c <= '9' }

  function Digit(d: int): (c: char)
    requires 0 <= d < 10
    ensures IsDigit(c) && DigitValue(c) == d
  {
    ('0' as int + d) as char
  }

  function DigitValue(c: char): int { c as int - '0' as int }

  /** `n.toString().padStart(2, '0')` for a two-digit `n`: two decimal
      digits whose value is `n`. */
  function Pad2(n: int): (s: string)
    requires 0 <= n < 100
    ensures |s| == 2 && IsDigit(s[0]) && IsDigit(s[1])
    ensures DigitValue(s[0]) * 10 + DigitValue(s[1]) == n
  {
    [Digit(n / 10), Digit(n % 10)]
  }

  /** The `HH:MM` rendering of a minute of the day. */
  function FormatHHMM(m: int): (s: string)
    requires 0 <= m < MinutesPerDay
    ensures |s| == 5 && s[2] == ':'
  {
    Pad2(m / MinutesPerHour) + ":" + Pad2(m % MinutesPerHour)
  }

  /** Reads an `HH:MM` string back into a minute of the day. */
  function ParseHHMM(s: string): Option<int>
  {
    if |s| == 5 && s[2] == ':' && IsDigit(s[0]) && IsDigit(s[1]) && IsDigit(s[3]) && IsDigit(s[4]) then
      var h := DigitValue(s[0]) * 10 + DigitValue(s[1]);
      var mi := DigitValue(s[3]) * 10 + DigitValue(s[4]);
      if h < 24 && mi < MinutesPerHour then Some(h * MinutesPerHour + mi) else None
    else None
  }

  /** Rendering a minute of the day and reading it back gives the minute. */
  lemma ParseFormat(m: int)
    requires 0 <= m < MinutesPerDay
    ensures ParseHHMM(FormatHHMM(m)) == Some(m)
  {
    var s := FormatHHMM(m);
    var hh, mm := Pad2(m / MinutesPerHour), Pad2(m % MinutesPerHour);
    assert s == hh + ":" + mm;
    assert s[0] == hh[0] && s[1] == hh[1] && s[3] == mm[0] && s[4] == mm[1];
  }

  /** Two minutes of the day with the same rendering are equal, so testing a
      rendered time for membership in a rendered list is testing the minute. */
  lemma FormatInjective(m1: int, m2: int)
    requires 0 <= m1 < MinutesPerDay && 0 <= m2 < MinutesPerDay
    requires FormatHHMM(m1) == FormatHHMM(m2)
    ensures m1 == m2
  {
    ParseFormat(m1);
    ParseFormat(m2);
  }

  /** Padding the hour and the minute separately, as the nested slot loops
      do, is rendering the minute of the day. */
  lemma FormatHourMinute(h: int, mi: int)
    requires 0 <= h < 24 && 0 <= mi < MinutesPerHour
    ensures FormatHHMM(h * MinutesPerHour + mi) == Pad2(h) + ":" + Pad2(mi)
  {
    var m := h * MinutesPerHour + mi;
    assert m / MinutesPerHour == h && m % MinutesPerHour == mi;
  }
}
