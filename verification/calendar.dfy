/** Time as the core uses it, with Carbon replaced by integers: a date is a day
    number (day 0 is 1970-01-01, a Thursday), an instant is a count of seconds
    since 1970-01-01 00:00:00, and a time of day is a count of seconds after
    midnight. Time zones are not modelled. */
module Calendar {

  const SecondsPerMinute: int := 60
  const SecondsPerHour: int := 3600
  const SecondsPerDay: int := 86400

  /** The calendar date of an instant (Carbon's `toDateString()`). */
  function DateOf(t: int): (d: int)
    ensures d * SecondsPerDay <= t < (d + 1) * SecondsPerDay
  {
    t / SecondsPerDay
  }

  /** The time of day of an instant, as stored in a TIME column. */
  function TimeOfDay(t: int): (s: int)
    ensures 0 <= s < SecondsPerDay
    ensures DateOf(t) * SecondsPerDay + s == t
  {
    t % SecondsPerDay
  }

  /** The day of the week, 0 = Sunday through 6 = Saturday (Carbon's `dayOfWeek`). */
  function Weekday(day: int): (w: int)
    ensures 0 <= w < 7
  {
    (day + 4) % 7
  }

  /** Carbon's `isWeekend()`: Saturday or Sunday. */
  predicate IsWeekend(day: int)
  {
    Weekday(day) == 0 || Weekday(day) == 6
  }

  lemma WeekdayStep(day: int)
    ensures Weekday(day + 1) == if Weekday(day) == 6 then 0 else Weekday(day) + 1
  {
  }

  /** The proleptic Gregorian year, month and day of a day number. */
  function CivilDate(day: int): (int, int, int)
  {
    var z := day + 719468;
    var era := z / 146097;
    var doe := z - era * 146097;
    var yoe := (doe - doe / 1460 + doe / 36524 - doe / 146096) / 365;
    var doy := doe - (365 * yoe + yoe / 4 - yoe / 100);
    var mp := (5 * doy + 2) / 153;
    var d := doy - (153 * mp + 2) / 5 + 1;
    var m := if mp < 10 then mp + 3 else mp - 9;
    (yoe + era * 400 + (if m <= 2 then 1 else 0), m, d)
  }

  predicate IsDateChar(c: char) { '0' <= c <= '9' || c == '-' }

  /** The decimal digits of `n`. */
  function Digits(n: nat): (r: string)
    ensures |r| > 0 && forall i :: 0 <= i < |r| ==> '0' <= r[i] <= '9'
  {
    if n < 10 then [('0' as int + n) as char]
    else Digits(n / 10) + [('0' as int + n % 10) as char]
  }

  /** `n` in at least `width` digits, zero-padded, with a leading '-' when negative. */
  function Padded(n: int, width: nat): (r: string)
    ensures forall i :: 0 <= i < |r| ==> IsDateChar(r[i])
  {
    var ds := Digits(if n < 0 then -n else n);
    var padded := if |ds| >= width then ds else seq(width - |ds|, _ => '0') + ds;
    if n < 0 then "-" + padded else padded
  }

  /** Carbon's `toDateString()`: `Y-m-d`. */
  function DateString(day: int): (r: string)
    ensures forall i :: 0 <= i < |r| ==> IsDateChar(r[i])
  {
    var (y, m, d) := CivilDate(day);
    Padded(y, 4) + "-" + Padded(m, 2) + "-" + Padded(d, 2)
  }

  /** A rendering of day numbers made of digits and dashes only, as `Y-m-d` is. */
  ghost predicate DateRendering(render: int -> string)
  {
    forall day, i :: 0 <= i < |render(day)| ==> IsDateChar(render(day)[i])
  }

  /** `toDateString()` is such a rendering. */
  lemma DateStringIsDateRendering()
    ensures DateRendering(DateString)
  {
  }

  /** A `date`-cast attribute cast to a string: the date at midnight, `Y-m-d H:i:s`. */
  function MidnightString(render: int -> string, day: int): string
  {
    render(day) + " 00:00:00"
  }

  /** Day 0 is 1970-01-01 and day 19723 is 2024-01-01. */
  lemma CivilDateSamples()
    ensures CivilDate(0) == (1970, 1, 1)
    ensures CivilDate(19723) == (2024, 1, 1)
  {
    assert 719468 / 146097 == 4 && 135080 / 1460 == 92 && 135080 / 36524 == 3 && 135080 / 146096 == 0;
    assert 134991 / 365 == 369 && 369 / 4 == 92 && 369 / 100 == 3;
    assert 1532 / 153 == 10 && 1532 / 5 == 306;
    assert 739191 / 146097 == 5 && 8706 / 1460 == 5 && 8706 / 36524 == 0 && 8706 / 146096 == 0;
    assert 8701 / 365 == 23 && 23 / 4 == 5 && 23 / 100 == 0;
  }

  /** The rendering of day 0. */
  lemma DateStringEpoch()
    ensures DateString(0) == "1970-01-01"
  {
    CivilDateSamples();
    PaddedSamples();
  }

  lemma PaddedSamples()
    ensures Padded(1970, 4) == "1970" && Padded(1, 2) == "01"
  {
    assert Digits(1) == "1";
    assert Digits(19) == "19";
    assert Digits(197) == "197";
    assert Digits(1970) == "1970";
  }

  /** A date cast to a string never equals a `toDateString()`, of any day: the
      first carries a blank, the second has none. */
  lemma MidnightNeverDateString(render: int -> string, a: int, b: int)
    requires DateRendering(render)
    ensures MidnightString(render, a) != render(b)
  {
    var k := |render(a)|;
    assert MidnightString(render, a)[k] == ' ';
    if |render(b)| > k {
      assert !IsDateChar(' ');
    }
  }
}
