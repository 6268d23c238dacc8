/** Time as the scheduler sees it. A point in time is a whole number of
    minutes since 1970-01-01 00:00 on the host's wall clock; the calendar
    fields that Python's `datetime` carries are recovered from it through the
    proleptic Gregorian calendar, and `datetime_to_at` renders them in the
    `HH:MM Mon DD` form that `at` accepts. */
module Clock {
  import opened Results
  import opened Text

  const MinutesPerDay: int := 1440

  /** The calendar day (days since 1970-01-01) holding minute `t`; this is
      what a job record's `date` stands for. */
  function Day(t: int): (d: int)
    ensures d * MinutesPerDay <= t < (d + 1) * MinutesPerDay
  {
    t / MinutesPerDay
  }

  predicate Leap(y: int) {
    y % 4 == 0 && (y % 100 != 0 || y % 400 == 0)
  }

  function DaysInYear(y: int): int {
    if Leap(y) then 366 else 365
  }

  /** Days from 1 January of year `y` to the first of month `m`; month 13
      stands for the following 1 January. */
  function MonthStart(y: int, m: int): int
    requires 1 <= m <= 13
  {
    var l := if Leap(y) then 1 else 0;
    if m == 1 then 0
    else if m == 2 then 31
    else if m == 3 then 59 + l
    else if m == 4 then 90 + l
    else if m == 5 then 120 + l
    else if m == 6 then 151 + l
    else if m == 7 then 181 + l
    else if m == 8 then 212 + l
    else if m == 9 then 243 + l
    else if m == 10 then 273 + l
    else if m == 11 then 304 + l
    else if m == 12 then 334 + l
    else 365 + l
  }

  function DaysInMonth(y: int, m: int): int
    requires 1 <= m <= 12
  {
    MonthStart(y, m + 1) - MonthStart(y, m)
  }

  datatype Date = Date(year: int, month: int, day: int)

  predicate ValidDate(d: Date) {
    1 <= d.month <= 12 && 1 <= d.day <= DaysInMonth(d.year, d.month)
  }

  /** Day number of 1 January of year `y`. */
  function YearStart(y: int): int
    decreases if y >= 1970 then y - 1970 else 1970 - y
  {
    if y == 1970 then 0
    else if y > 1970 then YearStart(y - 1) + DaysInYear(y - 1)
    else YearStart(y + 1) - DaysInYear(y)
  }

  lemma YearStartStep(y: int)
    ensures YearStart(y + 1) == YearStart(y) + DaysInYear(y)
  {
  }

  lemma {:induction false} YearStartMonotone(a: int, b: int)
    requires a < b
    ensures YearStart(a) + DaysInYear(a) <= YearStart(b)
    decreases b - a
  {
    YearStartStep(a);
    if a + 1 < b {
      YearStartMonotone(a + 1, b);
    }
  }

  /** Day number of a calendar date. */
  function DayOfDate(d: Date): int
    requires ValidDate(d)
  {
    YearStart(d.year) + MonthStart(d.year, d.month) + d.day - 1
  }

  /** Walks whole years from year `y` until `rem` days fall inside one:
      the result is that year and the day of the year. */
  function LocateYear(y: int, rem: int): (r: (int, int))
    ensures 0 <= r.1 < DaysInYear(r.0)
    ensures YearStart(r.0) + r.1 == YearStart(y) + rem
    decreases if rem < 0 then 1000 - rem else rem
  {
    if rem < 0 then
      YearStartStep(y - 1);
      LocateYear(y - 1, rem + DaysInYear(y - 1))
    else if rem >= DaysInYear(y) then
      YearStartStep(y);
      LocateYear(y + 1, rem - DaysInYear(y))
    else (y, rem)
  }

  /** The month, from `m` on, holding day-of-year `doy`. */
  function LocateMonth(y: int, m: int, doy: int): (r: int)
    requires 1 <= m <= 12 && MonthStart(y, m) <= doy < DaysInYear(y)
    ensures m <= r <= 12 && MonthStart(y, r) <= doy < MonthStart(y, r + 1)
    decreases 12 - m
  {
    if m == 12 || doy < MonthStart(y, m + 1) then m else LocateMonth(y, m + 1, doy)
  }

  /** The calendar date of a day number; it is a valid date and numbers
      back to the same day. */
  function DateOfDay(z: int): (d: Date)
    ensures ValidDate(d) && DayOfDate(d) == z
  {
    var (y, doy) := LocateYear(1970, z);
    var m := LocateMonth(y, 1, doy);
    Date(y, m, doy - MonthStart(y, m) + 1)
  }

  lemma YearUnique(a: int, i: int, b: int, j: int)
    requires 0 <= i < DaysInYear(a) && 0 <= j < DaysInYear(b)
    requires YearStart(a) + i == YearStart(b) + j
    ensures a == b && i == j
  {
    if a < b {
      YearStartMonotone(a, b);
    } else if b < a {
      YearStartMonotone(b, a);
    }
  }

  /** Every valid date is the date of its own day number: the two
      conversions are inverse bijections. */
  lemma DateOfDayOfDate(d: Date)
    requires ValidDate(d)
    ensures DateOfDay(DayOfDate(d)) == d
  {
    DayOfDateInjective(DateOfDay(DayOfDate(d)), d);
  }

  /** Two valid dates with the same day number are the same date. */
  lemma DayOfDateInjective(e: Date, d: Date)
    requires ValidDate(e) && ValidDate(d) && DayOfDate(e) == DayOfDate(d)
    ensures e == d
  {
    var i := MonthStart(e.year, e.month) + e.day - 1;
    var j := MonthStart(d.year, d.month) + d.day - 1;
    DayInYear(e);
    DayInYear(d);
    YearUnique(e.year, i, d.year, j);
    MonthUnique(d.year, e.month, d.month, j);
  }

  /** The day of a valid date within its year lies within its month. */
  lemma DayInYear(d: Date)
    requires ValidDate(d)
    ensures var i := MonthStart(d.year, d.month) + d.day - 1;
            MonthStart(d.year, d.month) <= i < MonthStart(d.year, d.month + 1)
            && 0 <= i < DaysInYear(d.year)
  {
    MonthStartMonotone(d.year, d.month, d.month + 1);
  }

  /** Later months start later. */
  lemma MonthStartMonotone(y: int, a: int, b: int)
    requires 1 <= a < b <= 13
    ensures 0 <= MonthStart(y, a) < MonthStart(y, b) <= DaysInYear(y)
  {
  }

  /** A day of the year lies in one month only. */
  lemma MonthUnique(y: int, a: int, b: int, doy: int)
    requires 1 <= a <= 12 && 1 <= b <= 12
    requires MonthStart(y, a) <= doy < MonthStart(y, a + 1)
    requires MonthStart(y, b) <= doy < MonthStart(y, b + 1)
    ensures a == b
  {
    if a < b {
      if a + 1 < b { MonthStartMonotone(y, a + 1, b); }
    } else if b < a {
      if b + 1 < a { MonthStartMonotone(y, b + 1, a); }
    }
  }

  /** Python's naive `datetime`, to the minute. */
  datatype DateTime = DateTime(year: int, month: int, day: int, hour: int, minute: int)

  predicate ValidDateTime(dt: DateTime) {
    ValidDate(Date(dt.year, dt.month, dt.day)) && 0 <= dt.hour < 24 && 0 <= dt.minute < 60
  }

  function MinutesOf(dt: DateTime): int
    requires ValidDateTime(dt)
  {
    DayOfDate(Date(dt.year, dt.month, dt.day)) * MinutesPerDay + dt.hour * 60 + dt.minute
  }

  /** The calendar fields of minute `t`. */
  function ToDateTime(t: int): (dt: DateTime)
    ensures ValidDateTime(dt) && MinutesOf(dt) == t
  {
    var d := DateOfDay(Day(t));
    var m := t % MinutesPerDay;
    DateTime(d.year, d.month, d.day, m / 60, m % 60)
  }

  lemma ToDateTimeOfMinutes(dt: DateTime)
    requires ValidDateTime(dt)
    ensures ToDateTime(MinutesOf(dt)) == dt
  {
    var date := Date(dt.year, dt.month, dt.day);
    var t := MinutesOf(dt);
    var z := DayOfDate(date);
    var m := dt.hour * 60 + dt.minute;
    assert t == z * MinutesPerDay + m && 0 <= m < MinutesPerDay;
    assert Day(t) == z;
    assert t % MinutesPerDay == m;
    DateOfDayOfDate(date);
  }

  /** The leap years from year 1 up to year `y`, `y` excluded (negative
      before year 1). */
  function LeapsBefore(y: int): int {
    (y - 1) / 4 - (y - 1) / 100 + (y - 1) / 400
  }

  lemma DivStep(y: int, n: int)
    requires n == 4 || n == 100 || n == 400
    ensures y / n - (y - 1) / n == if y % n == 0 then 1 else 0
  {
    var q, r := (y - 1) / n, (y - 1) % n;
    assert y == n * q + r + 1 && 0 <= r < n;
    if r + 1 == n {
      assert y == n * (q + 1);
    } else {
      assert y == n * q + (r + 1) && 0 <= r + 1 < n;
    }
  }

  /** A multiple of 400 is one of 100, and a multiple of 100 one of 4. */
  lemma DivisorChain(y: int)
    ensures y % 400 == 0 ==> y % 100 == 0
    ensures y % 100 == 0 ==> y % 4 == 0
  {
    if y % 400 == 0 {
      var q, p, r := y / 400, y / 100, y % 100;
      assert y == 400 * q && y == 100 * p + r && 0 <= r < 100;
      assert r == 100 * (4 * q - p);
    }
    if y % 100 == 0 {
      var q, p, r := y / 100, y / 4, y % 4;
      assert y == 100 * q && y == 4 * p + r && 0 <= r < 4;
      assert r == 4 * (25 * q - p);
    }
  }

  lemma LeapsStep(y: int)
    ensures LeapsBefore(y + 1) == LeapsBefore(y) + (if Leap(y) then 1 else 0)
  {
    DivStep(y, 4);
    DivStep(y, 100);
    DivStep(y, 400);
    DivisorChain(y);
    assert LeapsBefore(y + 1) - LeapsBefore(y)
           == (y / 4 - (y - 1) / 4) - (y / 100 - (y - 1) / 100) + (y / 400 - (y - 1) / 400);
  }

  /** Day numbers of years in closed form: 365 days a year plus one per
      leap year in between. */
  lemma {:induction false} YearStartClosed(y: int)
    ensures YearStart(y) == 365 * (y - 1970) + LeapsBefore(y) - LeapsBefore(1970)
    decreases if y >= 1970 then y - 1970 else 1970 - y
  {
    if y > 1970 {
      YearStartClosed(y - 1);
      LeapsStep(y - 1);
    } else if y < 1970 {
      YearStartClosed(y + 1);
      LeapsStep(y);
    }
  }

  /** Day numbers of 1 January of year 1 and of year 10000: Python's
      `datetime` holds the days in between. */
  const FirstDay: int := -719162
  const EndDay: int := 2932897

  lemma DatetimeYears()
    ensures YearStart(1) == FirstDay && YearStart(10000) == EndDay
  {
    FirstYear();
    EndYear();
  }

  lemma FirstYear()
    ensures YearStart(1) == FirstDay
  {
    YearStartClosed(1);
    assert LeapsBefore(1) == 0 && LeapsBefore(1970) == 477;
  }

  lemma EndYear()
    ensures YearStart(10000) == EndDay
  {
    YearStartClosed(10000);
    assert LeapsBefore(10000) == 2424 && LeapsBefore(1970) == 477;
  }

  /** The minutes a `datetime` can hold; arithmetic that leaves them raises
      OverflowError. */
  predicate InRange(t: int) {
    FirstDay * MinutesPerDay <= t < EndDay * MinutesPerDay
  }

  /** A time is in range exactly when its year is one of 1 to 9999. */
  lemma InRangeYears(t: int)
    ensures InRange(t) <==> 1 <= ToDateTime(t).year <= 9999
  {
    DatetimeYears();
    var dt := ToDateTime(t);
    var y := dt.year;
    var date := Date(y, dt.month, dt.day);
    DayInYear(date);
    assert Day(t) == DayOfDate(date);
    assert YearStart(y) <= Day(t) < YearStart(y) + DaysInYear(y);
    if y < 1 {
      YearStartMonotone(y, 1);
    } else if y > 1 {
      YearStartMonotone(1, y);
    }
    if y < 10000 {
      YearStartMonotone(y, 10000);
    } else if y > 10000 {
      YearStartMonotone(10000, y);
    }
  }

  /** `%h`, the abbreviated month name of the C locale. */
  function MonthAbbrev(m: int): string
    requires 1 <= m <= 12
  {
    if m == 1 then "Jan" else if m == 2 then "Feb" else if m == 3 then "Mar"
    else if m == 4 then "Apr" else if m == 5 then "May" else if m == 6 then "Jun"
    else if m == 7 then "Jul" else if m == 8 then "Aug" else if m == 9 then "Sep"
    else if m == 10 then "Oct" else if m == 11 then "Nov" else "Dec"
  }

  /** The month an abbreviated name stands for, 0 for none. */
  function MonthNumber(name: string): int {
    if name == "Jan" then 1 else if name == "Feb" then 2 else if name == "Mar" then 3
    else if name == "Apr" then 4 else if name == "May" then 5 else if name == "Jun" then 6
    else if name == "Jul" then 7 else if name == "Aug" then 8 else if name == "Sep" then 9
    else if name == "Oct" then 10 else if name == "Nov" then 11 else if name == "Dec" then 12
    else 0
  }

  function DigitChar(n: int): char
    requires 0 <= n < 10
  {
    ('0' as int + n) as char
  }

  function DigitOf(c: char): int {
    c as int - '0' as int
  }

  /** A zero-padded two-digit field (`%H`, `%M`, `%d`). */
  function TwoDigits(n: int): string
    requires 0 <= n < 100
  {
    [DigitChar(n / 10), DigitChar(n % 10)]
  }

  /** The fields `datetime_to_at` prints. */
  datatype AtFields = AtFields(hour: int, minute: int, month: int, day: int)

  predicate ValidFields(f: AtFields) {
    0 <= f.hour < 24 && 0 <= f.minute < 60 && 1 <= f.month <= 12 && 1 <= f.day <= 31
  }

  /** The `%H:%M %h %d` layout. */
  function FormatAt(f: AtFields): (s: string)
    requires ValidFields(f)
    ensures |s| == 12
  {
    TwoDigits(f.hour) + ":" + TwoDigits(f.minute) + " " + MonthAbbrev(f.month) + " " + TwoDigits(f.day)
  }

  function TwoDigitsAt(s: string, i: int): int
    requires 0 <= i && i + 2 <= |s|
  {
    DigitOf(s[i]) * 10 + DigitOf(s[i + 1])
  }

  /** Reads a time in the `%H:%M %h %d` layout back into its fields. */
  function ParseAt(s: string): (r: Option<AtFields>)
    ensures r.Some? ==> ValidFields(r.value)
  {
    if |s| == 12 && IsDigit(s[0]) && IsDigit(s[1]) && s[2] == ':' && IsDigit(s[3]) && IsDigit(s[4])
       && s[5] == ' ' && s[9] == ' ' && IsDigit(s[10]) && IsDigit(s[11])
    then
      var f := AtFields(TwoDigitsAt(s, 0), TwoDigitsAt(s, 3), MonthNumber(s[6..9]), TwoDigitsAt(s, 10));
      if ValidFields(f) then Some(f) else None
    else None
  }

  lemma TwoDigitsRead(n: int)
    requires 0 <= n < 100
    ensures TwoDigitsAt(TwoDigits(n), 0) == n
    ensures IsDigit(TwoDigits(n)[0]) && IsDigit(TwoDigits(n)[1])
  {
  }

  /** Two digits read as a number print back as the same two digits. */
  lemma TwoDigitsWrite(s: string, i: nat)
    requires i + 2 <= |s| && IsDigit(s[i]) && IsDigit(s[i + 1])
    ensures 0 <= TwoDigitsAt(s, i) < 100 && TwoDigits(TwoDigitsAt(s, i)) == s[i..i + 2]
  {
    var n := TwoDigitsAt(s, i);
    assert n / 10 == DigitOf(s[i]) && n % 10 == DigitOf(s[i + 1]);
  }

  /** Month names and numbers correspond one to one. */
  lemma MonthNames(m: int, name: string)
    ensures 1 <= m <= 12 ==> MonthNumber(MonthAbbrev(m)) == m
    ensures MonthNumber(name) != 0 ==> 1 <= MonthNumber(name) <= 12 && MonthAbbrev(MonthNumber(name)) == name
  {
  }

  /** Formatting then parsing gives the fields back. */
  lemma ParseFormatAt(f: AtFields)
    requires ValidFields(f)
    ensures ParseAt(FormatAt(f)) == Some(f)
  {
    var s := FormatAt(f);
    TwoDigitsRead(f.hour);
    TwoDigitsRead(f.minute);
    TwoDigitsRead(f.day);
    MonthNames(f.month, "");
    assert s[..2] == TwoDigits(f.hour);
    assert s[3..5] == TwoDigits(f.minute);
    assert s[6..9] == MonthAbbrev(f.month);
    assert s[10..] == TwoDigits(f.day);
    assert TwoDigitsAt(s, 0) == TwoDigitsAt(TwoDigits(f.hour), 0);
    assert TwoDigitsAt(s, 3) == TwoDigitsAt(TwoDigits(f.minute), 0);
    assert TwoDigitsAt(s, 10) == TwoDigitsAt(TwoDigits(f.day), 0);
  }

  /** Parsing then formatting gives the text back: `ParseAt` accepts
      exactly the strings `FormatAt` produces. */
  lemma FormatParseAt(s: string)
    requires ParseAt(s).Some?
    ensures FormatAt(ParseAt(s).value) == s
  {
    var f := ParseAt(s).value;
    TwoDigitsWrite(s, 0);
    TwoDigitsWrite(s, 3);
    TwoDigitsWrite(s, 10);
    MonthNames(0, s[6..9]);
    assert s == s[..2] + [s[2]] + s[3..5] + [s[5]] + s[6..9] + [s[9]] + s[10..12];
  }

  /** `datetime_to_at(dt)`: the `at` time text of a datetime, which reads
      back as its hour, minute, month and day. */
  function DatetimeToAt(dt: DateTime): (s: string)
    requires ValidDateTime(dt)
    ensures ParseAt(s) == Some(AtFields(dt.hour, dt.minute, dt.month, dt.day))
  {
    var f := AtFields(dt.hour, dt.minute, dt.month, dt.day);
    ParseFormatAt(f);
    FormatAt(f)
  }

  /** The `at` time text of minute `t`: it reads back as the time of day
      of `t`, and as a month and day that are `t`'s day in its year. */
  function AtTime(t: int): (r: string)
    ensures ParseAt(r).Some?
    ensures ParseAt(r).value.hour * 60 + ParseAt(r).value.minute == t % MinutesPerDay
    ensures var f := ParseAt(r).value;
            ValidDate(Date(ToDateTime(t).year, f.month, f.day))
            && DayOfDate(Date(ToDateTime(t).year, f.month, f.day)) == Day(t)
  {
    var dt := ToDateTime(t);
    var z := DayOfDate(Date(dt.year, dt.month, dt.day));
    assert t == z * MinutesPerDay + (dt.hour * 60 + dt.minute) && 0 <= dt.hour * 60 + dt.minute < MinutesPerDay;
    assert Day(t) == z;
    DatetimeToAt(dt)
  }

  /** The example of the source's documentation: noon on 18 June 2011. */
  lemma DatetimeToAtExample()
    ensures DatetimeToAt(DateTime(2011, 6, 18, 12, 0)) == "12:00 Jun 18"
  {
  }
}
