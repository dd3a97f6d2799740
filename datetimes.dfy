/**
  Naive date-times as Python's `datetime` holds them (years 1 to 9999, proleptic
  Gregorian calendar, no time zone), the parser `parse_tstamp` applies to the
  event fields, and the exact second arithmetic behind `datetime + timedelta`.
 */
module DateTimes {
  import opened Results
  import opened Chars

  datatype DateTime = DateTime(year: int, month: int, day: int, hour: int, minute: int, second: int)

  const MinYear: int := 1
  const MaxYear: int := 9999
  const SecondsPerDay: int := 86400

  predicate IsLeapYear(y: int) {
    y % 4 == 0 && (y % 100 != 0 || y % 400 == 0)
  }

  function DaysInMonth(y: int, m: int): (n: int)
    requires 1 <= m <= 12
    ensures 28 <= n <= 31
  {
    if m == 2 then (if IsLeapYear(y) then 29 else 28)
    else if m == 4 || m == 6 || m == 9 || m == 11 then 30
    else 31
  }

  function DaysInYear(y: int): int {
    if IsLeapYear(y) then 366 else 365
  }

  /** The values `datetime(...)` accepts. */
  predicate Valid(t: DateTime) {
    && MinYear <= t.year <= MaxYear
    && 1 <= t.month <= 12
    && 1 <= t.day <= DaysInMonth(t.year, t.month)
    && 0 <= t.hour < 24
    && 0 <= t.minute < 60
    && 0 <= t.second < 60
  }

  /** Python's comparison of naive datetimes: field by field, most significant first. */
  predicate Before(a: DateTime, b: DateTime) {
    || a.year < b.year
    || (a.year == b.year && a.month < b.month)
    || (a.year == b.year && a.month == b.month && a.day < b.day)
    || (a.year == b.year && a.month == b.month && a.day == b.day && a.hour < b.hour)
    || (a.year == b.year && a.month == b.month && a.day == b.day && a.hour == b.hour && a.minute < b.minute)
    || (a.year == b.year && a.month == b.month && a.day == b.day && a.hour == b.hour && a.minute == b.minute
        && a.second < b.second)
  }

  lemma BeforeIsStrictTotalOrder(a: DateTime, b: DateTime, c: DateTime)
    ensures !Before(a, a)
    ensures Before(a, b) ==> !Before(b, a)
    ensures Before(a, b) && Before(b, c) ==> Before(a, c)
    ensures a == b || Before(a, b) || Before(b, a)
  {
  }

  // ---------------------------------------------------------------------------
  // Elapsed seconds since 0001-01-01 00:00:00
  // ---------------------------------------------------------------------------

  /** Days from 0001-01-01 to the first of January of year `y`. */
  function DaysBeforeYear(y: int): nat
    decreases y
  {
    if y <= MinYear then 0 else DaysBeforeYear(y - 1) + DaysInYear(y - 1)
  }

  /** Days from the first of January to the first day of month `m` of year `y` (13 stands for the next year). */
  function DaysBeforeMonth(y: int, m: int): nat
    requires 1 <= m <= 13
  {
    var leap := if IsLeapYear(y) && m > 2 then 1 else 0;
    leap + (
      if m == 1 then 0 else if m == 2 then 31 else if m == 3 then 59 else if m == 4 then 90
      else if m == 5 then 120 else if m == 6 then 151 else if m == 7 then 181 else if m == 8 then 212
      else if m == 9 then 243 else if m == 10 then 273 else if m == 11 then 304 else if m == 12 then 334
      else 365)
  }

  lemma MonthStep(y: int, m: int)
    requires 1 <= m <= 12
    ensures DaysBeforeMonth(y, m) + DaysInMonth(y, m) == DaysBeforeMonth(y, m + 1)
  {
  }

  lemma MonthsFillYear(y: int)
    ensures DaysBeforeMonth(y, 13) == DaysInYear(y)
  {
  }

  lemma {:induction false} DaysBeforeMonthMonotone(y: int, m: int, n: int)
    requires 1 <= m <= n <= 13
    ensures DaysBeforeMonth(y, m) <= DaysBeforeMonth(y, n)
    decreases n - m
  {
    if m < n {
      DaysBeforeMonthMonotone(y, m, n - 1);
      MonthStep(y, n - 1);
    }
  }

  lemma {:induction false} DaysBeforeYearMonotone(y: int, z: int)
    requires y <= z
    ensures DaysBeforeYear(y) <= DaysBeforeYear(z)
    decreases z - y
  {
    if y < z {
      DaysBeforeYearMonotone(y, z - 1);
    }
  }

  /** The first instant after 9999-12-31 23:59:59, in seconds since 0001-01-01 00:00:00. */
  function EndOfTime(): nat {
    DaysBeforeYear(MaxYear + 1) * SecondsPerDay
  }

  /** Days from 0001-01-01 to the date of `t`. */
  function DayNumber(t: DateTime): int
    requires Valid(t)
  {
    DaysBeforeYear(t.year) + DaysBeforeMonth(t.year, t.month) + t.day - 1
  }

  function SecondOfDay(t: DateTime): int {
    t.hour * 3600 + t.minute * 60 + t.second
  }

  /** Seconds from 0001-01-01 00:00:00 to `t`. */
  function ToSeconds(t: DateTime): (n: int)
    requires Valid(t)
    ensures 0 <= n < EndOfTime()
  {
    DayNumberBounds(t);
    DayNumber(t) * SecondsPerDay + SecondOfDay(t)
  }

  lemma DayNumberBounds(t: DateTime)
    requires Valid(t)
    ensures DaysBeforeYear(t.year) <= DayNumber(t) < DaysBeforeYear(t.year + 1)
    ensures DayNumber(t) < DaysBeforeYear(MaxYear + 1)
  {
    MonthStep(t.year, t.month);
    DaysBeforeMonthMonotone(t.year, t.month + 1, 13);
    MonthsFillYear(t.year);
    DaysBeforeYearMonotone(t.year + 1, MaxYear + 1);
  }

  /** The year holding day `days` counted from the start of year `y`, and the day's offset within it. */
  function YearOf(days: int, y: int): (r: (int, int))
    requires MinYear <= y <= MaxYear
    requires 0 <= days < DaysBeforeYear(MaxYear + 1) - DaysBeforeYear(y)
    ensures y <= r.0 <= MaxYear && 0 <= r.1 < DaysInYear(r.0)
    ensures DaysBeforeYear(r.0) + r.1 == DaysBeforeYear(y) + days
    decreases MaxYear - y
  {
    if days < DaysInYear(y) then (y, days)
    else YearOf(days - DaysInYear(y), y + 1)
  }

  /** The month holding day `days` counted from the start of month `m`, and the day's offset within it. */
  function MonthOf(y: int, days: int, m: int): (r: (int, int))
    requires 1 <= m <= 12
    requires 0 <= days < DaysInYear(y) - DaysBeforeMonth(y, m)
    ensures m <= r.0 <= 12 && 0 <= r.1 < DaysInMonth(y, r.0)
    ensures DaysBeforeMonth(y, r.0) + r.1 == DaysBeforeMonth(y, m) + days
    decreases 12 - m
  {
    MonthStep(y, m);
    MonthsFillYear(y);
    if days < DaysInMonth(y, m) then (m, days)
    else MonthOf(y, days - DaysInMonth(y, m), m + 1)
  }

  /** The date-time `n` seconds after 0001-01-01 00:00:00. */
  function FromSeconds(n: int): (t: DateTime)
    requires 0 <= n < EndOfTime()
    ensures Valid(t) && ToSeconds(t) == n
  {
    var days := n / SecondsPerDay;
    var rest := n % SecondsPerDay;
    var (y, dayOfYear) := YearOf(days, MinYear);
    var (m, dayOfMonth) := MonthOf(y, dayOfYear, 1);
    DateTime(y, m, dayOfMonth + 1, rest / 3600, rest % 3600 / 60, rest % 60)
  }

  /** The calendar date of `a` comes before that of `b`. */
  predicate DateBefore(a: DateTime, b: DateTime) {
    || a.year < b.year
    || (a.year == b.year && a.month < b.month)
    || (a.year == b.year && a.month == b.month && a.day < b.day)
  }

  lemma DayNumberOrdered(a: DateTime, b: DateTime)
    requires Valid(a) && Valid(b) && DateBefore(a, b)
    ensures DayNumber(a) < DayNumber(b)
  {
    if a.year < b.year {
      DayNumberBounds(a);
      DayNumberBounds(b);
      DaysBeforeYearMonotone(a.year + 1, b.year);
    } else if a.month < b.month {
      MonthStep(a.year, a.month);
      DaysBeforeMonthMonotone(a.year, a.month + 1, b.month);
    }
  }

  lemma SecondOfDayOrdered(a: DateTime, b: DateTime)
    requires Valid(a) && Valid(b)
    ensures 0 <= SecondOfDay(a) < SecondsPerDay && 0 <= SecondOfDay(b) < SecondsPerDay
    ensures (|| a.hour < b.hour
             || (a.hour == b.hour && a.minute < b.minute)
             || (a.hour == b.hour && a.minute == b.minute && a.second < b.second))
            <==> SecondOfDay(a) < SecondOfDay(b)
  {
  }

  /** Python compares naive date-times by the instant they denote. */
  lemma {:induction false} BeforeIsEarlier(a: DateTime, b: DateTime)
    requires Valid(a) && Valid(b)
    ensures Before(a, b) <==> ToSeconds(a) < ToSeconds(b)
  {
    SecondOfDayOrdered(a, b);
    if DateBefore(a, b) {
      DayNumberOrdered(a, b);
    } else if DateBefore(b, a) {
      DayNumberOrdered(b, a);
    }
  }

  /** Two times of the same day are as many seconds apart as their times of day. */
  lemma SameDayOffset(a: DateTime, b: DateTime)
    requires Valid(a) && Valid(b) && a.year == b.year && a.month == b.month && a.day == b.day
    ensures ToSeconds(b) - ToSeconds(a) == SecondOfDay(b) - SecondOfDay(a)
  {
    assert DayNumber(a) == DayNumber(b);
  }

  lemma ToSecondsInjective(a: DateTime, b: DateTime)
    requires Valid(a) && Valid(b) && ToSeconds(a) == ToSeconds(b)
    ensures a == b
  {
    BeforeIsStrictTotalOrder(a, b, b);
    BeforeIsEarlier(a, b);
    BeforeIsEarlier(b, a);
  }

  lemma FromToSeconds(t: DateTime)
    requires Valid(t)
    ensures FromSeconds(ToSeconds(t)) == t
  {
    ToSecondsInjective(FromSeconds(ToSeconds(t)), t);
  }

  /**
    Python's `datetime + timedelta` for a span of `delta` seconds: the date-time
    exactly `delta` seconds later, or nothing (an OverflowError) when that falls
    outside years 1 to 9999.
   */
  function AddSeconds(t: DateTime, delta: int): (r: Option<DateTime>)
    requires Valid(t)
    ensures r.Some? <==> 0 <= ToSeconds(t) + delta < EndOfTime()
    ensures r.Some? ==> Valid(r.value) && ToSeconds(r.value) == ToSeconds(t) + delta
  {
    var n := ToSeconds(t) + delta;
    if 0 <= n < EndOfTime() then Some(FromSeconds(n)) else None
  }

  // ---------------------------------------------------------------------------
  // strptime(text, '%Y-%m-%d %H:%M')
  // ---------------------------------------------------------------------------

  /** One matched field: its numeric value and the position just after it. */
  datatype Scan = Scan(value: int, next: nat)

  predicate DigitAt(s: string, i: nat) {
    i < |s| && IsDigit(s[i])
  }

  predicate CharIn(s: string, i: nat, lo: char, hi: char) {
    i < |s| && lo <= s[i] <= hi
  }

  /** `%Y`: exactly four digits. */
  function ScanYear(s: string, i: nat): Option<Scan> {
    if DigitAt(s, i) && DigitAt(s, i + 1) && DigitAt(s, i + 2) && DigitAt(s, i + 3)
    then Some(Scan(1000 * DigitValue(s[i]) + 100 * DigitValue(s[i + 1]) + 10 * DigitValue(s[i + 2])
                   + DigitValue(s[i + 3]), i + 4))
    else None
  }

  /** `%m`: the alternatives `1[0-2]`, `0[1-9]`, `[1-9]`, in that order. */
  function ScanMonth(s: string, i: nat): Option<Scan> {
    if CharIn(s, i, '1', '1') && CharIn(s, i + 1, '0', '2') then Some(Scan(10 + DigitValue(s[i + 1]), i + 2))
    else if CharIn(s, i, '0', '0') && CharIn(s, i + 1, '1', '9') then Some(Scan(DigitValue(s[i + 1]), i + 2))
    else if CharIn(s, i, '1', '9') then Some(Scan(DigitValue(s[i]), i + 1))
    else None
  }

  /** `%d`: the alternatives `3[01]`, `[12][0-9]`, `0[1-9]`, `[1-9]`, ` [1-9]`, in that order. */
  function ScanDay(s: string, i: nat): Option<Scan> {
    if CharIn(s, i, '3', '3') && CharIn(s, i + 1, '0', '1') then Some(Scan(30 + DigitValue(s[i + 1]), i + 2))
    else if CharIn(s, i, '1', '2') && DigitAt(s, i + 1)
    then Some(Scan(10 * DigitValue(s[i]) + DigitValue(s[i + 1]), i + 2))
    else if CharIn(s, i, '0', '0') && CharIn(s, i + 1, '1', '9') then Some(Scan(DigitValue(s[i + 1]), i + 2))
    else if CharIn(s, i, '1', '9') then Some(Scan(DigitValue(s[i]), i + 1))
    else if CharIn(s, i, ' ', ' ') && CharIn(s, i + 1, '1', '9') then Some(Scan(DigitValue(s[i + 1]), i + 2))
    else None
  }

  /** `%H`: the alternatives `2[0-3]`, `[01][0-9]`, `[0-9]`, in that order. */
  function ScanHour(s: string, i: nat): Option<Scan> {
    if CharIn(s, i, '2', '2') && CharIn(s, i + 1, '0', '3') then Some(Scan(20 + DigitValue(s[i + 1]), i + 2))
    else if CharIn(s, i, '0', '1') && DigitAt(s, i + 1)
    then Some(Scan(10 * DigitValue(s[i]) + DigitValue(s[i + 1]), i + 2))
    else if DigitAt(s, i) then Some(Scan(DigitValue(s[i]), i + 1))
    else None
  }

  /** `%M`: the alternatives `[0-5][0-9]`, `[0-9]`, in that order. */
  function ScanMinute(s: string, i: nat): Option<Scan> {
    if CharIn(s, i, '0', '5') && DigitAt(s, i + 1)
    then Some(Scan(10 * DigitValue(s[i]) + DigitValue(s[i + 1]), i + 2))
    else if DigitAt(s, i) then Some(Scan(DigitValue(s[i]), i + 1))
    else None
  }

  function ScanChar(s: string, i: nat, c: char): Option<nat> {
    if i < |s| && s[i] == c then Some(i + 1) else None
  }

  /** The position after the run of whitespace starting at `i`. */
  function SkipSpacesFrom(s: string, i: nat): (j: nat)
    ensures i <= j
    decreases |s| - i
  {
    if i < |s| && IsSpace(s[i]) then SkipSpacesFrom(s, i + 1) else i
  }

  /** The space of the format matches a run of one or more whitespace characters. */
  function ScanSpaces(s: string, i: nat): Option<nat> {
    if i < |s| && IsSpace(s[i]) then Some(SkipSpacesFrom(s, i + 1)) else None
  }

  /**
    `datetime.strptime(text, '%Y-%m-%d %H:%M')`: the fields must match the whole
    text, and the date they spell must exist. None stands for the ValueError.
   */
  function ParseTimestamp(text: string): (r: Option<DateTime>)
    ensures r.Some? ==> Valid(r.value) && r.value.second == 0
  {
    var year :- ScanYear(text, 0);
    var monthAt :- ScanChar(text, year.next, '-');
    var month :- ScanMonth(text, monthAt);
    var dayAt :- ScanChar(text, month.next, '-');
    var day :- ScanDay(text, dayAt);
    var hourAt :- ScanSpaces(text, day.next);
    var hour :- ScanHour(text, hourAt);
    var minuteAt :- ScanChar(text, hour.next, ':');
    var minute :- ScanMinute(text, minuteAt);
    var t := DateTime(year.value, month.value, day.value, hour.value, minute.value, 0);
    if minute.next == |text| && Valid(t) then Some(t) else None
  }

  // ---------------------------------------------------------------------------
  // The canonical, zero-padded spelling and the round trip through the parser
  // ---------------------------------------------------------------------------

  /** `t.strftime('%Y-%m-%d %H:%M')`: every field zero-padded, sixteen characters. */
  function FormatTimestamp(t: DateTime): (s: string)
    requires Valid(t)
    ensures |s| == 16
  {
    [DigitChar(t.year / 10 / 10 / 10), DigitChar(t.year / 10 / 10 % 10), DigitChar(t.year / 10 % 10), DigitChar(t.year % 10),
     '-', DigitChar(t.month / 10), DigitChar(t.month % 10),
     '-', DigitChar(t.day / 10), DigitChar(t.day % 10),
     ' ', DigitChar(t.hour / 10), DigitChar(t.hour % 10),
     ':', DigitChar(t.minute / 10), DigitChar(t.minute % 10)]
  }

  /** The four decimal digits of a year recombine to the year. */
  lemma FourDigits(y: int)
    requires 0 <= y < 10000
    ensures y / 10 / 10 / 10 < 10
    ensures 1000 * (y / 10 / 10 / 10) + 100 * (y / 10 / 10 % 10) + 10 * (y / 10 % 10) + y % 10 == y
  {
    var q3 := y / 10;
    var q2 := q3 / 10;
    assert y == 10 * q3 + y % 10;
    assert q3 == 10 * q2 + q3 % 10;
    assert q2 == 10 * (q2 / 10) + q2 % 10;
  }

  /** A zero-padded two-digit field at position `i` scans to its value, for each field that allows it. */
  lemma ScanPadded(s: string, i: nat, n: int)
    requires 0 <= n < 100 && i + 1 < |s| && s[i] == DigitChar(n / 10) && s[i + 1] == DigitChar(n % 10)
    ensures 1 <= n <= 12 ==> ScanMonth(s, i) == Some(Scan(n, i + 2))
    ensures 1 <= n <= 31 ==> ScanDay(s, i) == Some(Scan(n, i + 2))
    ensures n <= 23 ==> ScanHour(s, i) == Some(Scan(n, i + 2))
    ensures n <= 59 ==> ScanMinute(s, i) == Some(Scan(n, i + 2))
  {
  }

  /** The zero-padded `YYYY-MM-DD HH:MM` spelling of every whole-minute date-time parses back to it. */
  lemma ParseFormatted(t: DateTime)
    requires Valid(t) && t.second == 0
    ensures ParseTimestamp(FormatTimestamp(t)) == Some(t)
  {
    var s := FormatTimestamp(t);
    assert ScanYear(s, 0) == Some(Scan(t.year, 4)) by {
      FourDigits(t.year);
    }
    ScanPadded(s, 5, t.month);
    ScanPadded(s, 8, t.day);
    ScanPadded(s, 11, t.hour);
    ScanPadded(s, 14, t.minute);
    assert ScanSpaces(s, 10) == Some(11) by {
      assert IsDigit(s[11]);
    }
    ParseTimestampSteps(s, Scan(t.year, 4), 5, Scan(t.month, 7), 8, Scan(t.day, 10),
                        11, Scan(t.hour, 13), 14, Scan(t.minute, 16));
  }

  // ---------------------------------------------------------------------------
  // What strptime accepts and rejects beyond the canonical spelling
  // ---------------------------------------------------------------------------

  /** Once every field has matched, the text parses iff nothing is left over and the date exists. */
  lemma ParseTimestampSteps(text: string, year: Scan, monthAt: nat, month: Scan, dayAt: nat, day: Scan,
                            hourAt: nat, hour: Scan, minuteAt: nat, minute: Scan)
    requires ScanYear(text, 0) == Some(year)
    requires ScanChar(text, year.next, '-') == Some(monthAt)
    requires ScanMonth(text, monthAt) == Some(month)
    requires ScanChar(text, month.next, '-') == Some(dayAt)
    requires ScanDay(text, dayAt) == Some(day)
    requires ScanSpaces(text, day.next) == Some(hourAt)
    requires ScanHour(text, hourAt) == Some(hour)
    requires ScanChar(text, hour.next, ':') == Some(minuteAt)
    requires ScanMinute(text, minuteAt) == Some(minute)
    ensures var t := DateTime(year.value, month.value, day.value, hour.value, minute.value, 0);
            ParseTimestamp(text) == if minute.next == |text| && Valid(t) then Some(t) else None
  {
  }

  /** A timestamp in the documented zero-padded format. */
  lemma AcceptsDocstringFormat()
    ensures ParseTimestamp("2024-01-01 10:00") == Some(DateTime(2024, 1, 1, 10, 0, 0))
  {
    var s := "2024-01-01 10:00";
    assert s[0] == '2' && s[1] == '0' && s[2] == '2' && s[3] == '4' && s[4] == '-' && s[5] == '0';
    assert s[6] == '1' && s[7] == '-' && s[8] == '0' && s[9] == '1' && s[10] == ' ' && s[11] == '1';
    assert s[12] == '0' && s[13] == ':' && s[14] == '0' && s[15] == '0';
  }

  /** Single-digit month, day, hour and minute are accepted. */
  lemma AcceptsUnpadded()
    ensures ParseTimestamp("2024-1-5 9:7") == Some(DateTime(2024, 1, 5, 9, 7, 0))
  {
    var s := "2024-1-5 9:7";
    assert s[0] == '2' && s[1] == '0' && s[2] == '2' && s[3] == '4' && s[4] == '-' && s[5] == '1';
    assert s[6] == '-' && s[7] == '5' && s[8] == ' ' && s[9] == '9' && s[10] == ':' && s[11] == '7';
  }

  /** The space of the format matches a run of whitespace, and a day may be written with a leading space. */
  lemma AcceptsSpaceRun(s: string)
    requires s == "2024-01- 5 \t 09:07"
    ensures ParseTimestamp(s) == Some(DateTime(2024, 1, 5, 9, 7, 0))
  {
    assert s[0] == '2' && s[1] == '0' && s[2] == '2' && s[3] == '4' && s[4] == '-' && s[5] == '0';
    assert s[6] == '1' && s[7] == '-' && s[8] == ' ' && s[9] == '5' && s[10] == ' ' && s[11] == '\t';
    assert s[12] == ' ' && s[13] == '0' && s[14] == '9' && s[15] == ':' && s[16] == '0' && s[17] == '7';
    assert SkipSpacesFrom(s, 11) == 13 by {
      assert SkipSpacesFrom(s, 12) == 13;
    }
  }

  /** The twenty-ninth of February exists in a leap year. */
  lemma AcceptsLeapDay()
    ensures ParseTimestamp("2024-02-29 10:00") == Some(DateTime(2024, 2, 29, 10, 0, 0))
  {
    var s := "2024-02-29 10:00";
    assert IsLeapYear(2024);
    assert s[0] == '2' && s[1] == '0' && s[2] == '2' && s[3] == '4' && s[4] == '-' && s[5] == '0';
    assert s[6] == '2' && s[7] == '-' && s[8] == '2' && s[9] == '9' && s[10] == ' ' && s[11] == '1';
    assert s[12] == '0' && s[13] == ':' && s[14] == '0' && s[15] == '0';
  }

  /** The twenty-ninth of February does not exist in a common year. */
  lemma RejectsCommonYearLeapDay()
    ensures ParseTimestamp("2023-02-29 10:00") == None
  {
    var s := "2023-02-29 10:00";
    assert !IsLeapYear(2023);
    assert s[0] == '2' && s[1] == '0' && s[2] == '2' && s[3] == '3' && s[4] == '-' && s[5] == '0';
    assert s[6] == '2' && s[7] == '-' && s[8] == '2' && s[9] == '9' && s[10] == ' ' && s[11] == '1';
    assert s[12] == '0' && s[13] == ':' && s[14] == '0' && s[15] == '0';
  }

  /** A century year is a leap year only when divisible by 400. */
  lemma RejectsCenturyLeapDay()
    ensures ParseTimestamp("1900-02-29 10:00") == None
  {
    var s := "1900-02-29 10:00";
    assert !IsLeapYear(1900);
    assert s[0] == '1' && s[1] == '9' && s[2] == '0' && s[3] == '0' && s[4] == '-' && s[5] == '0';
    assert s[6] == '2' && s[7] == '-' && s[8] == '2' && s[9] == '9' && s[10] == ' ' && s[11] == '1';
    assert s[12] == '0' && s[13] == ':' && s[14] == '0' && s[15] == '0';
  }

  /** April has thirty days. */
  lemma RejectsApril31()
    ensures ParseTimestamp("2024-04-31 10:00") == None
  {
    var s := "2024-04-31 10:00";
    assert s[0] == '2' && s[1] == '0' && s[2] == '2' && s[3] == '4' && s[4] == '-' && s[5] == '0';
    assert s[6] == '4' && s[7] == '-' && s[8] == '3' && s[9] == '1' && s[10] == ' ' && s[11] == '1';
    assert s[12] == '0' && s[13] == ':' && s[14] == '0' && s[15] == '0';
  }

  /** Year zero is outside the range of `datetime`. */
  lemma RejectsYearZero()
    ensures ParseTimestamp("0000-01-01 10:00") == None
  {
    var s := "0000-01-01 10:00";
    assert s[0] == '0' && s[1] == '0' && s[2] == '0' && s[3] == '0' && s[4] == '-' && s[5] == '0';
    assert s[6] == '1' && s[7] == '-' && s[8] == '0' && s[9] == '1' && s[10] == ' ' && s[11] == '1';
    assert s[12] == '0' && s[13] == ':' && s[14] == '0' && s[15] == '0';
  }

  /** Unconverted trailing text is an error. */
  lemma RejectsSeconds(s: string)
    requires s == "2024-01-01 10:00:00"
    ensures ParseTimestamp(s) == None
  {
    assert s[0] == '2' && s[1] == '0' && s[2] == '2' && s[3] == '4' && s[4] == '-' && s[5] == '0';
    assert s[6] == '1' && s[7] == '-' && s[8] == '0' && s[9] == '1' && s[10] == ' ' && s[11] == '1';
    assert s[12] == '0' && s[13] == ':' && s[14] == '0' && s[15] == '0' && s[16] == ':' && s[17] == '0';
    assert s[18] == '0';
  }

  /** There is no hour 24: `%H` matches the 2, and the 4 is not the colon. */
  lemma RejectsHour24()
    ensures ParseTimestamp("2024-01-01 24:00") == None
  {
    var s := "2024-01-01 24:00";
    assert s[0] == '2' && s[1] == '0' && s[2] == '2' && s[3] == '4' && s[4] == '-' && s[5] == '0';
    assert s[6] == '1' && s[7] == '-' && s[8] == '0' && s[9] == '1' && s[10] == ' ' && s[11] == '2';
    assert s[12] == '4' && s[13] == ':' && s[14] == '0' && s[15] == '0';
  }

  /** There is no month 13: `%m` matches the 1, and the 3 is not the dash. */
  lemma RejectsMonth13()
    ensures ParseTimestamp("2024-13-01 10:00") == None
  {
    var s := "2024-13-01 10:00";
    assert s[0] == '2' && s[1] == '0' && s[2] == '2' && s[3] == '4' && s[4] == '-' && s[5] == '1';
    assert s[6] == '3' && s[7] == '-' && s[8] == '0' && s[9] == '1' && s[10] == ' ' && s[11] == '1';
    assert s[12] == '0' && s[13] == ':' && s[14] == '0' && s[15] == '0';
  }

  /** The ISO 8601 `T` separator is not whitespace. */
  lemma RejectsIsoSeparator()
    ensures ParseTimestamp("2024-01-01T10:00") == None
  {
    var s := "2024-01-01T10:00";
    assert s[0] == '2' && s[1] == '0' && s[2] == '2' && s[3] == '4' && s[4] == '-' && s[5] == '0';
    assert s[6] == '1' && s[7] == '-' && s[8] == '0' && s[9] == '1' && s[10] == 'T' && s[11] == '1';
    assert s[12] == '0' && s[13] == ':' && s[14] == '0' && s[15] == '0';
  }

  /** Leading whitespace is not skipped before the year. */
  lemma RejectsLeadingSpace()
    ensures ParseTimestamp(" 2024-01-01 10:00") == None
  {
    var s := " 2024-01-01 10:00";
    assert s[0] == ' ' && s[1] == '2' && s[2] == '0' && s[3] == '2' && s[4] == '4' && s[5] == '-';
    assert s[6] == '0' && s[7] == '1' && s[8] == '-' && s[9] == '0' && s[10] == '1' && s[11] == ' ';
    assert s[12] == '1' && s[13] == '0' && s[14] == ':' && s[15] == '0' && s[16] == '0';
  }
}
