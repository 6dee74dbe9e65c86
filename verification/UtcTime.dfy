/** The Gregorian calendar: days, months and years, counted from 1 January 1970. */
module UtcCalendars {
  import opened Collections

  datatype Fields = Fields(year: int, month: int, day: int, hour: int, minute: int, second: int, millisecond: int)

  predicate LeapYear(year: int) {
    year % 4 == 0 && (year % 100 != 0 || year % 400 == 0)
  }

  /** Days from 1 January of year 1 to 1 January of `year`. */
  function DaysBeforeYear(year: int): int {
    var preceding := year - 1;
    preceding * 365 + preceding / 4 - preceding / 100 + preceding / 400
  }

  function MonthLength(year: int, month: int): (days: nat)
    ensures 28 <= days <= 31
  {
    if month == 2 then if LeapYear(year) then 29 else 28
    else if month == 4 || month == 6 || month == 9 || month == 11 then 30
    else 31
  }

  function YearLength(year: int): int {
    if LeapYear(year) then 366 else 365
  }

  /** Days of the year before `month`. */
  function DaysBeforeMonth(year: int, month: int): (days: nat)
    ensures days <= 31 * (if month <= 1 then 0 else month - 1)
    decreases month
  {
    if month <= 1 then 0 else DaysBeforeMonth(year, month - 1) + MonthLength(year, month - 1)
  }

  predicate ValidDate(year: int, month: int, day: int) {
    1900 <= year <= 9999 && 1 <= month <= 12 && 1 <= day <= MonthLength(year, month)
  }

  predicate Valid(f: Fields) {
    && ValidDate(f.year, f.month, f.day)
    && 0 <= f.hour < 24 && 0 <= f.minute < 60 && 0 <= f.second < 60 && 0 <= f.millisecond < 1000
  }

  function DayNumber(year: int, month: int, day: int): int {
    DaysBeforeYear(year) - DaysBeforeYear(1970) + DaysBeforeMonth(year, month) + day - 1
  }

  function DaySeconds(f: Fields): int {
    (f.hour * 60 + f.minute) * 60 + f.second
  }

  /** The Unix milliseconds of a point in time. */
  function Milliseconds(f: Fields): int {
    (DayNumber(f.year, f.month, f.day) * 86400 + DaySeconds(f)) * 1000 + f.millisecond
  }

  const MIN_MS: int := -2208988800000
  const MAX_MS: int := 253402300799999

  // ---------------------------------------------------------------- the calendar counts days

  datatype Date = Date(year: int, month: int, day: int)

  /** The months of a common year. */
  const MONTHS: seq<nat> := [31, 28, 31, 30, 31, 30, 31, 31, 30, 31, 30, 31]

  /** The days of a month: in years divisible by 400, and in those divisible by 4 but not by 100, February has one more. */
  function DaysIn(year: int, month: int): nat
    requires 1 <= month <= 12
  {
    MONTHS[month - 1] + if month == 2 && (year % 400 == 0 || (year % 4 == 0 && year % 100 != 0)) then 1 else 0
  }

  /** The day after, by the rules of the calendar alone. */
  function NextDay(d: Date): Date
    requires 1 <= d.month <= 12
  {
    if d.day < DaysIn(d.year, d.month) then d.(day := d.day + 1)
    else if d.month < 12 then Date(d.year, d.month + 1, 1)
    else Date(d.year + 1, 1, 1)
  }

  lemma FourthYears(year: int)
    ensures year / 4 == (year - 1) / 4 + if year % 4 == 0 then 1 else 0
  {
  }

  lemma Centuries(year: int)
    ensures year / 100 == (year - 1) / 100 + if year % 100 == 0 then 1 else 0
  {
  }

  lemma FourthCenturies(year: int)
    ensures year / 400 == (year - 1) / 400 + if year % 400 == 0 then 1 else 0
    ensures year % 400 == 0 ==> year % 100 == 0
    ensures year % 100 == 0 ==> year % 4 == 0
  {
  }

  lemma YearsAdjoin(year: int)
    ensures DaysBeforeYear(year + 1) == DaysBeforeYear(year) + YearLength(year)
  {
    FourthYears(year);
    Centuries(year);
    FourthCenturies(year);
  }

  lemma MonthsFillTheYear(year: int)
    ensures DaysBeforeMonth(year, 12) + MonthLength(year, 12) == YearLength(year)
  {
    assert DaysBeforeMonth(year, 4) == 59 + 31 + if LeapYear(year) then 1 else 0;
    assert DaysBeforeMonth(year, 7) == DaysBeforeMonth(year, 4) + 30 + 31 + 30;
    assert DaysBeforeMonth(year, 10) == DaysBeforeMonth(year, 7) + 31 + 31 + 30;
    assert DaysBeforeMonth(year, 12) == DaysBeforeMonth(year, 10) + 31 + 30;
  }

  lemma MonthsAgree(year: int, month: int)
    requires 1 <= month <= 12
    ensures MonthLength(year, month) == DaysIn(year, month)
  {
    FourthCenturies(year);
  }

  /** The formula counts one for every day of the calendar, and 1 January 1970 as zero. The dates are those that the
      calendar has. */
  lemma {:induction false} DayNumberCounts(d: Date)
    requires 1 <= d.month <= 12 && 1 <= d.day <= DaysIn(d.year, d.month)
    ensures ValidDate(d.year, d.month, d.day) <==> 1900 <= d.year <= 9999
    ensures var e := NextDay(d); DayNumber(e.year, e.month, e.day) == DayNumber(d.year, d.month, d.day) + 1
    ensures DayNumber(1970, 1, 1) == 0
  {
    MonthsAgree(d.year, d.month);
    if d.day == MonthLength(d.year, d.month) && d.month == 12 {
      YearsAdjoin(d.year);
      MonthsFillTheYear(d.year);
    }
  }

  // ---------------------------------------------------------------- the calendar is injective

  lemma {:induction false} YearsGrow(a: int, b: int)
    requires a < b
    ensures DaysBeforeYear(a) + YearLength(a) <= DaysBeforeYear(b)
    decreases b - a
  {
    YearsAdjoin(b - 1);
    if a + 1 < b { YearsGrow(a, b - 1); }
  }

  lemma {:induction false} MonthsGrow(year: int, a: int, b: int)
    requires 1 <= a < b
    ensures DaysBeforeMonth(year, a) + MonthLength(year, a) <= DaysBeforeMonth(year, b)
    decreases b - a
  {
    if a + 1 < b { MonthsGrow(year, a, b - 1); }
  }

  lemma DayInYear(year: int, month: int, day: int)
    requires 1 <= month <= 12 && 1 <= day <= MonthLength(year, month)
    ensures 0 <= DaysBeforeMonth(year, month) + day - 1 < YearLength(year)
  {
    MonthsFillTheYear(year);
    if month < 12 { MonthsGrow(year, month, 12); }
  }

  /** No two dates have the same number. */
  lemma {:induction false} DateIsDetermined(a: Date, b: Date)
    requires 1 <= a.month <= 12 && 1 <= a.day <= MonthLength(a.year, a.month)
    requires 1 <= b.month <= 12 && 1 <= b.day <= MonthLength(b.year, b.month)
    requires DayNumber(a.year, a.month, a.day) == DayNumber(b.year, b.month, b.day)
    ensures a == b
  {
    DayInYear(a.year, a.month, a.day);
    DayInYear(b.year, b.month, b.day);
    if a.year < b.year { YearsGrow(a.year, b.year); }
    if b.year < a.year { YearsGrow(b.year, a.year); }
    if a.month < b.month { MonthsGrow(a.year, a.month, b.month); }
    if b.month < a.month { MonthsGrow(a.year, b.month, a.month); }
  }

  /** No two points in time have the same milliseconds. */
  lemma {:induction false} FieldsAreDetermined(f: Fields, g: Fields)
    requires Valid(f) && Valid(g) && Milliseconds(f) == Milliseconds(g)
    ensures f == g
  {
    DateIsDetermined(Date(f.year, f.month, f.day), Date(g.year, g.month, g.day));
  }

  /** Exactly the milliseconds of the years 1900 to 9999. */
  lemma {:induction false} ValidIsInRange(f: Fields)
    requires Valid(f)
    ensures MIN_MS <= Milliseconds(f) <= MAX_MS
  {
    DayInYear(f.year, f.month, f.day);
    if f.year > 1900 { YearsGrow(1900, f.year); }
    YearsGrow(f.year, 10000);
    assert DaysBeforeYear(1900) - DaysBeforeYear(1970) == -25567;
    assert DaysBeforeYear(10000) - DaysBeforeYear(1970) == 2932897;
  }
}

module UtcTime {
  import opened Collections
  import opened UtcCalendars

  datatype Calendar = Calendar(fields: Fields, weekday: int, dayOfYear: int)

  /** The milliseconds of seven calendar parts, refused unless they are a point in time of the years 1900 to 9999. */
  method MakeUtc(p: seq<int>) returns (result: Option<int>)
    requires |p| == 7
    ensures result == if Valid(Parts(p)) then Some(Milliseconds(Parts(p))) else None
  {
    if p[0] < 1900 || p[0] > 9999 || p[1] < 1 || p[1] > 12 || p[2] < 1 || p[3] < 0 || p[3] > 23 || p[4] < 0 || p[4] > 59 ||
       p[5] < 0 || p[5] > 59 || p[6] < 0 || p[6] > 999 {
      return None;
    }
    var year, month := p[0], p[1];
    if p[2] > MonthLength(year, month) { return None; }
    var days, m := DaysBeforeYear(year) - DaysBeforeYear(1970) + p[2] - 1, 1;
    while m < month
      invariant 1 <= m <= month
      invariant days == DaysBeforeYear(year) - DaysBeforeYear(1970) + p[2] - 1 + DaysBeforeMonth(year, m)
    {
      days := days + MonthLength(year, m);
      m := m + 1;
    }
    result := Some((((days * 24 + p[3]) * 60 + p[4]) * 60 + p[5]) * 1000 + p[6]);
  }

  function Parts(p: seq<int>): Fields
    requires |p| == 7
  {
    Fields(p[0], p[1], p[2], p[3], p[4], p[5], p[6])
  }

  /** The year of a day: the last one that begins no later. */
  method FindYear(absoluteDays: int) returns (year: int)
    requires DaysBeforeYear(1900) <= absoluteDays < DaysBeforeYear(10000)
    ensures 1900 <= year < 10000 && DaysBeforeYear(year) <= absoluteDays < DaysBeforeYear(year + 1)
  {
    var lower, upper := 1900, 10000;
    while lower + 1 < upper
      invariant 1900 <= lower < upper <= 10000
      invariant DaysBeforeYear(lower) <= absoluteDays < DaysBeforeYear(upper)
    {
      var middle := lower + (upper - lower) / 2;
      if DaysBeforeYear(middle) <= absoluteDays { lower := middle; } else { upper := middle; }
    }
    year := lower;
  }

  /** The month and day of a day of the year. */
  method FindMonth(year: int, dayOfYear: int) returns (month: int, day: int)
    requires 0 <= dayOfYear < YearLength(year)
    ensures 1 <= month <= 12 && 1 <= day <= MonthLength(year, month)
    ensures DaysBeforeMonth(year, month) + day - 1 == dayOfYear
  {
    var monthDay := dayOfYear;
    month := 1;
    MonthsFillTheYear(year);
    while month < 12
      invariant 1 <= month <= 12 && monthDay >= 0
      invariant monthDay + DaysBeforeMonth(year, month) == dayOfYear
      invariant month < 12 || monthDay < MonthLength(year, month)
    {
      var count := MonthLength(year, month);
      if monthDay < count { break; }
      monthDay := monthDay - count;
      month := month + 1;
    }
    day := monthDay + 1;
  }

  /** C++ division of a possibly negative number, adjusted to a remainder that is not negative. */
  method FloorDivide(value: int, divisor: int) returns (quotient: int, remainder: int)
    requires divisor > 0
    ensures value == quotient * divisor + remainder && 0 <= remainder < divisor
  {
    quotient := if value >= 0 then value / divisor else -((-value) / divisor);
    remainder := value - quotient * divisor;
    assert value < 0 ==> -value == ((-value) / divisor) * divisor + (-value) % divisor;
    if remainder < 0 { quotient, remainder := quotient - 1, remainder + divisor; }
  }

  /** The calendar of a Unix time in seconds. */
  method UtcCalendar(seconds: int) returns (calendar: Option<Calendar>)
    ensures calendar.Some? <==> -2208988800 <= seconds <= 253402300799
    ensures calendar.Some? ==> Shows(calendar.value, seconds)
  {
    if seconds < -2208988800 || seconds > 253402300799 { return None; }
    var days, daySeconds := FloorDivide(seconds, 86400);
    DayInRange(days, daySeconds);
    var absoluteDays := days + DaysBeforeYear(1970);
    var year := FindYear(absoluteDays);
    YearsAdjoin(year);
    var dayOfYear := absoluteDays - DaysBeforeYear(year);
    var month, day := FindMonth(year, dayOfYear);
    var weekday := Weekday(days);
    TimeOfDay(daySeconds);
    calendar := Some(Calendar(Fields(year, month, day, daySeconds / 3600, daySeconds / 60 % 60, daySeconds % 60, 0), weekday, dayOfYear));
  }

  lemma DayInRange(days: int, daySeconds: int)
    requires 0 <= daySeconds < 86400 && -2208988800 <= days * 86400 + daySeconds <= 253402300799
    ensures DaysBeforeYear(1900) <= days + DaysBeforeYear(1970) < DaysBeforeYear(10000)
  {
    assert DaysBeforeYear(1900) - DaysBeforeYear(1970) == -25567;
    assert DaysBeforeYear(10000) - DaysBeforeYear(1970) == 2932897;
  }

  lemma TimeOfDay(daySeconds: int)
    requires 0 <= daySeconds < 86400
    ensures 0 <= daySeconds / 3600 < 24
    ensures ((daySeconds / 3600) * 60 + daySeconds / 60 % 60) * 60 + daySeconds % 60 == daySeconds
  {
    assert daySeconds / 60 / 60 == daySeconds / 3600;
  }

  /** The day of the week; 1 January 1970 was a Thursday. */
  method Weekday(days: int) returns (weekday: int)
    ensures weekday == (days + 4) % 7
    ensures days == 0 ==> weekday == 4
  {
    weekday := if days + 4 >= 0 then (days + 4) % 7 else -((-(days + 4)) % 7);
    if weekday < 0 { weekday := weekday + 7; }
  }

  /** A calendar shows a time in seconds: its date and time of day are that time, its weekday counts from a Sunday. */
  ghost predicate Shows(calendar: Calendar, seconds: int) {
    var f := calendar.fields;
    && Valid(f) && f.millisecond == 0
    && DayNumber(f.year, f.month, f.day) * 86400 + DaySeconds(f) == seconds
    && calendar.weekday == (DayNumber(f.year, f.month, f.day) + 4) % 7
    && calendar.dayOfYear == DaysBeforeMonth(f.year, f.month) + f.day - 1
  }

  /** The parts of a time in milliseconds. */
  method ReadUtc(value: int) returns (calendar: Option<Calendar>)
    ensures calendar.Some? <==> MIN_MS <= value <= MAX_MS
    ensures calendar.Some? ==> Valid(calendar.value.fields) && Milliseconds(calendar.value.fields) == value
    ensures calendar.Some? ==> var f := calendar.value.fields; calendar.value.weekday == (DayNumber(f.year, f.month, f.day) + 4) % 7
  {
    if value < MIN_MS || value > MAX_MS { return None; }
    var seconds, milliseconds := FloorDivide(value, 1000);
    calendar := UtcCalendar(seconds);
    calendar := Some(calendar.value.(fields := calendar.value.fields.(millisecond := milliseconds)));
  }

  /** Seven parts make a time, and the parts of that time are the same seven. */
  method PartsAndBack(p: seq<int>) returns (parts: seq<int>)
    requires |p| == 7 && Valid(Parts(p))
    ensures parts == p
  {
    var value := MakeUtc(p);
    ValidIsInRange(Parts(p));
    var calendar := ReadUtc(value.value);
    var f := calendar.value.fields;
    FieldsAreDetermined(f, Parts(p));
    parts := [f.year, f.month, f.day, f.hour, f.minute, f.second, f.millisecond];
  }

  /** A time of the years 1900 to 9999 has parts, and they make that time. */
  method TimeAndBack(value: int) returns (back: Option<int>)
    requires MIN_MS <= value <= MAX_MS
    ensures back == Some(value)
  {
    var calendar := ReadUtc(value);
    var f := calendar.value.fields;
    back := MakeUtc([f.year, f.month, f.day, f.hour, f.minute, f.second, f.millisecond]);
  }
}
