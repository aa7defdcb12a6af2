/** A proleptic Gregorian calendar in UTC at one-second resolution: the part
    of chrono's `DateTime<Utc>` that the schedulers use. An instant is an
    `int` count of seconds since 1970-01-01T00:00:00Z; a `DateTime` is its
    broken-down form. */
module Calendar {
  import opened Wrappers

  const SecondsPerDay := 86400

  predicate IsLeapYear(y: int) {
    y % 4 == 0 && (y % 100 != 0 || y % 400 == 0)
  }

  lemma LeapYearIsFollowedByCommon(y: int)
    requires IsLeapYear(y)
    ensures !IsLeapYear(y + 1)
  {
    assert (y + 1) % 4 == 1;
  }

  function DaysInYear(y: int): int {
    if IsLeapYear(y) then 366 else 365
  }

  function DaysInMonth(y: int, m: int): int
    requires 1 <= m <= 12
  {
    if m == 2 then (if IsLeapYear(y) then 29 else 28)
    else if m == 4 || m == 6 || m == 9 || m == 11 then 30
    else 31
  }

  /** Days of year `y` that precede the first of month `m`; `m == 13`
      gives the length of the year. */
  function DaysBeforeMonth(y: int, m: int): int
    requires 1 <= m <= 13
  {
    if m == 1 then 0 else DaysBeforeMonth(y, m - 1) + DaysInMonth(y, m - 1)
  }

  /** Number of leap years among 1..n, counted with a sign for n < 1. */
  function LeapsThrough(n: int): int {
    n / 4 - n / 100 + n / 400
  }

  /** Days from 1970-01-01 to January 1 of year `y` (negative before 1970). */
  function DaysBeforeYear(y: int): int {
    365 * (y - 1970) + LeapsThrough(y - 1) - LeapsThrough(1969)
  }

  lemma Div4Step(n: int)
    ensures n / 4 - (n - 1) / 4 == if n % 4 == 0 then 1 else 0
  {
  }

  lemma Div100Step(n: int)
    ensures n / 100 - (n - 1) / 100 == if n % 100 == 0 then 1 else 0
  {
  }

  lemma Div400Step(n: int)
    ensures n / 400 - (n - 1) / 400 == if n % 400 == 0 then 1 else 0
  {
  }

  lemma LeapStep(n: int)
    ensures LeapsThrough(n) - LeapsThrough(n - 1) == if IsLeapYear(n) then 1 else 0
  {
    Div4Step(n);
    Div100Step(n);
    Div400Step(n);
  }

  lemma YearStep(y: int)
    ensures DaysBeforeYear(y + 1) == DaysBeforeYear(y) + DaysInYear(y)
  {
    LeapStep(y);
  }

  lemma {:induction false} LeapsBetween(n: int, m: int)
    requires n <= m
    ensures 0 <= LeapsThrough(m) - LeapsThrough(n) <= m - n
    decreases m - n
  {
    if n < m {
      LeapsBetween(n, m - 1);
      LeapStep(m);
    }
  }

  /** Every year has 365 or 366 days, so `y2 - y1` years span between
      365 and 366 days apiece. */
  lemma YearsBetween(y1: int, y2: int)
    requires y1 <= y2
    ensures 365 * (y2 - y1) <= DaysBeforeYear(y2) - DaysBeforeYear(y1) <= 366 * (y2 - y1)
  {
    LeapsBetween(y1 - 1, y2 - 1);
  }

  /** A year that starts no later than day `z`. */
  function YearEstimate(z: int): (y: int)
    ensures DaysBeforeYear(y) <= z
  {
    if z >= 0 then
      var y := 1970 + z / 366;
      YearsBetween(1970, y);
      y
    else
      var y := 1970 + z / 365;
      YearsBetween(y, 1970);
      y
  }

  /** Searches upward from year `y` for the year holding day `z`. */
  function FindYear(z: int, y: int): (r: int)
    requires DaysBeforeYear(y) <= z
    ensures DaysBeforeYear(r) <= z < DaysBeforeYear(r + 1)
    decreases z - DaysBeforeYear(y)
  {
    YearStep(y);
    if z < DaysBeforeYear(y + 1) then y else FindYear(z, y + 1)
  }

  /** The year that holds day `z` (days counted from 1970-01-01). */
  function YearOf(z: int): (y: int)
    ensures DaysBeforeYear(y) <= z < DaysBeforeYear(y + 1)
  {
    FindYear(z, YearEstimate(z))
  }

  lemma MonthStep(y: int, m: int)
    requires 1 <= m <= 12
    ensures DaysBeforeMonth(y, m + 1) == DaysBeforeMonth(y, m) + DaysInMonth(y, m)
  {
  }

  lemma {:induction false} MonthsBetween(y: int, m1: int, m2: int)
    requires 1 <= m1 <= m2 <= 13
    ensures DaysBeforeMonth(y, m1) <= DaysBeforeMonth(y, m2)
    decreases m2 - m1
  {
    if m1 < m2 {
      MonthsBetween(y, m1, m2 - 1);
    }
  }

  lemma YearLength(y: int)
    ensures DaysBeforeMonth(y, 13) == DaysInYear(y)
  {
    var feb := DaysInMonth(y, 2);
    assert DaysBeforeMonth(y, 2) == 31;
    assert DaysBeforeMonth(y, 3) == 31 + feb;
    assert DaysBeforeMonth(y, 4) == 62 + feb;
    assert DaysBeforeMonth(y, 5) == 92 + feb;
    assert DaysBeforeMonth(y, 6) == 123 + feb;
    assert DaysBeforeMonth(y, 7) == 153 + feb;
    assert DaysBeforeMonth(y, 8) == 184 + feb;
    assert DaysBeforeMonth(y, 9) == 215 + feb;
    assert DaysBeforeMonth(y, 10) == 245 + feb;
    assert DaysBeforeMonth(y, 11) == 276 + feb;
    assert DaysBeforeMonth(y, 12) == 306 + feb;
    assert DaysBeforeMonth(y, 13) == 337 + feb;
  }

  /** The month that holds day `doy` (counted from 0) of year `y`,
      searching upward from month `m`. */
  function MonthFrom(y: int, doy: int, m: int): (r: int)
    requires 1 <= m <= 12 && DaysBeforeMonth(y, m) <= doy < DaysBeforeMonth(y, 13)
    ensures m <= r <= 12
    ensures DaysBeforeMonth(y, r) <= doy < DaysBeforeMonth(y, r + 1)
    decreases 12 - m
  {
    if m == 12 || doy < DaysBeforeMonth(y, m + 1) then m else MonthFrom(y, doy, m + 1)
  }

  /** The month that holds day `doy` (counted from 0) of year `y`. */
  function MonthOf(y: int, doy: int): (m: int)
    requires 0 <= doy < DaysInYear(y)
    ensures 1 <= m <= 12
    ensures DaysBeforeMonth(y, m) <= doy < DaysBeforeMonth(y, m + 1)
  {
    YearLength(y);
    MonthFrom(y, doy, 1)
  }

  /** The broken-down form of an instant, as chrono's accessors report it. */
  datatype DateTime = DateTime(year: int, month: int, day: int, hour: int, minute: int, second: int)

  predicate ValidDate(y: int, m: int, d: int) {
    1 <= m <= 12 && 1 <= d <= DaysInMonth(y, m)
  }

  predicate Valid(dt: DateTime) {
    && ValidDate(dt.year, dt.month, dt.day)
    && 0 <= dt.hour < 24
    && 0 <= dt.minute < 60
    && 0 <= dt.second < 60
  }

  /** Days from 1970-01-01 to the date of `dt`. */
  function DayNumber(dt: DateTime): int
    requires ValidDate(dt.year, dt.month, dt.day)
  {
    DaysBeforeYear(dt.year) + DaysBeforeMonth(dt.year, dt.month) + dt.day - 1
  }

  function ToUnix(dt: DateTime): int
    requires Valid(dt)
  {
    DayNumber(dt) * SecondsPerDay + dt.hour * 3600 + dt.minute * 60 + dt.second
  }

  /** The date and time of an instant: the inverse of `ToUnix`. */
  function FromUnix(t: int): (dt: DateTime)
    ensures Valid(dt)
    ensures ToUnix(dt) == t
  {
    var days := t / SecondsPerDay;
    var secs := t % SecondsPerDay;
    SplitDay(secs);
    var y := YearOf(days);
    YearStep(y);
    YearLength(y);
    var doy := days - DaysBeforeYear(y);
    var m := MonthOf(y, doy);
    MonthStep(y, m);
    var dt := DateTime(y, m, doy - DaysBeforeMonth(y, m) + 1, secs / 3600, secs % 3600 / 60, secs % 60);
    assert ValidDate(y, m, dt.day);
    assert DayNumber(dt) == days;
    assert ToUnix(dt) == days * SecondsPerDay + secs;
    dt
  }

  /** A second of the day splits into hour, minute and second. */
  lemma SplitDay(secs: int)
    requires 0 <= secs < SecondsPerDay
    ensures 0 <= secs / 3600 < 24 && 0 <= secs % 3600 / 60 < 60 && 0 <= secs % 60 < 60
    ensures secs / 3600 * 3600 + secs % 3600 / 60 * 60 + secs % 60 == secs
  {
  }

  /** Day of the week counted from 0 = Monday (`num_days_from_monday`);
      1970-01-01 was a Thursday. */
  function Weekday(dt: DateTime): (w: int)
    requires ValidDate(dt.year, dt.month, dt.day)
    ensures 0 <= w < 7
  {
    (DayNumber(dt) + 3) % 7
  }

  /** The weekday steps by one, Sunday wrapping round to Monday, from each
      date to the next. */
  lemma WeekdayAdvances(dt: DateTime)
    requires Valid(dt)
    ensures Weekday(Tomorrow(dt)) == (Weekday(dt) + 1) % 7
  {
    var n := DayNumber(dt) + 3;
    TomorrowIsNextDay(dt);
    assert Weekday(Tomorrow(dt)) == (n + 1) % 7;
    assert Weekday(dt) == n % 7;
    WeekStep(n);
  }

  lemma WeekStep(n: int)
    ensures (n + 1) % 7 == (n % 7 + 1) % 7
  {
  }

  /** The numbering starts from Monday: 2023-01-01 was a Sunday and
      2023-01-02 a Monday. */
  lemma WeekdayOrigin()
    ensures Weekday(DateTime(2023, 1, 1, 0, 0, 0)) == 6
    ensures Weekday(DateTime(2023, 1, 2, 0, 0, 0)) == 0
  {
  }

  /** `a` comes strictly before `b` in field order year, month, day, hour,
      minute, second. */
  predicate Before(a: DateTime, b: DateTime) {
    || a.year < b.year
    || (a.year == b.year && a.month < b.month)
    || (a.year == b.year && a.month == b.month && a.day < b.day)
    || (a.year == b.year && a.month == b.month && a.day == b.day && a.hour < b.hour)
    || (a.year == b.year && a.month == b.month && a.day == b.day && a.hour == b.hour && a.minute < b.minute)
    || (a.year == b.year && a.month == b.month && a.day == b.day && a.hour == b.hour && a.minute == b.minute
        && a.second < b.second)
  }

  lemma BeforeIsTransitive(a: DateTime, b: DateTime, c: DateTime)
    requires !Before(a, b) && Before(c, b)
    ensures !Before(a, c)
  {
  }

  /** Field order is total: date-times that neither precede the other are
      equal. */
  lemma BeforeIsTotal(a: DateTime, b: DateTime)
    requires !Before(a, b) && !Before(b, a)
    ensures a == b
  {
  }

  lemma DayNumberMonotonic(a: DateTime, b: DateTime)
    requires ValidDate(a.year, a.month, a.day) && ValidDate(b.year, b.month, b.day)
    requires a.year < b.year || (a.year == b.year && (a.month < b.month || (a.month == b.month && a.day < b.day)))
    ensures DayNumber(a) < DayNumber(b)
  {
    if a.year < b.year {
      DayOfYearBound(a);
      DayOfYearBound(b);
      YearStep(a.year);
      YearsBetween(a.year + 1, b.year);
    } else if a.month < b.month {
      MonthStep(a.year, a.month);
      MonthsBetween(a.year, a.month + 1, b.month);
    }
  }

  /** The date of `dt` is one of the days of its year. */
  lemma DayOfYearBound(dt: DateTime)
    requires ValidDate(dt.year, dt.month, dt.day)
    ensures 0 <= DaysBeforeMonth(dt.year, dt.month) + dt.day - 1 < DaysInYear(dt.year)
  {
    MonthStep(dt.year, dt.month);
    MonthsBetween(dt.year, dt.month + 1, 13);
    MonthsBetween(dt.year, 1, dt.month);
    YearLength(dt.year);
  }

  /** `ToUnix` preserves the field order. */
  lemma ToUnixMonotonic(a: DateTime, b: DateTime)
    requires Valid(a) && Valid(b) && Before(a, b)
    ensures ToUnix(a) < ToUnix(b)
  {
    if a.year != b.year || a.month != b.month || a.day != b.day {
      DayNumberMonotonic(a, b);
    }
  }

  /** A date-time at second 0 is a whole number of minutes from the epoch. */
  lemma WholeMinute(dt: DateTime)
    requires Valid(dt) && dt.second == 0
    ensures ToUnix(dt) % 60 == 0
  {
    MinutesToSeconds(DayNumber(dt), dt.hour, dt.minute);
  }

  lemma MinutesToSeconds(days: int, hour: int, minute: int)
    ensures (days * SecondsPerDay + hour * 3600 + minute * 60) % 60 == 0
  {
    assert days * SecondsPerDay + hour * 3600 + minute * 60 == (days * 1440 + hour * 60 + minute) * 60;
  }

  /** `FromUnix` is also a left inverse of `ToUnix`. */
  lemma FromUnixToUnix(dt: DateTime)
    requires Valid(dt)
    ensures FromUnix(ToUnix(dt)) == dt
  {
    var e := FromUnix(ToUnix(dt));
    if Before(e, dt) {
      ToUnixMonotonic(e, dt);
    } else if Before(dt, e) {
      ToUnixMonotonic(dt, e);
    }
  }

  /** `FromUnix` preserves the order of instants. */
  lemma FromUnixMonotonic(t1: int, t2: int)
    requires t1 < t2
    ensures Before(FromUnix(t1), FromUnix(t2))
  {
    var a, b := FromUnix(t1), FromUnix(t2);
    if Before(b, a) {
      ToUnixMonotonic(b, a);
    }
  }

  /** Midnight of the day after `dt`'s date. */
  function Tomorrow(dt: DateTime): (r: DateTime)
    requires Valid(dt)
    ensures Valid(r) && Before(dt, r)
    ensures r.hour == 0 && r.minute == 0 && r.second == 0
  {
    if dt.day < DaysInMonth(dt.year, dt.month) then DateTime(dt.year, dt.month, dt.day + 1, 0, 0, 0)
    else if dt.month < 12 then DateTime(dt.year, dt.month + 1, 1, 0, 0, 0)
    else DateTime(dt.year + 1, 1, 1, 0, 0, 0)
  }

  lemma TomorrowIsNextDay(dt: DateTime)
    requires Valid(dt)
    ensures DayNumber(Tomorrow(dt)) == DayNumber(dt) + 1
    ensures ToUnix(Tomorrow(dt)) == (DayNumber(dt) + 1) * SecondsPerDay
  {
    MonthStep(dt.year, dt.month);
    if dt.day == DaysInMonth(dt.year, dt.month) && dt.month == 12 {
      YearStep(dt.year);
      YearLength(dt.year);
    }
  }

  /** The first second of `dt`'s date. */
  function Midnight(dt: DateTime): DateTime {
    dt.(hour := 0, minute := 0, second := 0)
  }

  /** A day after midnight is the next day's midnight. */
  lemma DayAfterMidnight(dt: DateTime)
    requires Valid(dt)
    ensures AddSeconds(Midnight(dt), SecondsPerDay) == Tomorrow(dt)
  {
    MidnightToMidnight(dt);
    FromUnixToUnix(Tomorrow(dt));
  }

  lemma MidnightToMidnight(dt: DateTime)
    requires Valid(dt)
    ensures ToUnix(Midnight(dt)) + SecondsPerDay == ToUnix(Tomorrow(dt))
  {
    assert DayNumber(Midnight(dt)) == DayNumber(dt);
    TomorrowIsNextDay(dt);
  }

  // chrono's field setters: each returns None when the date or time it
  // would produce does not exist.

  function Checked(dt: DateTime): Option<DateTime> {
    if Valid(dt) then Some(dt) else None
  }

  function WithYear(dt: DateTime, year: int): Option<DateTime> {
    Checked(dt.(year := year))
  }

  function WithMonth(dt: DateTime, month: int): Option<DateTime> {
    Checked(dt.(month := month))
  }

  function WithDay(dt: DateTime, day: int): Option<DateTime> {
    Checked(dt.(day := day))
  }

  function WithHour(dt: DateTime, hour: int): Option<DateTime> {
    Checked(dt.(hour := hour))
  }

  function WithMinute(dt: DateTime, minute: int): Option<DateTime> {
    Checked(dt.(minute := minute))
  }

  function WithSecond(dt: DateTime, second: int): Option<DateTime> {
    Checked(dt.(second := second))
  }

  /** `dt + Duration::from_secs(n)`. */
  function AddSeconds(dt: DateTime, n: nat): DateTime
    requires Valid(dt)
  {
    FromUnix(ToUnix(dt) + n)
  }
}
