/** The cron scenarios of src/tests.rs, traced pass by pass through the
    loop. Each lemma states one query of a test and the answer the test
    expects; the body lists the candidates the loop visits. */
module CronExamples {
  import opened Wrappers
  import opened Calendar
  import opened CronSchedules

  lemma Advances(c: CronSchedule, dt: DateTime, next: DateTime, fuel: nat, r: Outcome<DateTime>)
    requires Valid(dt) && Pass(c, dt) == Advance(next) && Search(c, next, fuel) == r
    ensures Search(c, dt, fuel + 1) == r
  {
  }

  lemma Accepts(c: CronSchedule, dt: DateTime, fuel: nat)
    requires Valid(dt) && fuel >= 1 && Pass(c, dt) == Accept
    ensures Search(c, dt, fuel) == Returned(dt)
  {
  }

  /** The query after `prev` starts at `dt`, one second later. */
  lemma Starts(c: CronSchedule, prev: DateTime, dt: DateTime, fuel: nat)
    requires Valid(prev) && Valid(dt) && ToUnix(prev) + 1 == ToUnix(dt)
    ensures NextOccurrence(c, ToUnix(prev), fuel) == AsInstant(Search(c, dt, fuel))
  {
    QueryStartsAt(c, ToUnix(prev), dt, fuel);
  }

  /** `CronSchedule::new().hour(h).minute(m)`, through the setters. */
  function Daily(h: nat, m: nat): (c: CronSchedule)
    requires h < 24 && m < 60
    ensures c == CronSchedule(Some(m), Some(h), None, None, None)
  {
    SetMinute(SetHour(New(), h).value, m).value
  }

  /** `CronSchedule::new().weekday(w).hour(h).minute(m)`. */
  function Weekly(w: nat, h: nat, m: nat): (c: CronSchedule)
    requires w < 7 && h < 24 && m < 60
    ensures c == CronSchedule(Some(m), Some(h), None, None, Some(w))
  {
    SetMinute(SetHour(SetWeekday(New(), w).value, h).value, m).value
  }

  /** `CronSchedule::new().day(d).hour(h).minute(m)`. */
  function Monthly(d: nat, h: nat, m: nat): (c: CronSchedule)
    requires 1 <= d <= 31 && h < 24 && m < 60
    ensures c == CronSchedule(Some(m), Some(h), Some(d), None, None)
  {
    SetMinute(SetHour(SetDay(New(), d).value, h).value, m).value
  }

  /** `Daily(0, 0)`: every day at midnight. */
  const EveryMidnight := CronSchedule(Some(0), Some(0), None, None, None)

  /** `Daily(12, 0)`: every day at noon. */
  const EveryNoon := CronSchedule(Some(0), Some(12), None, None, None)

  /** `Weekly(0, 9, 0)`: Mondays at 09:00. */
  const MondaysAtNine := CronSchedule(Some(0), Some(9), None, None, Some(0))

  /** `Weekly(5, 10, 0)`: Saturdays at 10:00. */
  const SaturdaysAtTen := CronSchedule(Some(0), Some(10), None, None, Some(5))

  /** `Monthly(1, 12, 0)`: the 1st of each month at noon. */
  const FirstAtNoon := CronSchedule(Some(0), Some(12), Some(1), None, None)

  /** `Monthly(15, 0, 0)`: the 15th of each month at midnight. */
  const FifteenthAtMidnight := CronSchedule(Some(0), Some(0), Some(15), None, None)

  /** The pass at 2 January 00:00:00 accepts it. */
  lemma DailyAtMidnightFirstFrom1()
    ensures Search(EveryMidnight, DateTime(2023, 1, 2, 0, 0, 0), 1) == Returned(DateTime(2023, 1, 2, 0, 0, 0))
  {
    assert Pass(EveryMidnight, DateTime(2023, 1, 2, 0, 0, 0)) == Accept;
    Accepts(EveryMidnight, DateTime(2023, 1, 2, 0, 0, 0), 1);
  }

  /** Daily at midnight (tests.rs:161-170): from 01:00 on 1 January 2023 the
      next run is midnight on 2 January. */
  lemma DailyAtMidnightFirst()
    ensures NextOccurrence(Daily(0, 0), ToUnix(DateTime(2023, 1, 1, 1, 0, 0)), 2)
            == Returned(ToUnix(DateTime(2023, 1, 2, 0, 0, 0)))
  {
    assert Daily(0, 0) == EveryMidnight;
    assert ToUnix(DateTime(2023, 1, 1, 1, 0, 0)) + 1 == ToUnix(DateTime(2023, 1, 1, 1, 0, 1));
    assert Pass(EveryMidnight, DateTime(2023, 1, 1, 1, 0, 1)) == Advance(DateTime(2023, 1, 2, 0, 0, 0));
    var r := Returned(DateTime(2023, 1, 2, 0, 0, 0));
    DailyAtMidnightFirstFrom1();
    Advances(EveryMidnight, DateTime(2023, 1, 1, 1, 0, 1), DateTime(2023, 1, 2, 0, 0, 0), 1, r);
    Starts(EveryMidnight, DateTime(2023, 1, 1, 1, 0, 0), DateTime(2023, 1, 1, 1, 0, 1), 2);
  }

  /** The pass at 3 January 00:00:00 accepts it. */
  lemma DailyAtMidnightSecondFrom1()
    ensures Search(EveryMidnight, DateTime(2023, 1, 3, 0, 0, 0), 1) == Returned(DateTime(2023, 1, 3, 0, 0, 0))
  {
    assert Pass(EveryMidnight, DateTime(2023, 1, 3, 0, 0, 0)) == Accept;
    Accepts(EveryMidnight, DateTime(2023, 1, 3, 0, 0, 0), 1);
  }

  /** Daily at midnight (tests.rs:171-174): from 01:00 on 2 January, midnight
      on 3 January. */
  lemma DailyAtMidnightSecond()
    ensures NextOccurrence(Daily(0, 0), ToUnix(DateTime(2023, 1, 2, 1, 0, 0)), 2)
            == Returned(ToUnix(DateTime(2023, 1, 3, 0, 0, 0)))
  {
    assert Daily(0, 0) == EveryMidnight;
    assert ToUnix(DateTime(2023, 1, 2, 1, 0, 0)) + 1 == ToUnix(DateTime(2023, 1, 2, 1, 0, 1));
    assert Pass(EveryMidnight, DateTime(2023, 1, 2, 1, 0, 1)) == Advance(DateTime(2023, 1, 3, 0, 0, 0));
    var r := Returned(DateTime(2023, 1, 3, 0, 0, 0));
    DailyAtMidnightSecondFrom1();
    Advances(EveryMidnight, DateTime(2023, 1, 2, 1, 0, 1), DateTime(2023, 1, 3, 0, 0, 0), 1, r);
    Starts(EveryMidnight, DateTime(2023, 1, 2, 1, 0, 0), DateTime(2023, 1, 2, 1, 0, 1), 2);
  }

  /** The pass at 2 January 09:00:00 accepts it. */
  lemma WeeklyOnMondayFirstFrom2()
    ensures Search(MondaysAtNine, DateTime(2023, 1, 2, 9, 0, 0), 1) == Returned(DateTime(2023, 1, 2, 9, 0, 0))
  {
    assert Pass(MondaysAtNine, DateTime(2023, 1, 2, 9, 0, 0)) == Accept;
    Accepts(MondaysAtNine, DateTime(2023, 1, 2, 9, 0, 0), 1);
  }

  /** From 2 January 00:00:00 the pass moves on to 2 January 09:00:00; the search
      ends at 2 January 09:00:00. */
  lemma WeeklyOnMondayFirstFrom1()
    ensures Search(MondaysAtNine, DateTime(2023, 1, 2, 0, 0, 0), 2) == Returned(DateTime(2023, 1, 2, 9, 0, 0))
  {
    assert Pass(MondaysAtNine, DateTime(2023, 1, 2, 0, 0, 0)) == Advance(DateTime(2023, 1, 2, 9, 0, 0));
    var r := Returned(DateTime(2023, 1, 2, 9, 0, 0));
    WeeklyOnMondayFirstFrom2();
    Advances(MondaysAtNine, DateTime(2023, 1, 2, 0, 0, 0), DateTime(2023, 1, 2, 9, 0, 0), 1, r);
  }

  /** Mondays at 09:00 (tests.rs:176-194): 1 January 2023 is a Sunday, so from
      its midnight the next run is 2 January 09:00. */
  lemma WeeklyOnMondayFirst()
    ensures NextOccurrence(Weekly(0, 9, 0), ToUnix(DateTime(2023, 1, 1, 0, 0, 0)), 3)
            == Returned(ToUnix(DateTime(2023, 1, 2, 9, 0, 0)))
  {
    assert Weekly(0, 9, 0) == MondaysAtNine;
    assert ToUnix(DateTime(2023, 1, 1, 0, 0, 0)) + 1 == ToUnix(DateTime(2023, 1, 1, 0, 0, 1));
    assert Pass(MondaysAtNine, DateTime(2023, 1, 1, 0, 0, 1)) == Advance(DateTime(2023, 1, 2, 0, 0, 0));
    var r := Returned(DateTime(2023, 1, 2, 9, 0, 0));
    WeeklyOnMondayFirstFrom1();
    Advances(MondaysAtNine, DateTime(2023, 1, 1, 0, 0, 1), DateTime(2023, 1, 2, 0, 0, 0), 2, r);
    Starts(MondaysAtNine, DateTime(2023, 1, 1, 0, 0, 0), DateTime(2023, 1, 1, 0, 0, 1), 3);
  }

  /** The pass at 9 January 09:00:00 accepts it. */
  lemma WeeklyOnMondaySecondFrom9()
    ensures Search(MondaysAtNine, DateTime(2023, 1, 9, 9, 0, 0), 1) == Returned(DateTime(2023, 1, 9, 9, 0, 0))
  {
    assert Pass(MondaysAtNine, DateTime(2023, 1, 9, 9, 0, 0)) == Accept;
    Accepts(MondaysAtNine, DateTime(2023, 1, 9, 9, 0, 0), 1);
  }

  /** From 9 January 00:00:00 the pass moves on to 9 January 09:00:00; the search
      ends at 9 January 09:00:00. */
  lemma WeeklyOnMondaySecondFrom8()
    ensures Search(MondaysAtNine, DateTime(2023, 1, 9, 0, 0, 0), 2) == Returned(DateTime(2023, 1, 9, 9, 0, 0))
  {
    assert Pass(MondaysAtNine, DateTime(2023, 1, 9, 0, 0, 0)) == Advance(DateTime(2023, 1, 9, 9, 0, 0));
    var r := Returned(DateTime(2023, 1, 9, 9, 0, 0));
    WeeklyOnMondaySecondFrom9();
    Advances(MondaysAtNine, DateTime(2023, 1, 9, 0, 0, 0), DateTime(2023, 1, 9, 9, 0, 0), 1, r);
  }

  /** From 8 January 00:00:00 the pass moves on to 9 January 00:00:00; the search
      ends at 9 January 09:00:00. */
  lemma WeeklyOnMondaySecondFrom7()
    ensures Search(MondaysAtNine, DateTime(2023, 1, 8, 0, 0, 0), 3) == Returned(DateTime(2023, 1, 9, 9, 0, 0))
  {
    assert Pass(MondaysAtNine, DateTime(2023, 1, 8, 0, 0, 0)) == Advance(DateTime(2023, 1, 9, 0, 0, 0));
    var r := Returned(DateTime(2023, 1, 9, 9, 0, 0));
    WeeklyOnMondaySecondFrom8();
    Advances(MondaysAtNine, DateTime(2023, 1, 8, 0, 0, 0), DateTime(2023, 1, 9, 0, 0, 0), 2, r);
  }

  /** From 7 January 00:00:00 the pass moves on to 8 January 00:00:00; the search
      ends at 9 January 09:00:00. */
  lemma WeeklyOnMondaySecondFrom6()
    ensures Search(MondaysAtNine, DateTime(2023, 1, 7, 0, 0, 0), 4) == Returned(DateTime(2023, 1, 9, 9, 0, 0))
  {
    assert Pass(MondaysAtNine, DateTime(2023, 1, 7, 0, 0, 0)) == Advance(DateTime(2023, 1, 8, 0, 0, 0));
    var r := Returned(DateTime(2023, 1, 9, 9, 0, 0));
    WeeklyOnMondaySecondFrom7();
    Advances(MondaysAtNine, DateTime(2023, 1, 7, 0, 0, 0), DateTime(2023, 1, 8, 0, 0, 0), 3, r);
  }

  /** From 6 January 00:00:00 the pass moves on to 7 January 00:00:00; the search
      ends at 9 January 09:00:00. */
  lemma WeeklyOnMondaySecondFrom5()
    ensures Search(MondaysAtNine, DateTime(2023, 1, 6, 0, 0, 0), 5) == Returned(DateTime(2023, 1, 9, 9, 0, 0))
  {
    assert Pass(MondaysAtNine, DateTime(2023, 1, 6, 0, 0, 0)) == Advance(DateTime(2023, 1, 7, 0, 0, 0));
    var r := Returned(DateTime(2023, 1, 9, 9, 0, 0));
    WeeklyOnMondaySecondFrom6();
    Advances(MondaysAtNine, DateTime(2023, 1, 6, 0, 0, 0), DateTime(2023, 1, 7, 0, 0, 0), 4, r);
  }

  /** From 5 January 00:00:00 the pass moves on to 6 January 00:00:00; the search
      ends at 9 January 09:00:00. */
  lemma WeeklyOnMondaySecondFrom4()
    ensures Search(MondaysAtNine, DateTime(2023, 1, 5, 0, 0, 0), 6) == Returned(DateTime(2023, 1, 9, 9, 0, 0))
  {
    assert Pass(MondaysAtNine, DateTime(2023, 1, 5, 0, 0, 0)) == Advance(DateTime(2023, 1, 6, 0, 0, 0));
    var r := Returned(DateTime(2023, 1, 9, 9, 0, 0));
    WeeklyOnMondaySecondFrom5();
    Advances(MondaysAtNine, DateTime(2023, 1, 5, 0, 0, 0), DateTime(2023, 1, 6, 0, 0, 0), 5, r);
  }

  /** From 4 January 00:00:00 the pass moves on to 5 January 00:00:00; the search
      ends at 9 January 09:00:00. */
  lemma WeeklyOnMondaySecondFrom3()
    ensures Search(MondaysAtNine, DateTime(2023, 1, 4, 0, 0, 0), 7) == Returned(DateTime(2023, 1, 9, 9, 0, 0))
  {
    assert Pass(MondaysAtNine, DateTime(2023, 1, 4, 0, 0, 0)) == Advance(DateTime(2023, 1, 5, 0, 0, 0));
    var r := Returned(DateTime(2023, 1, 9, 9, 0, 0));
    WeeklyOnMondaySecondFrom4();
    Advances(MondaysAtNine, DateTime(2023, 1, 4, 0, 0, 0), DateTime(2023, 1, 5, 0, 0, 0), 6, r);
  }

  /** From 3 January 00:00:00 the pass moves on to 4 January 00:00:00; the search
      ends at 9 January 09:00:00. */
  lemma WeeklyOnMondaySecondFrom2()
    ensures Search(MondaysAtNine, DateTime(2023, 1, 3, 0, 0, 0), 8) == Returned(DateTime(2023, 1, 9, 9, 0, 0))
  {
    assert Pass(MondaysAtNine, DateTime(2023, 1, 3, 0, 0, 0)) == Advance(DateTime(2023, 1, 4, 0, 0, 0));
    var r := Returned(DateTime(2023, 1, 9, 9, 0, 0));
    WeeklyOnMondaySecondFrom3();
    Advances(MondaysAtNine, DateTime(2023, 1, 3, 0, 0, 0), DateTime(2023, 1, 4, 0, 0, 0), 7, r);
  }

  /** From 2 January 10:00:00 the pass moves on to 3 January 00:00:00; the search
      ends at 9 January 09:00:00. */
  lemma WeeklyOnMondaySecondFrom1()
    ensures Search(MondaysAtNine, DateTime(2023, 1, 2, 10, 0, 0), 9) == Returned(DateTime(2023, 1, 9, 9, 0, 0))
  {
    assert Pass(MondaysAtNine, DateTime(2023, 1, 2, 10, 0, 0)) == Advance(DateTime(2023, 1, 3, 0, 0, 0));
    var r := Returned(DateTime(2023, 1, 9, 9, 0, 0));
    WeeklyOnMondaySecondFrom2();
    Advances(MondaysAtNine, DateTime(2023, 1, 2, 10, 0, 0), DateTime(2023, 1, 3, 0, 0, 0), 8, r);
  }

  /** Mondays at 09:00 (tests.rs:195-200): from 09:01 on 2 January the next
      run is 9 January 09:00. */
  lemma WeeklyOnMondaySecond()
    ensures NextOccurrence(Weekly(0, 9, 0), ToUnix(DateTime(2023, 1, 2, 9, 1, 0)), 10)
            == Returned(ToUnix(DateTime(2023, 1, 9, 9, 0, 0)))
  {
    assert Weekly(0, 9, 0) == MondaysAtNine;
    assert ToUnix(DateTime(2023, 1, 2, 9, 1, 0)) + 1 == ToUnix(DateTime(2023, 1, 2, 9, 1, 1));
    assert Pass(MondaysAtNine, DateTime(2023, 1, 2, 9, 1, 1)) == Advance(DateTime(2023, 1, 2, 10, 0, 0));
    var r := Returned(DateTime(2023, 1, 9, 9, 0, 0));
    WeeklyOnMondaySecondFrom1();
    Advances(MondaysAtNine, DateTime(2023, 1, 2, 9, 1, 1), DateTime(2023, 1, 2, 10, 0, 0), 9, r);
    Starts(MondaysAtNine, DateTime(2023, 1, 2, 9, 1, 0), DateTime(2023, 1, 2, 9, 1, 1), 10);
  }

  /** The pass at 1 January 12:00:00 accepts it. */
  lemma MonthlyOnTheFirstSameDayFrom1()
    ensures Search(FirstAtNoon, DateTime(2023, 1, 1, 12, 0, 0), 1) == Returned(DateTime(2023, 1, 1, 12, 0, 0))
  {
    assert Pass(FirstAtNoon, DateTime(2023, 1, 1, 12, 0, 0)) == Accept;
    Accepts(FirstAtNoon, DateTime(2023, 1, 1, 12, 0, 0), 1);
  }

  /** The 1st of each month at noon (tests.rs:202-217): from midnight on
      1 January, the same day's noon. */
  lemma MonthlyOnTheFirstSameDay()
    ensures NextOccurrence(Monthly(1, 12, 0), ToUnix(DateTime(2023, 1, 1, 0, 0, 0)), 2)
            == Returned(ToUnix(DateTime(2023, 1, 1, 12, 0, 0)))
  {
    assert Monthly(1, 12, 0) == FirstAtNoon;
    assert ToUnix(DateTime(2023, 1, 1, 0, 0, 0)) + 1 == ToUnix(DateTime(2023, 1, 1, 0, 0, 1));
    assert Pass(FirstAtNoon, DateTime(2023, 1, 1, 0, 0, 1)) == Advance(DateTime(2023, 1, 1, 12, 0, 0));
    var r := Returned(DateTime(2023, 1, 1, 12, 0, 0));
    MonthlyOnTheFirstSameDayFrom1();
    Advances(FirstAtNoon, DateTime(2023, 1, 1, 0, 0, 1), DateTime(2023, 1, 1, 12, 0, 0), 1, r);
    Starts(FirstAtNoon, DateTime(2023, 1, 1, 0, 0, 0), DateTime(2023, 1, 1, 0, 0, 1), 2);
  }

  /** The pass at 1 February 12:00:00 accepts it. */
  lemma MonthlyOnTheFirstNextMonthFrom3()
    ensures Search(FirstAtNoon, DateTime(2023, 2, 1, 12, 0, 0), 1) == Returned(DateTime(2023, 2, 1, 12, 0, 0))
  {
    assert Pass(FirstAtNoon, DateTime(2023, 2, 1, 12, 0, 0)) == Accept;
    Accepts(FirstAtNoon, DateTime(2023, 2, 1, 12, 0, 0), 1);
  }

  /** From 1 February 00:00:00 the pass moves on to 1 February 12:00:00; the search
      ends at 1 February 12:00:00. */
  lemma MonthlyOnTheFirstNextMonthFrom2()
    ensures Search(FirstAtNoon, DateTime(2023, 2, 1, 0, 0, 0), 2) == Returned(DateTime(2023, 2, 1, 12, 0, 0))
  {
    assert Pass(FirstAtNoon, DateTime(2023, 2, 1, 0, 0, 0)) == Advance(DateTime(2023, 2, 1, 12, 0, 0));
    var r := Returned(DateTime(2023, 2, 1, 12, 0, 0));
    MonthlyOnTheFirstNextMonthFrom3();
    Advances(FirstAtNoon, DateTime(2023, 2, 1, 0, 0, 0), DateTime(2023, 2, 1, 12, 0, 0), 1, r);
  }

  /** From 2 January 00:00:00 the pass moves on to 1 February 00:00:00; the search
      ends at 1 February 12:00:00. */
  lemma MonthlyOnTheFirstNextMonthFrom1()
    ensures Search(FirstAtNoon, DateTime(2023, 1, 2, 0, 0, 0), 3) == Returned(DateTime(2023, 2, 1, 12, 0, 0))
  {
    assert Pass(FirstAtNoon, DateTime(2023, 1, 2, 0, 0, 0)) == Advance(DateTime(2023, 2, 1, 0, 0, 0));
    var r := Returned(DateTime(2023, 2, 1, 12, 0, 0));
    MonthlyOnTheFirstNextMonthFrom2();
    Advances(FirstAtNoon, DateTime(2023, 1, 2, 0, 0, 0), DateTime(2023, 2, 1, 0, 0, 0), 2, r);
  }

  /** The 1st of each month at noon (tests.rs:218-221): from 13:00 on
      1 January, 1 February at noon. */
  lemma MonthlyOnTheFirstNextMonth()
    ensures NextOccurrence(Monthly(1, 12, 0), ToUnix(DateTime(2023, 1, 1, 13, 0, 0)), 4)
            == Returned(ToUnix(DateTime(2023, 2, 1, 12, 0, 0)))
  {
    assert Monthly(1, 12, 0) == FirstAtNoon;
    assert ToUnix(DateTime(2023, 1, 1, 13, 0, 0)) + 1 == ToUnix(DateTime(2023, 1, 1, 13, 0, 1));
    assert Pass(FirstAtNoon, DateTime(2023, 1, 1, 13, 0, 1)) == Advance(DateTime(2023, 1, 2, 0, 0, 0));
    var r := Returned(DateTime(2023, 2, 1, 12, 0, 0));
    MonthlyOnTheFirstNextMonthFrom1();
    Advances(FirstAtNoon, DateTime(2023, 1, 1, 13, 0, 1), DateTime(2023, 1, 2, 0, 0, 0), 3, r);
    Starts(FirstAtNoon, DateTime(2023, 1, 1, 13, 0, 0), DateTime(2023, 1, 1, 13, 0, 1), 4);
  }

  /** The pass at 7 January 10:00:00 accepts it. */
  lemma SaturdaysAtTenFirstFrom7()
    ensures Search(SaturdaysAtTen, DateTime(2023, 1, 7, 10, 0, 0), 1) == Returned(DateTime(2023, 1, 7, 10, 0, 0))
  {
    assert Pass(SaturdaysAtTen, DateTime(2023, 1, 7, 10, 0, 0)) == Accept;
    Accepts(SaturdaysAtTen, DateTime(2023, 1, 7, 10, 0, 0), 1);
  }

  /** From 7 January 00:00:00 the pass moves on to 7 January 10:00:00; the search
      ends at 7 January 10:00:00. */
  lemma SaturdaysAtTenFirstFrom6()
    ensures Search(SaturdaysAtTen, DateTime(2023, 1, 7, 0, 0, 0), 2) == Returned(DateTime(2023, 1, 7, 10, 0, 0))
  {
    assert Pass(SaturdaysAtTen, DateTime(2023, 1, 7, 0, 0, 0)) == Advance(DateTime(2023, 1, 7, 10, 0, 0));
    var r := Returned(DateTime(2023, 1, 7, 10, 0, 0));
    SaturdaysAtTenFirstFrom7();
    Advances(SaturdaysAtTen, DateTime(2023, 1, 7, 0, 0, 0), DateTime(2023, 1, 7, 10, 0, 0), 1, r);
  }

  /** From 6 January 00:00:00 the pass moves on to 7 January 00:00:00; the search
      ends at 7 January 10:00:00. */
  lemma SaturdaysAtTenFirstFrom5()
    ensures Search(SaturdaysAtTen, DateTime(2023, 1, 6, 0, 0, 0), 3) == Returned(DateTime(2023, 1, 7, 10, 0, 0))
  {
    assert Pass(SaturdaysAtTen, DateTime(2023, 1, 6, 0, 0, 0)) == Advance(DateTime(2023, 1, 7, 0, 0, 0));
    var r := Returned(DateTime(2023, 1, 7, 10, 0, 0));
    SaturdaysAtTenFirstFrom6();
    Advances(SaturdaysAtTen, DateTime(2023, 1, 6, 0, 0, 0), DateTime(2023, 1, 7, 0, 0, 0), 2, r);
  }

  /** From 5 January 00:00:00 the pass moves on to 6 January 00:00:00; the search
      ends at 7 January 10:00:00. */
  lemma SaturdaysAtTenFirstFrom4()
    ensures Search(SaturdaysAtTen, DateTime(2023, 1, 5, 0, 0, 0), 4) == Returned(DateTime(2023, 1, 7, 10, 0, 0))
  {
    assert Pass(SaturdaysAtTen, DateTime(2023, 1, 5, 0, 0, 0)) == Advance(DateTime(2023, 1, 6, 0, 0, 0));
    var r := Returned(DateTime(2023, 1, 7, 10, 0, 0));
    SaturdaysAtTenFirstFrom5();
    Advances(SaturdaysAtTen, DateTime(2023, 1, 5, 0, 0, 0), DateTime(2023, 1, 6, 0, 0, 0), 3, r);
  }

  /** From 4 January 00:00:00 the pass moves on to 5 January 00:00:00; the search
      ends at 7 January 10:00:00. */
  lemma SaturdaysAtTenFirstFrom3()
    ensures Search(SaturdaysAtTen, DateTime(2023, 1, 4, 0, 0, 0), 5) == Returned(DateTime(2023, 1, 7, 10, 0, 0))
  {
    assert Pass(SaturdaysAtTen, DateTime(2023, 1, 4, 0, 0, 0)) == Advance(DateTime(2023, 1, 5, 0, 0, 0));
    var r := Returned(DateTime(2023, 1, 7, 10, 0, 0));
    SaturdaysAtTenFirstFrom4();
    Advances(SaturdaysAtTen, DateTime(2023, 1, 4, 0, 0, 0), DateTime(2023, 1, 5, 0, 0, 0), 4, r);
  }

  /** From 3 January 00:00:00 the pass moves on to 4 January 00:00:00; the search
      ends at 7 January 10:00:00. */
  lemma SaturdaysAtTenFirstFrom2()
    ensures Search(SaturdaysAtTen, DateTime(2023, 1, 3, 0, 0, 0), 6) == Returned(DateTime(2023, 1, 7, 10, 0, 0))
  {
    assert Pass(SaturdaysAtTen, DateTime(2023, 1, 3, 0, 0, 0)) == Advance(DateTime(2023, 1, 4, 0, 0, 0));
    var r := Returned(DateTime(2023, 1, 7, 10, 0, 0));
    SaturdaysAtTenFirstFrom3();
    Advances(SaturdaysAtTen, DateTime(2023, 1, 3, 0, 0, 0), DateTime(2023, 1, 4, 0, 0, 0), 5, r);
  }

  /** From 2 January 00:00:00 the pass moves on to 3 January 00:00:00; the search
      ends at 7 January 10:00:00. */
  lemma SaturdaysAtTenFirstFrom1()
    ensures Search(SaturdaysAtTen, DateTime(2023, 1, 2, 0, 0, 0), 7) == Returned(DateTime(2023, 1, 7, 10, 0, 0))
  {
    assert Pass(SaturdaysAtTen, DateTime(2023, 1, 2, 0, 0, 0)) == Advance(DateTime(2023, 1, 3, 0, 0, 0));
    var r := Returned(DateTime(2023, 1, 7, 10, 0, 0));
    SaturdaysAtTenFirstFrom2();
    Advances(SaturdaysAtTen, DateTime(2023, 1, 2, 0, 0, 0), DateTime(2023, 1, 3, 0, 0, 0), 6, r);
  }

  /** Saturdays at 10:00 (tests.rs:223-243): from midnight on 1 January 2023,
      7 January at 10:00. */
  lemma SaturdaysAtTenFirst()
    ensures NextOccurrence(Weekly(5, 10, 0), ToUnix(DateTime(2023, 1, 1, 0, 0, 0)), 8)
            == Returned(ToUnix(DateTime(2023, 1, 7, 10, 0, 0)))
  {
    assert Weekly(5, 10, 0) == SaturdaysAtTen;
    assert ToUnix(DateTime(2023, 1, 1, 0, 0, 0)) + 1 == ToUnix(DateTime(2023, 1, 1, 0, 0, 1));
    assert Pass(SaturdaysAtTen, DateTime(2023, 1, 1, 0, 0, 1)) == Advance(DateTime(2023, 1, 2, 0, 0, 0));
    var r := Returned(DateTime(2023, 1, 7, 10, 0, 0));
    SaturdaysAtTenFirstFrom1();
    Advances(SaturdaysAtTen, DateTime(2023, 1, 1, 0, 0, 1), DateTime(2023, 1, 2, 0, 0, 0), 7, r);
    Starts(SaturdaysAtTen, DateTime(2023, 1, 1, 0, 0, 0), DateTime(2023, 1, 1, 0, 0, 1), 8);
  }

  /** The pass at 14 January 10:00:00 accepts it. */
  lemma SaturdaysAtTenSecondFrom8()
    ensures Search(SaturdaysAtTen, DateTime(2023, 1, 14, 10, 0, 0), 1) == Returned(DateTime(2023, 1, 14, 10, 0, 0))
  {
    assert Pass(SaturdaysAtTen, DateTime(2023, 1, 14, 10, 0, 0)) == Accept;
    Accepts(SaturdaysAtTen, DateTime(2023, 1, 14, 10, 0, 0), 1);
  }

  /** From 14 January 00:00:00 the pass moves on to 14 January 10:00:00; the search
      ends at 14 January 10:00:00. */
  lemma SaturdaysAtTenSecondFrom7()
    ensures Search(SaturdaysAtTen, DateTime(2023, 1, 14, 0, 0, 0), 2) == Returned(DateTime(2023, 1, 14, 10, 0, 0))
  {
    assert Pass(SaturdaysAtTen, DateTime(2023, 1, 14, 0, 0, 0)) == Advance(DateTime(2023, 1, 14, 10, 0, 0));
    var r := Returned(DateTime(2023, 1, 14, 10, 0, 0));
    SaturdaysAtTenSecondFrom8();
    Advances(SaturdaysAtTen, DateTime(2023, 1, 14, 0, 0, 0), DateTime(2023, 1, 14, 10, 0, 0), 1, r);
  }

  /** From 13 January 00:00:00 the pass moves on to 14 January 00:00:00; the search
      ends at 14 January 10:00:00. */
  lemma SaturdaysAtTenSecondFrom6()
    ensures Search(SaturdaysAtTen, DateTime(2023, 1, 13, 0, 0, 0), 3) == Returned(DateTime(2023, 1, 14, 10, 0, 0))
  {
    assert Pass(SaturdaysAtTen, DateTime(2023, 1, 13, 0, 0, 0)) == Advance(DateTime(2023, 1, 14, 0, 0, 0));
    var r := Returned(DateTime(2023, 1, 14, 10, 0, 0));
    SaturdaysAtTenSecondFrom7();
    Advances(SaturdaysAtTen, DateTime(2023, 1, 13, 0, 0, 0), DateTime(2023, 1, 14, 0, 0, 0), 2, r);
  }

  /** From 12 January 00:00:00 the pass moves on to 13 January 00:00:00; the search
      ends at 14 January 10:00:00. */
  lemma SaturdaysAtTenSecondFrom5()
    ensures Search(SaturdaysAtTen, DateTime(2023, 1, 12, 0, 0, 0), 4) == Returned(DateTime(2023, 1, 14, 10, 0, 0))
  {
    assert Pass(SaturdaysAtTen, DateTime(2023, 1, 12, 0, 0, 0)) == Advance(DateTime(2023, 1, 13, 0, 0, 0));
    var r := Returned(DateTime(2023, 1, 14, 10, 0, 0));
    SaturdaysAtTenSecondFrom6();
    Advances(SaturdaysAtTen, DateTime(2023, 1, 12, 0, 0, 0), DateTime(2023, 1, 13, 0, 0, 0), 3, r);
  }

  /** From 11 January 00:00:00 the pass moves on to 12 January 00:00:00; the search
      ends at 14 January 10:00:00. */
  lemma SaturdaysAtTenSecondFrom4()
    ensures Search(SaturdaysAtTen, DateTime(2023, 1, 11, 0, 0, 0), 5) == Returned(DateTime(2023, 1, 14, 10, 0, 0))
  {
    assert Pass(SaturdaysAtTen, DateTime(2023, 1, 11, 0, 0, 0)) == Advance(DateTime(2023, 1, 12, 0, 0, 0));
    var r := Returned(DateTime(2023, 1, 14, 10, 0, 0));
    SaturdaysAtTenSecondFrom5();
    Advances(SaturdaysAtTen, DateTime(2023, 1, 11, 0, 0, 0), DateTime(2023, 1, 12, 0, 0, 0), 4, r);
  }

  /** From 10 January 00:00:00 the pass moves on to 11 January 00:00:00; the search
      ends at 14 January 10:00:00. */
  lemma SaturdaysAtTenSecondFrom3()
    ensures Search(SaturdaysAtTen, DateTime(2023, 1, 10, 0, 0, 0), 6) == Returned(DateTime(2023, 1, 14, 10, 0, 0))
  {
    assert Pass(SaturdaysAtTen, DateTime(2023, 1, 10, 0, 0, 0)) == Advance(DateTime(2023, 1, 11, 0, 0, 0));
    var r := Returned(DateTime(2023, 1, 14, 10, 0, 0));
    SaturdaysAtTenSecondFrom4();
    Advances(SaturdaysAtTen, DateTime(2023, 1, 10, 0, 0, 0), DateTime(2023, 1, 11, 0, 0, 0), 5, r);
  }

  /** From 9 January 00:00:00 the pass moves on to 10 January 00:00:00; the search
      ends at 14 January 10:00:00. */
  lemma SaturdaysAtTenSecondFrom2()
    ensures Search(SaturdaysAtTen, DateTime(2023, 1, 9, 0, 0, 0), 7) == Returned(DateTime(2023, 1, 14, 10, 0, 0))
  {
    assert Pass(SaturdaysAtTen, DateTime(2023, 1, 9, 0, 0, 0)) == Advance(DateTime(2023, 1, 10, 0, 0, 0));
    var r := Returned(DateTime(2023, 1, 14, 10, 0, 0));
    SaturdaysAtTenSecondFrom3();
    Advances(SaturdaysAtTen, DateTime(2023, 1, 9, 0, 0, 0), DateTime(2023, 1, 10, 0, 0, 0), 6, r);
  }

  /** From 8 January 00:00:00 the pass moves on to 9 January 00:00:00; the search
      ends at 14 January 10:00:00. */
  lemma SaturdaysAtTenSecondFrom1()
    ensures Search(SaturdaysAtTen, DateTime(2023, 1, 8, 0, 0, 0), 8) == Returned(DateTime(2023, 1, 14, 10, 0, 0))
  {
    assert Pass(SaturdaysAtTen, DateTime(2023, 1, 8, 0, 0, 0)) == Advance(DateTime(2023, 1, 9, 0, 0, 0));
    var r := Returned(DateTime(2023, 1, 14, 10, 0, 0));
    SaturdaysAtTenSecondFrom2();
    Advances(SaturdaysAtTen, DateTime(2023, 1, 8, 0, 0, 0), DateTime(2023, 1, 9, 0, 0, 0), 7, r);
  }

  /** Saturdays at 10:00 (tests.rs:244-247): from 11:00 on 7 January,
      14 January at 10:00. */
  lemma SaturdaysAtTenSecond()
    ensures NextOccurrence(Weekly(5, 10, 0), ToUnix(DateTime(2023, 1, 7, 11, 0, 0)), 9)
            == Returned(ToUnix(DateTime(2023, 1, 14, 10, 0, 0)))
  {
    assert Weekly(5, 10, 0) == SaturdaysAtTen;
    assert ToUnix(DateTime(2023, 1, 7, 11, 0, 0)) + 1 == ToUnix(DateTime(2023, 1, 7, 11, 0, 1));
    assert Pass(SaturdaysAtTen, DateTime(2023, 1, 7, 11, 0, 1)) == Advance(DateTime(2023, 1, 8, 0, 0, 0));
    var r := Returned(DateTime(2023, 1, 14, 10, 0, 0));
    SaturdaysAtTenSecondFrom1();
    Advances(SaturdaysAtTen, DateTime(2023, 1, 7, 11, 0, 1), DateTime(2023, 1, 8, 0, 0, 0), 8, r);
    Starts(SaturdaysAtTen, DateTime(2023, 1, 7, 11, 0, 0), DateTime(2023, 1, 7, 11, 0, 1), 9);
  }

  /** The pass at 21 January 10:00:00 accepts it. */
  lemma SaturdaysAtTenThirdFrom8()
    ensures Search(SaturdaysAtTen, DateTime(2023, 1, 21, 10, 0, 0), 1) == Returned(DateTime(2023, 1, 21, 10, 0, 0))
  {
    assert Pass(SaturdaysAtTen, DateTime(2023, 1, 21, 10, 0, 0)) == Accept;
    Accepts(SaturdaysAtTen, DateTime(2023, 1, 21, 10, 0, 0), 1);
  }

  /** From 21 January 00:00:00 the pass moves on to 21 January 10:00:00; the search
      ends at 21 January 10:00:00. */
  lemma SaturdaysAtTenThirdFrom7()
    ensures Search(SaturdaysAtTen, DateTime(2023, 1, 21, 0, 0, 0), 2) == Returned(DateTime(2023, 1, 21, 10, 0, 0))
  {
    assert Pass(SaturdaysAtTen, DateTime(2023, 1, 21, 0, 0, 0)) == Advance(DateTime(2023, 1, 21, 10, 0, 0));
    var r := Returned(DateTime(2023, 1, 21, 10, 0, 0));
    SaturdaysAtTenThirdFrom8();
    Advances(SaturdaysAtTen, DateTime(2023, 1, 21, 0, 0, 0), DateTime(2023, 1, 21, 10, 0, 0), 1, r);
  }

  /** From 20 January 00:00:00 the pass moves on to 21 January 00:00:00; the search
      ends at 21 January 10:00:00. */
  lemma SaturdaysAtTenThirdFrom6()
    ensures Search(SaturdaysAtTen, DateTime(2023, 1, 20, 0, 0, 0), 3) == Returned(DateTime(2023, 1, 21, 10, 0, 0))
  {
    assert Pass(SaturdaysAtTen, DateTime(2023, 1, 20, 0, 0, 0)) == Advance(DateTime(2023, 1, 21, 0, 0, 0));
    var r := Returned(DateTime(2023, 1, 21, 10, 0, 0));
    SaturdaysAtTenThirdFrom7();
    Advances(SaturdaysAtTen, DateTime(2023, 1, 20, 0, 0, 0), DateTime(2023, 1, 21, 0, 0, 0), 2, r);
  }

  /** From 19 January 00:00:00 the pass moves on to 20 January 00:00:00; the search
      ends at 21 January 10:00:00. */
  lemma SaturdaysAtTenThirdFrom5()
    ensures Search(SaturdaysAtTen, DateTime(2023, 1, 19, 0, 0, 0), 4) == Returned(DateTime(2023, 1, 21, 10, 0, 0))
  {
    assert Pass(SaturdaysAtTen, DateTime(2023, 1, 19, 0, 0, 0)) == Advance(DateTime(2023, 1, 20, 0, 0, 0));
    var r := Returned(DateTime(2023, 1, 21, 10, 0, 0));
    SaturdaysAtTenThirdFrom6();
    Advances(SaturdaysAtTen, DateTime(2023, 1, 19, 0, 0, 0), DateTime(2023, 1, 20, 0, 0, 0), 3, r);
  }

  /** From 18 January 00:00:00 the pass moves on to 19 January 00:00:00; the search
      ends at 21 January 10:00:00. */
  lemma SaturdaysAtTenThirdFrom4()
    ensures Search(SaturdaysAtTen, DateTime(2023, 1, 18, 0, 0, 0), 5) == Returned(DateTime(2023, 1, 21, 10, 0, 0))
  {
    assert Pass(SaturdaysAtTen, DateTime(2023, 1, 18, 0, 0, 0)) == Advance(DateTime(2023, 1, 19, 0, 0, 0));
    var r := Returned(DateTime(2023, 1, 21, 10, 0, 0));
    SaturdaysAtTenThirdFrom5();
    Advances(SaturdaysAtTen, DateTime(2023, 1, 18, 0, 0, 0), DateTime(2023, 1, 19, 0, 0, 0), 4, r);
  }

  /** From 17 January 00:00:00 the pass moves on to 18 January 00:00:00; the search
      ends at 21 January 10:00:00. */
  lemma SaturdaysAtTenThirdFrom3()
    ensures Search(SaturdaysAtTen, DateTime(2023, 1, 17, 0, 0, 0), 6) == Returned(DateTime(2023, 1, 21, 10, 0, 0))
  {
    assert Pass(SaturdaysAtTen, DateTime(2023, 1, 17, 0, 0, 0)) == Advance(DateTime(2023, 1, 18, 0, 0, 0));
    var r := Returned(DateTime(2023, 1, 21, 10, 0, 0));
    SaturdaysAtTenThirdFrom4();
    Advances(SaturdaysAtTen, DateTime(2023, 1, 17, 0, 0, 0), DateTime(2023, 1, 18, 0, 0, 0), 5, r);
  }

  /** From 16 January 00:00:00 the pass moves on to 17 January 00:00:00; the search
      ends at 21 January 10:00:00. */
  lemma SaturdaysAtTenThirdFrom2()
    ensures Search(SaturdaysAtTen, DateTime(2023, 1, 16, 0, 0, 0), 7) == Returned(DateTime(2023, 1, 21, 10, 0, 0))
  {
    assert Pass(SaturdaysAtTen, DateTime(2023, 1, 16, 0, 0, 0)) == Advance(DateTime(2023, 1, 17, 0, 0, 0));
    var r := Returned(DateTime(2023, 1, 21, 10, 0, 0));
    SaturdaysAtTenThirdFrom3();
    Advances(SaturdaysAtTen, DateTime(2023, 1, 16, 0, 0, 0), DateTime(2023, 1, 17, 0, 0, 0), 6, r);
  }

  /** From 15 January 00:00:00 the pass moves on to 16 January 00:00:00; the search
      ends at 21 January 10:00:00. */
  lemma SaturdaysAtTenThirdFrom1()
    ensures Search(SaturdaysAtTen, DateTime(2023, 1, 15, 0, 0, 0), 8) == Returned(DateTime(2023, 1, 21, 10, 0, 0))
  {
    assert Pass(SaturdaysAtTen, DateTime(2023, 1, 15, 0, 0, 0)) == Advance(DateTime(2023, 1, 16, 0, 0, 0));
    var r := Returned(DateTime(2023, 1, 21, 10, 0, 0));
    SaturdaysAtTenThirdFrom2();
    Advances(SaturdaysAtTen, DateTime(2023, 1, 15, 0, 0, 0), DateTime(2023, 1, 16, 0, 0, 0), 7, r);
  }

  /** Saturdays at 10:00 (tests.rs:248-251): from 11:00 on 14 January,
      21 January at 10:00. */
  lemma SaturdaysAtTenThird()
    ensures NextOccurrence(Weekly(5, 10, 0), ToUnix(DateTime(2023, 1, 14, 11, 0, 0)), 9)
            == Returned(ToUnix(DateTime(2023, 1, 21, 10, 0, 0)))
  {
    assert Weekly(5, 10, 0) == SaturdaysAtTen;
    assert ToUnix(DateTime(2023, 1, 14, 11, 0, 0)) + 1 == ToUnix(DateTime(2023, 1, 14, 11, 0, 1));
    assert Pass(SaturdaysAtTen, DateTime(2023, 1, 14, 11, 0, 1)) == Advance(DateTime(2023, 1, 15, 0, 0, 0));
    var r := Returned(DateTime(2023, 1, 21, 10, 0, 0));
    SaturdaysAtTenThirdFrom1();
    Advances(SaturdaysAtTen, DateTime(2023, 1, 14, 11, 0, 1), DateTime(2023, 1, 15, 0, 0, 0), 8, r);
    Starts(SaturdaysAtTen, DateTime(2023, 1, 14, 11, 0, 0), DateTime(2023, 1, 14, 11, 0, 1), 9);
  }

  /** The pass at 1 January 12:00:00 accepts it. */
  lemma DailyAtNoonSameDayFrom1()
    ensures Search(EveryNoon, DateTime(2023, 1, 1, 12, 0, 0), 1) == Returned(DateTime(2023, 1, 1, 12, 0, 0))
  {
    assert Pass(EveryNoon, DateTime(2023, 1, 1, 12, 0, 0)) == Accept;
    Accepts(EveryNoon, DateTime(2023, 1, 1, 12, 0, 0), 1);
  }

  /** Daily at noon (tests.rs:399-406): from 08:00, noon the same day. */
  lemma DailyAtNoonSameDay()
    ensures NextOccurrence(Daily(12, 0), ToUnix(DateTime(2023, 1, 1, 8, 0, 0)), 2)
            == Returned(ToUnix(DateTime(2023, 1, 1, 12, 0, 0)))
  {
    assert Daily(12, 0) == EveryNoon;
    assert ToUnix(DateTime(2023, 1, 1, 8, 0, 0)) + 1 == ToUnix(DateTime(2023, 1, 1, 8, 0, 1));
    assert Pass(EveryNoon, DateTime(2023, 1, 1, 8, 0, 1)) == Advance(DateTime(2023, 1, 1, 12, 0, 0));
    var r := Returned(DateTime(2023, 1, 1, 12, 0, 0));
    DailyAtNoonSameDayFrom1();
    Advances(EveryNoon, DateTime(2023, 1, 1, 8, 0, 1), DateTime(2023, 1, 1, 12, 0, 0), 1, r);
    Starts(EveryNoon, DateTime(2023, 1, 1, 8, 0, 0), DateTime(2023, 1, 1, 8, 0, 1), 2);
  }

  /** The pass at 2 January 12:00:00 accepts it. */
  lemma DailyAtNoonNextDayFrom2()
    ensures Search(EveryNoon, DateTime(2023, 1, 2, 12, 0, 0), 1) == Returned(DateTime(2023, 1, 2, 12, 0, 0))
  {
    assert Pass(EveryNoon, DateTime(2023, 1, 2, 12, 0, 0)) == Accept;
    Accepts(EveryNoon, DateTime(2023, 1, 2, 12, 0, 0), 1);
  }

  /** From 2 January 00:00:00 the pass moves on to 2 January 12:00:00; the search
      ends at 2 January 12:00:00. */
  lemma DailyAtNoonNextDayFrom1()
    ensures Search(EveryNoon, DateTime(2023, 1, 2, 0, 0, 0), 2) == Returned(DateTime(2023, 1, 2, 12, 0, 0))
  {
    assert Pass(EveryNoon, DateTime(2023, 1, 2, 0, 0, 0)) == Advance(DateTime(2023, 1, 2, 12, 0, 0));
    var r := Returned(DateTime(2023, 1, 2, 12, 0, 0));
    DailyAtNoonNextDayFrom2();
    Advances(EveryNoon, DateTime(2023, 1, 2, 0, 0, 0), DateTime(2023, 1, 2, 12, 0, 0), 1, r);
  }

  /** Daily at noon (tests.rs:408-411): from 13:00, noon the next day. */
  lemma DailyAtNoonNextDay()
    ensures NextOccurrence(Daily(12, 0), ToUnix(DateTime(2023, 1, 1, 13, 0, 0)), 3)
            == Returned(ToUnix(DateTime(2023, 1, 2, 12, 0, 0)))
  {
    assert Daily(12, 0) == EveryNoon;
    assert ToUnix(DateTime(2023, 1, 1, 13, 0, 0)) + 1 == ToUnix(DateTime(2023, 1, 1, 13, 0, 1));
    assert Pass(EveryNoon, DateTime(2023, 1, 1, 13, 0, 1)) == Advance(DateTime(2023, 1, 2, 0, 0, 0));
    var r := Returned(DateTime(2023, 1, 2, 12, 0, 0));
    DailyAtNoonNextDayFrom1();
    Advances(EveryNoon, DateTime(2023, 1, 1, 13, 0, 1), DateTime(2023, 1, 2, 0, 0, 0), 2, r);
    Starts(EveryNoon, DateTime(2023, 1, 1, 13, 0, 0), DateTime(2023, 1, 1, 13, 0, 1), 3);
  }

  /** The pass at 15 January 00:00:00 accepts it. */
  lemma MonthlyOnTheFifteenthSameMonthFrom1()
    ensures Search(FifteenthAtMidnight, DateTime(2023, 1, 15, 0, 0, 0), 1) == Returned(DateTime(2023, 1, 15, 0, 0, 0))
  {
    assert Pass(FifteenthAtMidnight, DateTime(2023, 1, 15, 0, 0, 0)) == Accept;
    Accepts(FifteenthAtMidnight, DateTime(2023, 1, 15, 0, 0, 0), 1);
  }

  /** The 15th of each month at midnight (tests.rs:414-427): from 1 January,
      15 January. */
  lemma MonthlyOnTheFifteenthSameMonth()
    ensures NextOccurrence(Monthly(15, 0, 0), ToUnix(DateTime(2023, 1, 1, 0, 0, 0)), 2)
            == Returned(ToUnix(DateTime(2023, 1, 15, 0, 0, 0)))
  {
    assert Monthly(15, 0, 0) == FifteenthAtMidnight;
    assert ToUnix(DateTime(2023, 1, 1, 0, 0, 0)) + 1 == ToUnix(DateTime(2023, 1, 1, 0, 0, 1));
    assert Pass(FifteenthAtMidnight, DateTime(2023, 1, 1, 0, 0, 1)) == Advance(DateTime(2023, 1, 15, 0, 0, 0));
    var r := Returned(DateTime(2023, 1, 15, 0, 0, 0));
    MonthlyOnTheFifteenthSameMonthFrom1();
    Advances(FifteenthAtMidnight, DateTime(2023, 1, 1, 0, 0, 1), DateTime(2023, 1, 15, 0, 0, 0), 1, r);
    Starts(FifteenthAtMidnight, DateTime(2023, 1, 1, 0, 0, 0), DateTime(2023, 1, 1, 0, 0, 1), 2);
  }

  /** The pass at 15 February 00:00:00 accepts it. */
  lemma MonthlyOnTheFifteenthNextMonthFrom2()
    ensures Search(FifteenthAtMidnight, DateTime(2023, 2, 15, 0, 0, 0), 1) == Returned(DateTime(2023, 2, 15, 0, 0, 0))
  {
    assert Pass(FifteenthAtMidnight, DateTime(2023, 2, 15, 0, 0, 0)) == Accept;
    Accepts(FifteenthAtMidnight, DateTime(2023, 2, 15, 0, 0, 0), 1);
  }

  /** From 1 February 00:00:00 the pass moves on to 15 February 00:00:00; the search
      ends at 15 February 00:00:00. */
  lemma MonthlyOnTheFifteenthNextMonthFrom1()
    ensures Search(FifteenthAtMidnight, DateTime(2023, 2, 1, 0, 0, 0), 2) == Returned(DateTime(2023, 2, 15, 0, 0, 0))
  {
    assert Pass(FifteenthAtMidnight, DateTime(2023, 2, 1, 0, 0, 0)) == Advance(DateTime(2023, 2, 15, 0, 0, 0));
    var r := Returned(DateTime(2023, 2, 15, 0, 0, 0));
    MonthlyOnTheFifteenthNextMonthFrom2();
    Advances(FifteenthAtMidnight, DateTime(2023, 2, 1, 0, 0, 0), DateTime(2023, 2, 15, 0, 0, 0), 1, r);
  }

  /** The 15th of each month at midnight (tests.rs:429-435): from 16 January,
      15 February. */
  lemma MonthlyOnTheFifteenthNextMonth()
    ensures NextOccurrence(Monthly(15, 0, 0), ToUnix(DateTime(2023, 1, 16, 0, 0, 0)), 3)
            == Returned(ToUnix(DateTime(2023, 2, 15, 0, 0, 0)))
  {
    assert Monthly(15, 0, 0) == FifteenthAtMidnight;
    assert ToUnix(DateTime(2023, 1, 16, 0, 0, 0)) + 1 == ToUnix(DateTime(2023, 1, 16, 0, 0, 1));
    assert Pass(FifteenthAtMidnight, DateTime(2023, 1, 16, 0, 0, 1)) == Advance(DateTime(2023, 2, 1, 0, 0, 0));
    var r := Returned(DateTime(2023, 2, 15, 0, 0, 0));
    MonthlyOnTheFifteenthNextMonthFrom1();
    Advances(FifteenthAtMidnight, DateTime(2023, 1, 16, 0, 0, 1), DateTime(2023, 2, 1, 0, 0, 0), 2, r);
    Starts(FifteenthAtMidnight, DateTime(2023, 1, 16, 0, 0, 0), DateTime(2023, 1, 16, 0, 0, 1), 3);
  }
}
