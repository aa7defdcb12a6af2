/** The non-cron scenarios of src/tests.rs: one-time, interval, random
    and combined schedules, alone and driven through a job. Instants are
    written as seconds since the epoch; `Instants` ties each constant to
    its calendar date. */
module Scenarios {
  import opened Wrappers
  import Cal = Calendar
  import opened Schedules
  import opened Jobs
  import O = OneTimeSchedules
  import I = IntervalSchedules
  import R = RandomIntervalSchedules
  import C = CronSchedules
  import CronExamples
  import opened Errors

  const Hour := 3600
  const Minute := 60

  /** 20 September 2025, 22:00. */
  const SeptemberTwentieth := 1758405600
  /** 1 January 2023, 00:00. */
  const NewYear := 1672531200
  /** 1 January 2023, 09:00. */
  const NineAm := 1672563600
  /** 1 March 2023, 00:00. */
  const MarchFirst := 1677628800
  /** 2 March 2023, 05:00. */
  const MarchSecondFiveAm := 1677733200
  /** 3 March 2023, 23:59:59. */
  const MarchThirdLastSecond := 1677887999

  lemma Instants()
    ensures SeptemberTwentieth == Cal.ToUnix(Cal.DateTime(2025, 9, 20, 22, 0, 0))
    ensures NewYear == Cal.ToUnix(Cal.DateTime(2023, 1, 1, 0, 0, 0))
    ensures NineAm == Cal.ToUnix(Cal.DateTime(2023, 1, 1, 9, 0, 0))
    ensures MarchFirst == Cal.ToUnix(Cal.DateTime(2023, 3, 1, 0, 0, 0))
    ensures MarchSecondFiveAm == Cal.ToUnix(Cal.DateTime(2023, 3, 2, 5, 0, 0))
    ensures MarchThirdLastSecond == Cal.ToUnix(Cal.DateTime(2023, 3, 3, 23, 59, 59))
  {
  }

  /** A job on `s` with task `task` and no limits, as `build` returns it. */
  function JobOn<T>(s: Schedule, task: T): Job<T> {
    Build(NewBuilder().(schedule := Some(s), task := Some(task))).value
  }

  /** The specific date-time scenario (tests.rs:4-51), with the clock at the
      start of June 2025: the schedule answers the instant a day before and
      nothing a minute after; the job fires at the instant, once. */
  lemma SpecificDateTime(draws: nat -> nat, fuel: nat)
    ensures var now := SeptemberTwentieth - 111 * 24 * Hour;
            O.New(SeptemberTwentieth, now) == Ok(O.OneTimeSchedule(SeptemberTwentieth))
    ensures var o := O.OneTimeSchedule(SeptemberTwentieth);
            && O.NextOccurrence(o, SeptemberTwentieth - 24 * Hour) == Some(SeptemberTwentieth)
            && O.NextOccurrence(o, SeptemberTwentieth + Minute) == None
    ensures var job := JobOn(OneTime(O.OneTimeSchedule(SeptemberTwentieth)), "Specific date/time task");
            var before := ShouldExecute(job, SeptemberTwentieth - 24 * Hour, draws, fuel);
            var at := ShouldExecute(job, SeptemberTwentieth, draws, fuel);
            var after := ShouldExecute(job.(repeats := 1), SeptemberTwentieth + 1, draws, fuel);
            && before == Returned(Decision(job, None))
            && at == Returned(Decision(job.(repeats := 1), Some("Specific date/time task")))
            && after == Returned(Decision(job.(repeats := 1), None))
  {
  }

  function HourlyFromNewYear(): I.IntervalSchedule {
    I.New(Hour, NewYear).value
  }

  /** The interval scenarios (tests.rs:266-306): hourly from 1 January 2023,
      unbounded and then ending two hours in. */
  lemma HourlyInterval()
    ensures var s := HourlyFromNewYear();
            && I.NextOccurrence(s, NewYear - 1) == Some(NewYear)
            && I.NextOccurrence(s, NewYear) == Some(NewYear + Hour)
            && I.NextOccurrence(s, NewYear + Hour) == Some(NewYear + 2 * Hour)
    ensures var s := I.WithEndTime(HourlyFromNewYear(), NewYear + 2 * Hour);
            && I.NextOccurrence(s, NewYear) == Some(NewYear + Hour)
            && I.NextOccurrence(s, NewYear + Hour) == Some(NewYear + 2 * Hour)
            && I.NextOccurrence(s, NewYear + 2 * Hour) == None
  {
  }

  /** The start of hour `i` counted from 1 March 2023. */
  function HourOfMarch(i: nat): int {
    MarchFirst + i * Hour
  }

  /** The first job of the repetition scenario: hourly until the end of
      3 March, at most ten times. */
  function CappedAtTen(): Job<string> {
    var s := I.WithEndTime(I.New(Hour, MarchFirst).value, MarchThirdLastSecond);
    Build(NewBuilder().(schedule := Some(Interval(s)), task := Some("Hourly task with repetition limit"),
                        maxRepeats := Some(10), endTime := Some(MarchThirdLastSecond))).value
  }

  /** The second job: hourly, at most ten times, until 05:00 on 2 March. */
  function EndingSecondOfMarch(): Job<string> {
    Build(NewBuilder().(schedule := Some(Interval(I.New(Hour, MarchFirst).value)),
                        task := Some("Hourly task with end time"),
                        maxRepeats := Some(10), endTime := Some(MarchSecondFiveAm))).value
  }

  /** A job over an hourly schedule from 1 March fires on the hour `i` it
      is asked at, as long as it is not retired. */
  lemma FiresOnTheHour(job: Job<string>, end: Option<int>, i: nat, draws: nat -> nat, fuel: nat)
    requires job.schedule == Interval(I.IntervalSchedule(Hour, MarchFirst, end))
    requires end.None? || HourOfMarch(i) <= end.value
    requires !Retired(job, HourOfMarch(i))
    ensures ShouldExecute(job, HourOfMarch(i), draws, fuel)
            == Returned(Decision(job.(repeats := job.repeats + 1), Some(job.task)))
  {
    I.MultipleIsSlot(job.schedule.interval, i);
    IntervalJobFiresOnSlots(job, HourOfMarch(i), draws, fuel);
  }

  /** The repetition scenario (tests.rs:53-118). The capped job fires on
      each of the first ten hours and not on the eleventh; the job ending
      at 05:00 on 2 March fires on the first five hours and not at or after
      its end. */
  lemma HourlyRepetition(draws: nat -> nat, fuel: nat)
    ensures var job := CappedAtTen();
            && (forall i: nat | i < 10 ::
                  ShouldExecute(job.(repeats := i), HourOfMarch(i), draws, fuel)
                  == Returned(Decision(job.(repeats := i + 1), Some(job.task))))
            && ShouldExecute(job.(repeats := 10), HourOfMarch(10), draws, fuel)
               == Returned(Decision(job.(repeats := 10), None))
    ensures var job := EndingSecondOfMarch();
            && (forall i: nat | i < 5 ::
                  ShouldExecute(job.(repeats := i), HourOfMarch(i), draws, fuel)
                  == Returned(Decision(job.(repeats := i + 1), Some(job.task))))
            && ShouldExecute(job.(repeats := 5), MarchSecondFiveAm, draws, fuel)
               == Returned(Decision(job.(repeats := 5), None))
            && ShouldExecute(job.(repeats := 5), MarchSecondFiveAm + 1, draws, fuel)
               == Returned(Decision(job.(repeats := 5), None))
  {
    var capped := CappedAtTen();
    forall i: nat | i < 10
      ensures ShouldExecute(capped.(repeats := i), HourOfMarch(i), draws, fuel)
              == Returned(Decision(capped.(repeats := i + 1), Some(capped.task)))
    {
      FiresOnTheHour(capped.(repeats := i), Some(MarchThirdLastSecond), i, draws, fuel);
    }
    var ending := EndingSecondOfMarch();
    forall i: nat | i < 5
      ensures ShouldExecute(ending.(repeats := i), HourOfMarch(i), draws, fuel)
              == Returned(Decision(ending.(repeats := i + 1), Some(ending.task)))
    {
      FiresOnTheHour(ending.(repeats := i), None, i, draws, fuel);
    }
  }

  /** The job scenario (tests.rs:438-466): hourly, at most twice. It fires at
      the start, not half an hour later, again an hour in, and never after
      that. */
  lemma CappedHourlyJob(draws: nat -> nat, fuel: nat)
    ensures var job := Build(NewBuilder().(schedule := Some(Interval(HourlyFromNewYear())),
                                           task := Some("Test task"), maxRepeats := Some(2))).value;
            && ShouldExecute(job, NewYear, draws, fuel)
                 == Returned(Decision(job.(repeats := 1), Some("Test task")))
            && ShouldExecute(job.(repeats := 1), NewYear + 1800, draws, fuel)
                 == Returned(Decision(job.(repeats := 1), None))
            && ShouldExecute(job.(repeats := 1), NewYear + Hour, draws, fuel)
                 == Returned(Decision(job.(repeats := 2), Some("Test task")))
            && ShouldExecute(job.(repeats := 2), NewYear + 2 * Hour, draws, fuel)
                 == Returned(Decision(job.(repeats := 2), None))
  {
  }

  /** The one-time tests that read the clock (tests.rs:120-141), for any
      reading `now`: an hour ahead is accepted and answered until it is
      reached; an hour back is refused as lying in the past. */
  lemma OneTimeWithClock(now: int)
    ensures O.New(now + Hour, now) == Ok(O.OneTimeSchedule(now + Hour))
    ensures var s := O.OneTimeSchedule(now + Hour);
            && O.NextOccurrence(s, now) == Some(now + Hour)
            && O.NextOccurrence(s, now + Hour) == None
            && O.NextOccurrence(s, now + Hour + 1) == None
    ensures O.New(now - Hour, now) == Err(TimeInPast)
  {
  }

  /** The random interval of one to two minutes anchored at midnight on
      1 January 2023 (tests.rs:313-329, 384-397): whatever the generator
      draws, the answer after the anchor lies one to two minutes after it. */
  lemma RandomWithinBounds(draws: nat -> nat, fuel: nat)
    ensures var s := RandomInterval(R.WithStartTime(R.New(Minute, 2 * Minute).value, NewYear));
            var r := NextOccurrence(s, NewYear, draws, 0, fuel);
            && Valid(s)
            && r.Returned? && r.value.Some?
            && NewYear + Minute <= r.value.value <= NewYear + 2 * Minute
  {
  }

  /** The morning window scenario (tests.rs:331-381): offsets of one to five
      minutes after 09:00. Whatever the generator draws, a fresh job fires by
      09:05, and never at 08:59:59. */
  lemma MorningWindow(draws: nat -> nat, fuel: nat)
    ensures var s := RandomInterval(R.WithStartTime(R.New(Minute, 5 * Minute).value, NineAm));
            var job := JobOn(s, "Random morning task");
            && ShouldExecute(job, NineAm + 5 * Minute, draws, fuel).Returned?
            && ShouldExecute(job, NineAm + 5 * Minute, draws, fuel).value.fired.Some?
            && ShouldExecute(job, NineAm - 1, draws, fuel) == Returned(Decision(job, None))
  {
  }

  /** Every hour until 22:00, then every minute until 23:00, on 1 March
      2023 (tests.rs:468-526). */
  function Mixture(): Schedule {
    var hourly := I.WithEndTime(I.New(Hour, MarchFirst).value, MarchFirst + 22 * Hour);
    var minutely := I.WithEndTime(I.New(Minute, MarchFirst + 22 * Hour).value, MarchFirst + 23 * Hour);
    Combined([Interval(hourly), Interval(minutely)])
  }

  /** The combined answers of the mixture scenario: the hourly part until
      22:00, the minutely part from then to 23:00, nothing afterwards. */
  lemma MixtureAnswers(draws: nat -> nat, fuel: nat)
    ensures Valid(Mixture())
    ensures NextOccurrence(Mixture(), MarchFirst, draws, 0, fuel) == Returned(Some(MarchFirst + Hour))
    ensures NextOccurrence(Mixture(), MarchFirst + 21 * Hour, draws, 0, fuel)
            == Returned(Some(MarchFirst + 22 * Hour))
    ensures NextOccurrence(Mixture(), MarchFirst + 22 * Hour, draws, 0, fuel)
            == Returned(Some(MarchFirst + 22 * Hour + Minute))
    ensures NextOccurrence(Mixture(), MarchFirst + 22 * Hour + 30 * Minute, draws, 0, fuel)
            == Returned(Some(MarchFirst + 22 * Hour + 31 * Minute))
    ensures NextOccurrence(Mixture(), MarchFirst + 22 * Hour + 59 * Minute, draws, 0, fuel)
            == Returned(Some(MarchFirst + 23 * Hour))
    ensures NextOccurrence(Mixture(), MarchFirst + 23 * Hour, draws, 0, fuel) == Returned(None)
  {
  }

  /** Saturdays at 10:00 (tests.rs:223-231). */
  const Saturdays := CronExamples.SaturdaysAtTen

  /** A job on a cron schedule fires at any instant the schedule matches. */
  lemma CronJobFiresOnMatch(c: C.CronSchedule, task: string, dt: Cal.DateTime, repeats: nat,
                            draws: nat -> nat, fuel: nat)
    requires Cal.Valid(dt) && C.MatchesAt(c, dt) && fuel >= 1
    ensures var job := JobOn(Cron(c), task);
            ShouldExecute(job.(repeats := repeats), Cal.ToUnix(dt), draws, fuel)
            == Returned(Decision(job.(repeats := repeats + 1), Some(task)))
  {
    var t := Cal.ToUnix(dt);
    Cal.FromUnixToUnix(dt);
    assert C.Matches(c, t);
    C.MatchingSuccessorIsNext(c, t - 1, fuel);
    CronLeafAnswers(c, t - 1, t, draws, 0, fuel);
    FiresWhenDue(JobOn(Cron(c), task).(repeats := repeats), t, draws, fuel);
  }

  /** 7, 14 and 21 January 2023 are Saturdays. */
  lemma SaturdaysOfJanuary(day: int)
    requires day == 7 || day == 14 || day == 21
    ensures Cal.Valid(Cal.DateTime(2023, 1, day, 10, 0, 0))
    ensures C.MatchesAt(Saturdays, Cal.DateTime(2023, 1, day, 10, 0, 0))
  {
    if day == 7 {
      assert Cal.Weekday(Cal.DateTime(2023, 1, 7, 10, 0, 0)) == 5;
    } else if day == 14 {
      assert Cal.Weekday(Cal.DateTime(2023, 1, 14, 10, 0, 0)) == 5;
    } else {
      assert Cal.Weekday(Cal.DateTime(2023, 1, 21, 10, 0, 0)) == 5;
    }
  }

  /** The Saturday job (tests.rs:253-263): on each of the first three
      Saturdays of 2023, at 10:00, it fires, however often it has fired
      before. */
  lemma SaturdayJob(day: int, repeats: nat, draws: nat -> nat, fuel: nat)
    requires day == 7 || day == 14 || day == 21
    requires fuel >= 1
    ensures var job := JobOn(Cron(Saturdays), "Third Saturday task");
            var t := Cal.ToUnix(Cal.DateTime(2023, 1, day, 10, 0, 0));
            ShouldExecute(job.(repeats := repeats), t, draws, fuel)
            == Returned(Decision(job.(repeats := repeats + 1), Some("Third Saturday task")))
  {
    SaturdaysOfJanuary(day);
    CronJobFiresOnMatch(Saturdays, "Third Saturday task", Cal.DateTime(2023, 1, day, 10, 0, 0), repeats, draws, fuel);
  }

  /** The mixture driven through a job (tests.rs:528-553): it fires at 01:00,
      22:00, 22:01, 22:31 and 23:00, and not at 23:01. */
  lemma MixtureJob(draws: nat -> nat, fuel: nat)
    ensures var job := JobOn(Mixture(), "Mixed schedule task");
            && ShouldExecute(job, MarchFirst + Hour, draws, fuel).Returned?
            && ShouldExecute(job, MarchFirst + Hour, draws, fuel).value.fired.Some?
            && ShouldExecute(job, MarchFirst + 22 * Hour, draws, fuel).value.fired.Some?
            && ShouldExecute(job, MarchFirst + 22 * Hour + Minute, draws, fuel).value.fired.Some?
            && ShouldExecute(job, MarchFirst + 22 * Hour + 31 * Minute, draws, fuel).value.fired.Some?
            && ShouldExecute(job, MarchFirst + 23 * Hour, draws, fuel).value.fired.Some?
            && ShouldExecute(job, MarchFirst + 23 * Hour + Minute, draws, fuel) == Returned(Decision(job, None))
  {
  }
}
