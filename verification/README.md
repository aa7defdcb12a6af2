# task-scheduler: the occurrence core in Dafny

This project models the part of the `task-scheduler` Rust library that
decides *when* a job runs:

- **The five schedules.** Each answers `next_occurrence(after)`:
  - one-time;
  - fixed interval;
  - random interval;
  - cron-like;
  - the combination of several schedules.
- **The job gate.** `Job::should_execute` turns a schedule's answer into a
  decision to fire, subject to a repeat cap and an end time.

Instants are `int` seconds since 1970-01-01T00:00:00Z. Durations are `nat`
seconds.

| file | module | models |
|---|---|---|
| `wrappers.dfy` | `Wrappers` | `Option`, `Result` and `Outcome` (returned, panicked, out of fuel) |
| `errors.dfy` | `Errors` | `SchedulerError` |
| `calendar.dfy` | `Calendar` | the slice of chrono's proleptic Gregorian UTC calendar the schedulers use: conversion between instants and broken-down date-times, weekday counted from Monday, the checked `with_*` field setters, and adding seconds |
| `one_time.dfy` | `OneTimeSchedules` | `OneTimeSchedule` |
| `interval.dfy` | `IntervalSchedules` | `IntervalSchedule` |
| `random_interval.dfy` | `RandomIntervalSchedules` | `RandomIntervalSchedule` |
| `cron.dfy` | `CronSchedules` | `CronSchedule`: the setters and the restart-from-the-top search |
| `schedule.dfy` | `Schedules` | the `Schedule` trait as a closed sum over the five schedules, with `CombinedSchedule` as the recursive case |
| `jobs.dfy` | `Jobs` | `Job`, `JobBuilder::build` and `Job::should_execute` |
| `cron_examples.dfy` | `CronExamples` | the cron queries of src/tests.rs, traced pass by pass |
| `scenarios.dfy` | `Scenarios` | the remaining tests of src/tests.rs: specific date-time, repetition, one-time (including the two that read the clock), interval, random interval, job execution, mixture, and the hourly and Saturday parts of the recurring-intervals test |

## How the cron search is modelled

- **The candidate.** It is a broken-down `DateTime`.
- **One pass.** One pass of the loop body is `Pass`. It examines the fields
  in the source's order: month, day, weekday, hour, minute. It returns:
  - `Accept` when all set fields match;
  - `Advance(next)` when one branch moves the candidate on;
  - `Fail` when a chrono setter in that branch returns `None`. The source
    `.unwrap()`s every setter, so this is a panic.
- **The setter chains.** Each chain is written as the loop writes it
  (`MinuteChain` … `YearChain`). `ChainsAgree` gives the date-time each one
  yields, or that it fails.
- **The loop.** The loop is unbounded in the source. Here it is the generic
  `Loop`, bounded by `fuel`; a run that uses up its fuel ends in
  `OutOfFuel`. Its lemmas hold for any loop body that moves forward and
  skips nothing.
  - `Body(c)` is the body a schedule runs. Its contract proves that it is
    such a body.
  - `MoreFuelSameAnswer` shows that fuel only bounds the model: once the
    loop has ended, more fuel ends it the same way.
- **Carries panic instead of rolling over.** The loop `.unwrap()`s chrono's
  checked `with_*` setters, so a carry past the end of a unit panics. For
  example, `with_hour(hour + 1)` at 23:xx panics, and so does
  `with_month(month + 1)` for a day schedule past its day on 30 January.
  The `...Panics` lemmas state each
  such case.
  - Day 31 with month 2 names a date that never exists. The search panics
    within three passes from any start (`FebruaryThirtyFirstPanics`):
    - in February, `with_day(31)` fails;
    - in January, `with_month(2)` fails on a day February lacks, and
      otherwise the search moves to 1 February and fails there;
    - after February, it moves to 1 January of the next year, then to
      1 February, then fails.

## Model

| member | source | states |
|---|---|---|
| CronSchedules.New | src/schedulers/cron.rs:14-18 | a new schedule has no constraint, so every instant matches it |
| CronSchedules.SetMinute | src/schedulers/cron.rs:20-26 | succeeds exactly when minute < 60; otherwise fails with InvalidConfiguration; on success sets the minute and leaves every other field unchanged |
| CronSchedules.SetHour | src/schedulers/cron.rs:28-34 | succeeds exactly when hour < 24, else InvalidConfiguration; other fields unchanged |
| CronSchedules.SetDay | src/schedulers/cron.rs:36-42 | succeeds exactly when 1 <= day <= 31, else InvalidConfiguration; other fields unchanged |
| CronSchedules.SetMonth | src/schedulers/cron.rs:44-50 | succeeds exactly when 1 <= month <= 12, else InvalidConfiguration; other fields unchanged |
| CronSchedules.SetWeekday | src/schedulers/cron.rs:52-58 | succeeds exactly when weekday < 7, else InvalidConfiguration; other fields unchanged |
| CronSchedules.ChainsAgree | src/schedulers/cron.rs:72-199 | each setter chain of the loop body yields the start of the minute, hour, day, month or year it sets. It fails exactly when the target does not exist: minute >= 60, hour >= 24, a day past the month's end, month 13, a day the target month lacks, or 29 February into a common year |
| CronSchedules.MidnightPlusOneDay | src/schedulers/cron.rs:142-149 | zeroing the time and adding 86400 seconds never fails and reaches midnight of the next calendar day |
| CronSchedules.Carry | src/schedulers/cron.rs:72-199 | an adjusting branch never accepts; when it moves, it moves strictly forward, to a valid date-time with second 0 |
| CronSchedules.PassFrom | src/schedulers/cron.rs:68-206 | from the check of field f on, the pass accepts exactly when f and every later field are met; any move is strictly forward |
| CronSchedules.Pass | src/schedulers/cron.rs:68-206 | one pass accepts exactly when every set field matches (weekday counted from Monday); any move is strictly forward, onto a whole minute |
| CronSchedules.MatchesEveryField | src/schedulers/cron.rs:69-205 | a date-time matches the schedule exactly when it meets each of the five field constraints |
| CronSchedules.FirstUnmetFieldDecides | src/schedulers/cron.rs:68-206 | the first field in loop order that is not met decides the pass: the pass takes that field's branch |
| CronSchedules.AdvanceHasCause | src/schedulers/cron.rs:68-202 | a pass that moves does so in the branch of a field that is not met |
| CronSchedules.CarrySkipsNoMatch | src/schedulers/cron.rs:72-199 | no date-time between the candidate and where a branch jumps meets that branch's field |
| CronSchedules.PassSkipsNoMatch | src/schedulers/cron.rs:68-206 | no matching date-time lies between the candidate and the next candidate |
| CronSchedules.Loop | src/schedulers/cron.rs:68-206 | the loop only returns valid date-times |
| CronSchedules.LoopMovesForward | src/schedulers/cron.rs:68-206 | the loop never answers before its starting candidate |
| CronSchedules.LoopStopsOnAccept | src/schedulers/cron.rs:204-205 | the loop returns only a date-time that its body accepts |
| CronSchedules.LoopSkipsNothing | src/schedulers/cron.rs:68-206 | nothing the body accepts lies between the starting candidate and the answer |
| CronSchedules.LoopLandsOnWholeMinute | src/schedulers/cron.rs:68-206 | the answer is the starting candidate or has second 0 |
| CronSchedules.MoreFuelSameAnswer | src/schedulers/cron.rs:68 | once the bounded loop has ended, a larger bound gives the same ending |
| CronSchedules.Body | src/schedulers/cron.rs:68-206 | a schedule's loop body is total on valid date-times, moves strictly forward, skips no date-time it would accept, and is one pass |
| CronSchedules.NextOccurrence | src/schedulers/cron.rs:62-207 | `next_occurrence` of a cron schedule: the search from the date-time of `after + 1`. Its contract is carried by NextOccurrenceIsLater, NextOccurrenceMatches and NextOccurrenceIsFirst: any answer is the first matching instant strictly after `after` |
| CronSchedules.NextOccurrenceIsLater | src/schedulers/cron.rs:63-66 | any returned instant is strictly after `after` |
| CronSchedules.NextOccurrenceMatches | src/schedulers/cron.rs:62-207 | any returned instant matches every set field |
| CronSchedules.NextOccurrenceIsFirst | src/schedulers/cron.rs:62-207 | no instant strictly between `after` and the returned one matches |
| CronSchedules.NextOccurrenceOnWholeMinute | src/schedulers/cron.rs:62-207 | the returned instant is `after + 1` or on a whole minute |
| CronSchedules.QueryStartsAt | src/schedulers/cron.rs:63-66 | the search starts at the date-time of `after + 1` |
| CronSchedules.MatchingSuccessorIsNext | src/schedulers/cron.rs:63-66 | if `after + 1` matches, it is the answer, whatever its second |
| CronSchedules.WildcardFiresEverySecond | src/schedulers/cron.rs:62-207 | with no field set, the answer is exactly `after + 1` |
| CronSchedules.FailingPassPanics | src/schedulers/cron.rs:68-206 | a pass whose setter fails makes the whole query panic |
| CronSchedules.LateMinutePanics | src/schedulers/cron.rs:191-197 | a minute-only schedule queried at 23:xx past its minute panics in `with_hour(24)` |
| CronSchedules.LateHourAtMonthEndPanics | src/schedulers/cron.rs:168-176 | an hour schedule queried on the last day of a month, past its hour, panics in `with_day(day + 1)` |
| CronSchedules.LateDayInDecemberPanics | src/schedulers/cron.rs:122-132 | a day schedule queried in December past its day panics in `with_month(13)` |
| CronSchedules.MissingDayPanics | src/schedulers/cron.rs:110-118 | a day schedule whose day the current month lacks, queried before that day in a month the schedule allows, panics in `with_day` instead of moving to a longer month |
| CronSchedules.DayCarryIntoShortMonthPanics | src/schedulers/cron.rs:120-132 | a day schedule queried past its day, on a date the next month lacks (say 30 January), panics in `with_month(month + 1)` |
| CronSchedules.LongDayIntoShortMonthPanics | src/schedulers/cron.rs:73-83 | a month schedule queried on a day that the target month lacks panics in `with_month` |
| CronSchedules.LeapDayIntoNextYearPanics | src/schedulers/cron.rs:87-99 | a month schedule queried on 29 February after its month panics in `with_year(year + 1)` |
| CronSchedules.SearchStep | src/schedulers/cron.rs:68-206 | a pass whose setter fails ends the search in a panic; a pass that moves on leaves the rest of the search to the new candidate, with one pass less |
| CronSchedules.FebruaryThirtyFirstPanics | src/schedulers/cron.rs:69-118 | a schedule for day 31 of month 2 panics within three passes from any start |
| Calendar.FromUnix | src/schedulers/cron.rs:62-66 | every instant has a valid broken-down date-time that converts back to it |
| Calendar.FromUnixToUnix | src/schedulers/cron.rs:62-66 | converting a valid date-time to an instant and back gives the same date-time |
| Calendar.ToUnixMonotonic | src/schedulers/cron.rs:62-66 | a date-time earlier in field order is an earlier instant |
| Calendar.FromUnixMonotonic | src/schedulers/cron.rs:62-66 | conversely, an earlier instant has a date-time earlier in field order, so comparing chrono date-times and comparing instants agree |
| Calendar.WeekdayAdvances | src/schedulers/cron.rs:140 | the weekday steps by one from each date to the next, Sunday (6) wrapping round to Monday (0) |
| Calendar.WeekdayOrigin | src/schedulers/cron.rs:140 | the count starts from Monday: 1 January 2023, a Sunday, is 6 and 2 January 2023 is 0 |
| Calendar.DayAfterMidnight | src/schedulers/cron.rs:142-149 | 86400 seconds after a date's midnight is the next date's midnight |
| Calendar.LeapYearIsFollowedByCommon | src/schedulers/cron.rs:87-99 | the year after a leap year has no 29 February |
| IntervalSchedules.New | src/schedulers/interval.rs:11-21 | a zero interval is refused with InvalidDuration; anything else builds a schedule with no end |
| IntervalSchedules.WithEndTime | src/schedulers/interval.rs:23-26 | sets the end time and nothing else |
| IntervalSchedules.NextOccurrence | src/schedulers/interval.rs:30-44 | before the start the answer is the start, with the end not consulted. Otherwise it is the least slot (start plus a whole number of intervals) strictly after `after`, within one interval of it, and `None` exactly when that slot lies past the inclusive end |
| IntervalSchedules.MultipleIsSlot | src/schedulers/interval.rs:35-38 | the start plus any whole number of intervals is a slot |
| OneTimeSchedules.New | src/schedulers/one_time.rs:9-14 | fails with TimeInPast exactly when the time is not after `now` |
| OneTimeSchedules.NextOccurrence | src/schedulers/one_time.rs:18-24 | answers the instant exactly while it is after `after`, and nothing from then on |
| RandomIntervalSchedules.New | src/schedulers/random_interval.rs:12-25 | a zero bound gives InvalidDuration; otherwise min > max gives InvalidConfiguration; anything else builds an unanchored schedule with no end |
| RandomIntervalSchedules.WithEndTime | src/schedulers/random_interval.rs:27-30 | sets the end time and nothing else |
| RandomIntervalSchedules.WithStartTime | src/schedulers/random_interval.rs:32-35 | sets the anchor and nothing else |
| RandomIntervalSchedules.Draw | src/schedulers/random_interval.rs:37-41 | the drawn offset lies in [min, max], both ends included |
| RandomIntervalSchedules.DrawReachesEveryOffset | src/schedulers/random_interval.rs:37-41 | every offset in [min, max] is drawn for some generator value |
| RandomIntervalSchedules.NextOccurrence | src/schedulers/random_interval.rs:45-53 | the answer is the anchor (the start time, else `after`) plus the offset. It lies within [anchor + min, anchor + max] and is `None` exactly when past the end. Without an anchor it is after `after` |
| RandomIntervalSchedules.AnchoredAnswerMayPrecedeQuery | src/schedulers/random_interval.rs:45-53 | with an anchor set, the answer can lie before the query instant |
| Schedules.NextOccurrence | src/schedulers/mod.rs:12-14 | `Schedule::next_occurrence` dispatched over the five kinds of schedule. For a combination, CombinedIsEarliest carries its contract; each leaf answers as its own module's NextOccurrence does (AnswerOfDrawFree) |
| Schedules.Earliest | src/schedulers/combined.rs:18-29 | the strict-`<` loop that keeps the earliest answer. EarliestIsFold equates it with a fold over the answers, and FoldIsLeast and CombinedIsEarliest state that the result is the least answer |
| Schedules.EarliestIsFold | src/schedulers/combined.rs:15-32 | the loop over the components computes the same as a fold over the components' answers |
| Schedules.FoldAborts | src/schedulers/combined.rs:18-29 | the combination aborts exactly when some component's query does |
| Schedules.FoldIsLeast | src/schedulers/combined.rs:15-32 | the fold's result is `None` exactly when the starting value and every answer are `None`. Otherwise it is one of them and no larger than any |
| Schedules.CombinedIsEarliest | src/schedulers/combined.rs:15-32 | the combination answers only when every component does. It is `None` exactly when every component's answer is, including when there are no components. Otherwise it is some component's answer and no later than any other |
| Schedules.AnswersLieAfterQuery | src/schedulers/combined.rs:18-19 | if every leaf answers after `after`, so does the combination (every leaf except an anchored random interval) |
| Schedules.IgnoresDraws | src/schedulers/combined.rs:15-32 | a schedule without random leaves gives the same answer whatever the generator draws, so repeated queries agree |
| Schedules.AnswerOfDrawFree | src/schedulers/combined.rs:18-19 | without random leaves, a component answers inside the combination as it does alone |
| Schedules.CombinedByMembers | src/schedulers/combined.rs:15-32 | without random leaves, the combination is the least of the set of its components' answers |
| Schedules.CombinedOrderIrrelevant | src/schedulers/combined.rs:23 | reordering the components (without random leaves) does not change the combined answer; ties are not observable |
| Jobs.Build | src/lib.rs:78-86 | fails with InvalidConfiguration exactly when the schedule or task is missing; otherwise copies them and both limits, with repeats 0 |
| Jobs.ShouldExecute | src/lib.rs:94-123 | a retired job (cap reached or end time come) returns nothing and is unchanged. Otherwise the job fires exactly when its schedule's answer after `current - 1` is at most `current`; firing returns the task and adds exactly one to repeats, and nothing else changes |
| Jobs.Run | src/lib.rs:94-123 | over any sequence of calls, only repeats changes. It never decreases, grows by at most one per call, and stays within the cap |
| Jobs.BuiltJobRespectsCap | src/lib.rs:96-100 | a job built with a cap of n fires at most n times over any sequence of calls |
| Jobs.FiresWhenDue | src/lib.rs:111-120 | a job that is not retired fires when its schedule is due at the current instant |
| Jobs.NothingAfterEnd | src/lib.rs:103-107 | a job never fires at or after its end time and stays unchanged |
| Jobs.IntervalJobFiresOnSlots | src/lib.rs:111-120 | over an interval schedule, a live job fires exactly on the slots up to the schedule's end; the start slot fires even past that end |
| CronExamples.Daily | src/tests.rs:161-162 | `new().hour(h).minute(m)` builds the schedule with just those two fields |
| CronExamples.Weekly | src/tests.rs:179-185 | `new().weekday(w).hour(h).minute(m)` builds the schedule with just those three fields |
| CronExamples.Monthly | src/tests.rs:203-209 | `new().day(d).hour(h).minute(m)` builds the schedule with just those three fields |
| CronExamples.DailyAtMidnightFirst | src/tests.rs:161-170 | daily at midnight, from 01:00 on 1 January 2023: midnight on 2 January |
| CronExamples.DailyAtMidnightSecond | src/tests.rs:171-174 | from 01:00 on 2 January: midnight on 3 January |
| CronExamples.WeeklyOnMondayFirst | src/tests.rs:176-194 | Mondays at 09:00, from Sunday 1 January 2023: 2 January at 09:00 |
| CronExamples.WeeklyOnMondaySecond | src/tests.rs:195-200 | from 09:01 on 2 January: 9 January at 09:00 |
| CronExamples.MonthlyOnTheFirstSameDay | src/tests.rs:202-217 | the 1st at noon, from midnight on 1 January: the same day's noon |
| CronExamples.MonthlyOnTheFirstNextMonth | src/tests.rs:218-221 | from 13:00 on 1 January: 1 February at noon |
| CronExamples.SaturdaysAtTenFirst | src/tests.rs:223-243 | Saturdays at 10:00, from 1 January 2023: 7 January at 10:00 |
| CronExamples.SaturdaysAtTenSecond | src/tests.rs:244-247 | from 11:00 on 7 January: 14 January at 10:00 |
| CronExamples.SaturdaysAtTenThird | src/tests.rs:248-251 | from 11:00 on 14 January: 21 January at 10:00 |
| CronExamples.DailyAtNoonSameDay | src/tests.rs:399-406 | daily at noon, from 08:00: noon the same day |
| CronExamples.DailyAtNoonNextDay | src/tests.rs:408-411 | from 13:00: noon the next day |
| CronExamples.MonthlyOnTheFifteenthSameMonth | src/tests.rs:414-427 | the 15th at midnight, from 1 January: 15 January |
| CronExamples.MonthlyOnTheFifteenthNextMonth | src/tests.rs:429-435 | from 16 January: 15 February |
| Scenarios.Instants | src/tests.rs:56-57 | the epoch-second constants are the calendar dates the tests name |
| Scenarios.SpecificDateTime | src/tests.rs:4-51 | a one-time schedule for 20 September 22:00 answers itself a day before and nothing a minute after; its job fires at that instant, once |
| Scenarios.FiresOnTheHour | src/tests.rs:76-80 | a live job over the hourly schedule from 1 March fires on each hour it is asked at |
| Scenarios.HourlyRepetition | src/tests.rs:53-118 | the capped job fires on the first ten hours and not the eleventh; the job ending at 05:00 on 2 March fires on the first five hours and not at or after its end |
| Scenarios.HourlyInterval | src/tests.rs:266-306 | the hourly schedule's answers, unbounded and with an end two hours in |
| Scenarios.OneTimeWithClock | src/tests.rs:120-141 | for any clock reading `now`: a schedule an hour ahead is accepted, answers that instant from `now`, and answers nothing at or after it; one an hour back is refused with TimeInPast |
| Scenarios.RandomWithinBounds | src/tests.rs:384-397 | for every draw, the one-to-two-minute schedule anchored at 1 January 2023 answers within one to two minutes after the anchor, as the basic part of tests.rs:313-329 also asserts |
| Scenarios.MorningWindow | src/tests.rs:331-381 | whatever the generator draws, the morning job fires by 09:05 and not at 08:59:59 |
| Scenarios.CappedHourlyJob | src/tests.rs:438-466 | the hourly job capped at two fires at the start and an hour in, not half an hour in, and not afterwards |
| Scenarios.SaturdaysOfJanuary | src/tests.rs:233-237 | 7, 14 and 21 January 2023 at 10:00 match the Saturday schedule |
| Scenarios.CronJobFiresOnMatch | src/lib.rs:111-120 | a job on a cron schedule fires at any instant the schedule matches |
| Scenarios.SaturdayJob | src/tests.rs:253-263 | the Saturday job fires on each of the first three Saturdays at 10:00 |
| Scenarios.MixtureAnswers | src/tests.rs:468-526 | hourly until 22:00 combined with minutely until 23:00 gives the answers the test asserts, ending in `None` at 23:00 |
| Scenarios.MixtureJob | src/tests.rs:528-553 | the mixture job fires at 01:00, 22:00, 22:01, 22:31 and 23:00, and not at 23:01 |

## Left out

- The clock: `Utc::now()` in `OneTimeSchedule::new` is the parameter `now`. `Scenarios.OneTimeWithClock` restates the two tests that read it for every reading `now`, and `Scenarios.SpecificDateTime` fixes one.
- Randomness: `rand::rng()` is an oracle `draws: nat -> nat`. A query hands the k-th random-interval leaf of a schedule, counted in pre-order, the value `draws(base + k)`. `Draw` maps that value into `[min, max]`, uniformity aside.
- IntervalSchedules.NextOccurrence: the f32 division and the `as u64` / `as u32` casts are exact integer floor division. The source agrees with this only while elapsed time and interval are small enough for f32.
- Sub-second precision: everything is whole seconds. The source checks `as_secs()` but keeps nanoseconds in its durations.
- chrono's date range and all arithmetic overflow panics (`Duration * u32`, `DateTime + Duration`, `repeats += 1` without a cap) are left out: integers are unbounded.
- Jobs.Run: `max_repeats` and `repeats` are `nat`, not `u32`.
- `Box<dyn Schedule>`: dynamic dispatch is the closed `Schedule` datatype. The generic task is a type parameter.
- The fluent `JobBuilder` setters (src/lib.rs:58-76) are record updates of `NewBuilder()`.
- `InvalidRepetition` and `InvalidDateTime` are declared but never produced.
- The cron loop: it is bounded by `fuel` and ends in `OutOfFuel` when the fuel runs out, where the source would keep looping. `MoreFuelSameAnswer` shows that the bound never changes an answer the loop reaches.
- A cron search that panics or runs out of fuel ends the whole combined query and the whole `should_execute` call the same way, as the unwinding panic would.
- CronSchedules.NextOccurrence: returns the instant only, not chrono's `DateTime<Utc>`.
- Schedules.CombinedOrderIrrelevant: does not state which of two equal answers the combination keeps (the first seen, because the comparison is strict). The two are the same instant, so the choice cannot be observed.
- Schedules.CombinedOrderIrrelevant: holds only for parts with no random-interval leaf. Reordering parts with random leaves also reorders which draw each leaf receives, so the answer can change. Stating it for them would need the draw oracle permuted along with the parts.
- Scenarios.MixtureJob: asks each question of the freshly built job. The test asks the same job in turn; with no cap, the only difference is the repeat count.
- Scenarios.MorningWindow: states the outcome for the last time the test tries (09:05) rather than its retry loop. A job that fires at 09:05 for every draw satisfies the test's "fires at some tried time".
