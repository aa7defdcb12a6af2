/** `CronSchedule` (src/schedulers/cron.rs): five optional field constraints
    and the restart-from-the-top search for the next instant that meets them
    all. The candidate is kept in broken-down form; every chrono setter
    returns an `Option` and the source `.unwrap()`s it, so a setter that
    fails ends the search in `Panicked`. The source loop has no bound; here
    it is bounded by `fuel` and ends in `OutOfFuel` when that runs out. */
module CronSchedules {
  import opened Wrappers
  import opened Errors
  import opened Calendar

  /** minute 0-59, hour 0-23, day 1-31, month 1-12, weekday 0-6 (0 = Monday);
      `None` is a wildcard. */
  datatype CronSchedule = CronSchedule(
    minute: Option<int>,
    hour: Option<int>,
    day: Option<int>,
    month: Option<int>,
    weekday: Option<int>)

  predicate Allows(constraint: Option<int>, value: int) {
    constraint.None? || constraint.value == value
  }

  /** Every set field of `dt` equals its constraint. Seconds are never
      constrained. */
  predicate MatchesAt(c: CronSchedule, dt: DateTime)
    requires Valid(dt)
  {
    && Allows(c.month, dt.month)
    && Allows(c.day, dt.day)
    && Allows(c.weekday, Weekday(dt))
    && Allows(c.hour, dt.hour)
    && Allows(c.minute, dt.minute)
  }

  predicate Matches(c: CronSchedule, t: int) {
    MatchesAt(c, FromUnix(t))
  }

  /** `CronSchedule::new()`. */
  function New(): (c: CronSchedule)
    ensures forall t :: Matches(c, t)
  {
    CronSchedule(None, None, None, None, None)
  }

  function SetMinute(c: CronSchedule, minute: nat): (r: Result<CronSchedule, SchedulerError>)
    ensures r.Ok? <==> minute < 60
    ensures r.Err? ==> r.error == InvalidConfiguration
    ensures r.Ok? ==> r.value.minute == Some(minute) && r.value.(minute := c.minute) == c
  {
    if minute >= 60 then Err(InvalidConfiguration) else Ok(c.(minute := Some(minute)))
  }

  function SetHour(c: CronSchedule, hour: nat): (r: Result<CronSchedule, SchedulerError>)
    ensures r.Ok? <==> hour < 24
    ensures r.Err? ==> r.error == InvalidConfiguration
    ensures r.Ok? ==> r.value.hour == Some(hour) && r.value.(hour := c.hour) == c
  {
    if hour >= 24 then Err(InvalidConfiguration) else Ok(c.(hour := Some(hour)))
  }

  function SetDay(c: CronSchedule, day: nat): (r: Result<CronSchedule, SchedulerError>)
    ensures r.Ok? <==> 1 <= day <= 31
    ensures r.Err? ==> r.error == InvalidConfiguration
    ensures r.Ok? ==> r.value.day == Some(day) && r.value.(day := c.day) == c
  {
    if day == 0 || day > 31 then Err(InvalidConfiguration) else Ok(c.(day := Some(day)))
  }

  function SetMonth(c: CronSchedule, month: nat): (r: Result<CronSchedule, SchedulerError>)
    ensures r.Ok? <==> 1 <= month <= 12
    ensures r.Err? ==> r.error == InvalidConfiguration
    ensures r.Ok? ==> r.value.month == Some(month) && r.value.(month := c.month) == c
  {
    if month == 0 || month > 12 then Err(InvalidConfiguration) else Ok(c.(month := Some(month)))
  }

  function SetWeekday(c: CronSchedule, weekday: nat): (r: Result<CronSchedule, SchedulerError>)
    ensures r.Ok? <==> weekday < 7
    ensures r.Err? ==> r.error == InvalidConfiguration
    ensures r.Ok? ==> r.value.weekday == Some(weekday) && r.value.(weekday := c.weekday) == c
  {
    if weekday >= 7 then Err(InvalidConfiguration) else Ok(c.(weekday := Some(weekday)))
  }

  // The setter chains of the loop body, each step of which may fail, as
  // the loop body writes them; `ChainsAgree` gives what each one yields.

  /** `.with_minute(minute).with_second(0)` */
  function MinuteChain(dt: DateTime, minute: int): Option<DateTime> {
    var a :- WithMinute(dt, minute);
    WithSecond(a, 0)
  }

  /** `.with_hour(hour).with_minute(0).with_second(0)` */
  function HourChain(dt: DateTime, hour: int): Option<DateTime> {
    var a :- WithHour(dt, hour);
    MinuteChain(a, 0)
  }

  /** `.with_day(day).with_hour(0).with_minute(0).with_second(0)` */
  function DayChain(dt: DateTime, day: int): Option<DateTime> {
    var a :- WithDay(dt, day);
    HourChain(a, 0)
  }

  /** `.with_month(month).with_day(1)` and on to midnight. */
  function MonthChain(dt: DateTime, month: int): Option<DateTime> {
    var a :- WithMonth(dt, month);
    DayChain(a, 1)
  }

  /** `.with_year(year).with_month(1).with_day(1)` and on to midnight. */
  function YearChain(dt: DateTime, year: int): Option<DateTime> {
    var a :- WithYear(dt, year);
    MonthChain(a, 1)
  }

  /** The start of minute `minute` of `dt`'s hour, if there is one. */
  function AtMinute(dt: DateTime, minute: int): Option<DateTime> {
    if 0 <= minute < 60 then Some(dt.(minute := minute, second := 0)) else None
  }

  /** The start of hour `hour` of `dt`'s date, if there is one. */
  function AtHour(dt: DateTime, hour: int): Option<DateTime> {
    if 0 <= hour < 24 then Some(dt.(hour := hour, minute := 0, second := 0)) else None
  }

  /** Midnight of day `day` of `dt`'s month, if that day exists. */
  function AtDay(dt: DateTime, day: int): Option<DateTime>
    requires Valid(dt)
  {
    if 1 <= day <= DaysInMonth(dt.year, dt.month) then Some(DateTime(dt.year, dt.month, day, 0, 0, 0))
    else None
  }

  /** Midnight of the first of month `month` of `dt`'s year; none when the
      month does not exist or `dt`'s day does not exist in it. */
  function AtMonth(dt: DateTime, month: int): Option<DateTime> {
    if 1 <= month <= 12 && dt.day <= DaysInMonth(dt.year, month)
    then Some(DateTime(dt.year, month, 1, 0, 0, 0)) else None
  }

  /** Midnight of 1 January of `year`; none when `dt`'s date does not exist
      in `year` (February 29). */
  function AtYear(dt: DateTime, year: int): Option<DateTime>
    requires Valid(dt)
  {
    if dt.day <= DaysInMonth(year, dt.month) then Some(DateTime(year, 1, 1, 0, 0, 0)) else None
  }

  /** Each chain fails exactly when one of its setters would produce a
      date that does not exist, and otherwise yields the start of the
      unit it sets. */
  lemma ChainsAgree(dt: DateTime, v: int)
    requires Valid(dt)
    ensures MinuteChain(dt, v) == AtMinute(dt, v)
    ensures HourChain(dt, v) == AtHour(dt, v)
    ensures DayChain(dt, v) == AtDay(dt, v)
    ensures MonthChain(dt, v) == AtMonth(dt, v)
    ensures YearChain(dt, v) == AtYear(dt, v)
  {
  }

  /** Midnight of `dt`'s date `+ Duration::from_secs(86400)`, computed as
      the calendar successor of that midnight; `MidnightPlusOneDay` shows
      the two agree. */
  function NextMidnight(dt: DateTime): (r: Option<DateTime>)
    requires Valid(dt)
    ensures r == Some(Tomorrow(dt))
  {
    match AtHour(dt, 0)
    case Some(a) => Some(Tomorrow(a))
    case None => None
  }

  /** Adding 86400 seconds to midnight reaches the next day's midnight. */
  lemma MidnightPlusOneDay(dt: DateTime)
    requires Valid(dt)
    ensures AtHour(dt, 0).Some?
    ensures NextMidnight(dt) == Some(AddSeconds(AtHour(dt, 0).value, 86400))
  {
    assert AtHour(dt, 0) == Some(Midnight(dt));
    DayAfterMidnight(dt);
  }

  /** What one pass through the loop body does. */
  datatype Step = Accept | Advance(next: DateTime) | Fail

  function Unwrapped(o: Option<DateTime>): Step {
    if o.Some? then Advance(o.value) else Fail
  }

  /** The fields the loop body examines, in the order it examines them. */
  datatype Field = Month | Day | DayOfWeek | Hour | Minute

  /** Position of `f` in the loop body. */
  function Rank(f: Field): nat {
    match f
    case Month => 0
    case Day => 1
    case DayOfWeek => 2
    case Hour => 3
    case Minute => 4
  }

  /** The field the loop body examines after `f`. */
  function Following(f: Field): (g: Field)
    requires f != Minute
    ensures Rank(g) == Rank(f) + 1
  {
    match f
    case Month => Day
    case Day => DayOfWeek
    case DayOfWeek => Hour
    case Hour => Minute
  }

  function Constraint(c: CronSchedule, f: Field): Option<int> {
    match f
    case Month => c.month
    case Day => c.day
    case DayOfWeek => c.weekday
    case Hour => c.hour
    case Minute => c.minute
  }

  function FieldOf(dt: DateTime, f: Field): int
    requires Valid(dt)
  {
    match f
    case Month => dt.month
    case Day => dt.day
    case DayOfWeek => Weekday(dt)
    case Hour => dt.hour
    case Minute => dt.minute
  }

  /** `dt` meets the constraint on field `f`. */
  predicate Meets(c: CronSchedule, dt: DateTime, f: Field)
    requires Valid(dt)
  {
    Allows(Constraint(c, f), FieldOf(dt, f))
  }

  /** The branch for a field that `dt` does not meet (cron.rs:70-104,
      107-137, 140-152, 155-181, 184-202): short of the wanted value, jump
      to its start; past it, to the start of the next larger unit. The
      weekday branch always moves on to the next midnight. */
  function Carry(c: CronSchedule, dt: DateTime, f: Field): (s: Step)
    requires Valid(dt) && !Meets(c, dt, f)
    ensures !s.Accept?
    ensures s.Advance? ==> Valid(s.next) && Before(dt, s.next) && s.next.second == 0
  {
    match f
    case Month =>
      if dt.month < c.month.value then Unwrapped(AtMonth(dt, c.month.value))
      else Unwrapped(AtYear(dt, dt.year + 1))
    case Day =>
      if dt.day < c.day.value then Unwrapped(AtDay(dt, c.day.value))
      else Unwrapped(AtMonth(dt, dt.month + 1))
    case DayOfWeek =>
      Unwrapped(NextMidnight(dt))
    case Hour =>
      if dt.hour < c.hour.value then Unwrapped(AtHour(dt, c.hour.value))
      else Unwrapped(AtDay(dt, dt.day + 1))
    case Minute =>
      if dt.minute < c.minute.value then Unwrapped(AtMinute(dt, c.minute.value))
      else Unwrapped(AtHour(dt, dt.hour + 1))
  }

  /** The loop body from the check of field `f` on. */
  function PassFrom(c: CronSchedule, dt: DateTime, f: Field): (s: Step)
    requires Valid(dt)
    ensures s.Accept? <==> forall g | Rank(f) <= Rank(g) :: Meets(c, dt, g)
    ensures s.Advance? ==> Valid(s.next) && Before(dt, s.next) && s.next.second == 0
    decreases 4 - Rank(f)
  {
    if !Meets(c, dt, f) then Carry(c, dt, f)
    else if f == Minute then Accept
    else PassFrom(c, dt, Following(f))
  }

  /** One pass through the loop body (cron.rs:68-206). */
  function Pass(c: CronSchedule, dt: DateTime): (s: Step)
    requires Valid(dt)
    ensures s.Accept? <==> MatchesAt(c, dt)
    ensures s.Advance? ==> Valid(s.next) && Before(dt, s.next) && s.next.second == 0
  {
    MatchesEveryField(c, dt);
    PassFrom(c, dt, Month)
  }

  /** A date-time matches a schedule exactly when it meets every field. */
  lemma MatchesEveryField(c: CronSchedule, dt: DateTime)
    requires Valid(dt)
    ensures MatchesAt(c, dt) <==> forall g | Rank(Month) <= Rank(g) :: Meets(c, dt, g)
  {
    if MatchesAt(c, dt) {
      forall g ensures Meets(c, dt, g) {
        match g
        case Month => case Day => case DayOfWeek => case Hour => case Minute =>
      }
    } else {
      assert !Meets(c, dt, Month) || !Meets(c, dt, Day) || !Meets(c, dt, DayOfWeek)
          || !Meets(c, dt, Hour) || !Meets(c, dt, Minute);
    }
  }

  /** The pass is decided by the first field, in loop order, that `dt`
      does not meet. */
  lemma {:induction false} FirstUnmetFieldDecides(c: CronSchedule, dt: DateTime, f: Field, k: Field)
    requires Valid(dt) && Rank(f) <= Rank(k)
    requires forall g | Rank(f) <= Rank(g) < Rank(k) :: Meets(c, dt, g)
    requires !Meets(c, dt, k)
    ensures PassFrom(c, dt, f) == Carry(c, dt, k)
    decreases Rank(k) - Rank(f)
  {
    if f != k {
      assert Rank(f) < Rank(k) by {
        match f case Month => case Day => case DayOfWeek => case Hour => case Minute =>
      }
      assert Meets(c, dt, f);
      FirstUnmetFieldDecides(c, dt, Following(f), k);
    }
  }

  /** A pass that moves the candidate did so in the branch of a field that
      `dt` does not meet. */
  lemma {:induction false} AdvanceHasCause(c: CronSchedule, dt: DateTime, f: Field) returns (g: Field)
    requires Valid(dt) && PassFrom(c, dt, f).Advance?
    ensures !Meets(c, dt, g) && Carry(c, dt, g) == PassFrom(c, dt, f)
    decreases 4 - Rank(f)
  {
    if !Meets(c, dt, f) {
      g := f;
    } else {
      g := AdvanceHasCause(c, dt, Following(f));
    }
  }

  /** The branch of an unmet field jumps over no date-time that meets the
      field. */
  lemma CarrySkipsNoMatch(c: CronSchedule, dt: DateTime, f: Field, d: DateTime)
    requires Valid(dt) && Valid(d) && !Meets(c, dt, f) && Carry(c, dt, f).Advance?
    requires !Before(d, dt) && Before(d, Carry(c, dt, f).next)
    ensures !Meets(c, d, f)
  {
    match f
    case Month =>
      if dt.month < c.month.value {
        assert d.year == dt.year && d.month < c.month.value;
      } else {
        assert d.year == dt.year && d.month >= dt.month;
      }
    case Day =>
      if dt.day < c.day.value {
        assert d.year == dt.year && d.month == dt.month && d.day < c.day.value;
      } else {
        assert d.year == dt.year && d.month == dt.month && d.day >= dt.day;
      }
    case DayOfWeek =>
      assert d.year == dt.year && d.month == dt.month && d.day == dt.day;
    case Hour =>
      if dt.hour < c.hour.value {
        assert d.year == dt.year && d.month == dt.month && d.day == dt.day && d.hour < c.hour.value;
      } else {
        assert d.year == dt.year && d.month == dt.month && d.day == dt.day && d.hour >= dt.hour;
      }
    case Minute =>
      assert d.year == dt.year && d.month == dt.month && d.day == dt.day && d.hour == dt.hour;
      if dt.minute < c.minute.value {
        assert d.minute < c.minute.value;
      } else {
        assert d.minute >= dt.minute;
      }
  }

  /** A pass that moves the candidate jumps over no matching date-time. */
  lemma PassSkipsNoMatch(c: CronSchedule, dt: DateTime, d: DateTime)
    requires Valid(dt) && Valid(d) && Pass(c, dt).Advance?
    requires !Before(d, dt) && Before(d, Pass(c, dt).next)
    ensures !MatchesAt(c, d)
  {
    var f := AdvanceHasCause(c, dt, Month);
    CarrySkipsNoMatch(c, dt, f, d);
  }

  // The `loop` of `next_occurrence`, stated for any loop body that only
  // moves forward; `Body(c)` is the one a schedule runs.

  /** `body` is defined on every valid date-time and, when it moves on,
      moves to a later valid date-time on a whole minute. */
  ghost predicate MovesForward(body: DateTime --> Step) {
    forall d | Valid(d) ::
      && body.requires(d)
      && (body(d).Advance? ==> Valid(body(d).next) && Before(d, body(d).next) && body(d).next.second == 0)
  }

  /** Nothing that `body` accepts lies between a candidate and the
      candidate `body` moves on to. */
  ghost predicate SkipsNothing(body: DateTime --> Step)
    requires MovesForward(body)
  {
    forall d, e | Valid(d) && Valid(e) && body(d).Advance? && !Before(e, d) && Before(e, body(d).next) ::
      !body(e).Accept?
  }

  /** The loop from candidate `dt`, allowed at most `fuel` passes; returns
      the date-time it stops at. */
  function Loop(body: DateTime --> Step, dt: DateTime, fuel: nat): (r: Outcome<DateTime>)
    requires MovesForward(body) && Valid(dt)
    ensures r.Returned? ==> Valid(r.value)
    decreases fuel
  {
    if fuel == 0 then OutOfFuel
    else
      match body(dt)
      case Accept => Returned(dt)
      case Fail => Panicked
      case Advance(next) => Loop(body, next, fuel - 1)
  }

  /** The loop never answers before its candidate. */
  lemma {:induction false} LoopMovesForward(body: DateTime --> Step, dt: DateTime, fuel: nat)
    requires MovesForward(body) && Valid(dt)
    ensures var r := Loop(body, dt, fuel);
            r.Returned? ==> !Before(r.value, dt)
    decreases fuel
  {
    if fuel > 0 && body(dt).Advance? {
      var next := body(dt).next;
      var r := Loop(body, next, fuel - 1);
      assert Loop(body, dt, fuel) == r;
      LoopMovesForward(body, next, fuel - 1);
      if r.Returned? {
        BeforeIsTransitive(r.value, next, dt);
      }
    }
  }

  /** The loop returns only a date-time its body accepts. */
  lemma {:induction false} LoopStopsOnAccept(body: DateTime --> Step, dt: DateTime, fuel: nat)
    requires MovesForward(body) && Valid(dt)
    ensures var r := Loop(body, dt, fuel);
            r.Returned? ==> body(r.value).Accept?
    decreases fuel
  {
    if fuel > 0 && body(dt).Advance? {
      assert Loop(body, dt, fuel) == Loop(body, body(dt).next, fuel - 1);
      LoopStopsOnAccept(body, body(dt).next, fuel - 1);
    }
  }

  /** Nothing the body accepts lies between the loop's candidate and its
      answer. */
  lemma {:induction false} LoopSkipsNothing(body: DateTime --> Step, dt: DateTime, fuel: nat)
    requires MovesForward(body) && SkipsNothing(body) && Valid(dt)
    ensures var r := Loop(body, dt, fuel);
            r.Returned? ==> forall e | Valid(e) && !Before(e, dt) && Before(e, r.value) :: !body(e).Accept?
    decreases fuel
  {
    if fuel > 0 && body(dt).Advance? {
      var next := body(dt).next;
      var r := Loop(body, next, fuel - 1);
      assert Loop(body, dt, fuel) == r;
      LoopSkipsNothing(body, next, fuel - 1);
      if r.Returned? {
        forall e | Valid(e) && !Before(e, dt) && Before(e, r.value)
          ensures !body(e).Accept?
        {
          if !Before(e, next) {
            assert !body(e).Accept?;
          }
        }
      }
    }
  }

  /** An answer other than the candidate itself falls on a whole minute. */
  lemma {:induction false} LoopLandsOnWholeMinute(body: DateTime --> Step, dt: DateTime, fuel: nat)
    requires MovesForward(body) && Valid(dt)
    ensures var r := Loop(body, dt, fuel);
            r.Returned? ==> r.value == dt || r.value.second == 0
    decreases fuel
  {
    if fuel > 0 && body(dt).Advance? {
      assert Loop(body, dt, fuel) == Loop(body, body(dt).next, fuel - 1);
      LoopLandsOnWholeMinute(body, body(dt).next, fuel - 1);
    }
  }

  /** Fuel only bounds the model's loop: once the loop has ended, more fuel
      ends it the same way. */
  lemma {:induction false} MoreFuelSameAnswer(body: DateTime --> Step, dt: DateTime, fuel: nat, extra: nat)
    requires MovesForward(body) && Valid(dt) && !Loop(body, dt, fuel).OutOfFuel?
    ensures Loop(body, dt, fuel + extra) == Loop(body, dt, fuel)
    decreases fuel
  {
    assert fuel > 0;
    if body(dt).Advance? {
      var next := body(dt).next;
      assert Loop(body, dt, fuel) == Loop(body, next, fuel - 1);
      assert Loop(body, dt, fuel + extra) == Loop(body, next, fuel - 1 + extra);
      MoreFuelSameAnswer(body, next, fuel - 1, extra);
    }
  }

  /** The loop body of a schedule: one pass over its fields. */
  function Body(c: CronSchedule): (body: DateTime --> Step)
    ensures MovesForward(body) && SkipsNothing(body)
    ensures forall d | Valid(d) :: body(d) == Pass(c, d)
  {
    var body := (d: DateTime) requires Valid(d) => Pass(c, d);
    assert SkipsNothing(body) by {
      forall d, e | Valid(d) && Valid(e) && body(d).Advance? && !Before(e, d) && Before(e, body(d).next)
        ensures !body(e).Accept?
      {
        PassSkipsNoMatch(c, d, e);
      }
    }
    body
  }

  /** The schedule's search from candidate `dt`. */
  function Search(c: CronSchedule, dt: DateTime, fuel: nat): Outcome<DateTime>
    requires Valid(dt)
  {
    Loop(Body(c), dt, fuel)
  }

  /** The instant of a search's answer. */
  function AsInstant(r: Outcome<DateTime>): Outcome<int>
    requires r.Returned? ==> Valid(r.value)
  {
    match r
    case Returned(d) => Returned(ToUnix(d))
    case Panicked => Panicked
    case OutOfFuel => OutOfFuel
  }

  /** `next_occurrence(after)`: the search starts one second after `after`. */
  function NextOccurrence(c: CronSchedule, after: int, fuel: nat): Outcome<int> {
    AsInstant(Search(c, FromUnix(after + 1), fuel))
  }

  /** A returned instant is later than `after`. */
  lemma NextOccurrenceIsLater(c: CronSchedule, after: int, fuel: nat)
    ensures var r := NextOccurrence(c, after, fuel);
            r.Returned? ==> after < r.value
  {
    var dt := FromUnix(after + 1);
    var r := Search(c, dt, fuel);
    LoopMovesForward(Body(c), dt, fuel);
    if r.Returned? {
      if Before(dt, r.value) {
        ToUnixMonotonic(dt, r.value);
      } else {
        BeforeIsTotal(dt, r.value);
      }
    }
  }

  /** A returned instant meets every set field. */
  lemma NextOccurrenceMatches(c: CronSchedule, after: int, fuel: nat)
    ensures var r := NextOccurrence(c, after, fuel);
            r.Returned? ==> after < r.value && Matches(c, r.value)
  {
    var dt := FromUnix(after + 1);
    var r := Search(c, dt, fuel);
    NextOccurrenceIsLater(c, after, fuel);
    if r.Returned? {
      LoopStopsOnAccept(Body(c), dt, fuel);
      assert MatchesAt(c, r.value);
      FromUnixToUnix(r.value);
    }
  }

  /** No instant strictly between `after` and the returned one matches. */
  lemma NextOccurrenceIsFirst(c: CronSchedule, after: int, fuel: nat)
    ensures var r := NextOccurrence(c, after, fuel);
            r.Returned? ==> forall t | after < t < r.value :: !Matches(c, t)
  {
    var dt := FromUnix(after + 1);
    var r := Search(c, dt, fuel);
    if r.Returned? {
      var d := r.value;
      LoopSkipsNothing(Body(c), dt, fuel);
      forall t | after < t < ToUnix(d)
        ensures !Matches(c, t)
      {
        var e := FromUnix(t);
        if Before(e, dt) {
          ToUnixMonotonic(e, dt);
        }
        if !Before(e, d) {
          if Before(d, e) {
            ToUnixMonotonic(d, e);
          } else {
            BeforeIsTotal(d, e);
          }
        }
        assert !Body(c)(e).Accept?;
      }
    }
  }

  /** A returned instant has second 0 unless it is `after + 1` itself. */
  lemma NextOccurrenceOnWholeMinute(c: CronSchedule, after: int, fuel: nat)
    ensures var r := NextOccurrence(c, after, fuel);
            r.Returned? ==> r.value == after + 1 || r.value % 60 == 0
  {
    var dt := FromUnix(after + 1);
    var r := Search(c, dt, fuel);
    if r.Returned? {
      LoopLandsOnWholeMinute(Body(c), dt, fuel);
      if r.value.second == 0 {
        WholeMinute(r.value);
      }
    }
  }

  /** The query after `after` starts its search at the date-time `dt` of
      the following second. */
  lemma QueryStartsAt(c: CronSchedule, after: int, dt: DateTime, fuel: nat)
    requires Valid(dt) && ToUnix(dt) == after + 1
    ensures NextOccurrence(c, after, fuel) == AsInstant(Search(c, dt, fuel))
  {
    FromUnixToUnix(dt);
  }

  /** If `after + 1` already matches it is the answer, whatever its second. */
  lemma MatchingSuccessorIsNext(c: CronSchedule, after: int, fuel: nat)
    requires fuel >= 1 && Matches(c, after + 1)
    ensures NextOccurrence(c, after, fuel) == Returned(after + 1)
  {
  }

  /** With no field set the schedule fires every second. */
  lemma WildcardFiresEverySecond(after: int, fuel: nat)
    requires fuel >= 1
    ensures NextOccurrence(New(), after, fuel) == Returned(after + 1)
  {
    MatchingSuccessorIsNext(New(), after, fuel);
  }

  /** A pass that panics ends the query that starts on it. */
  lemma FailingPassPanics(c: CronSchedule, dt: DateTime, fuel: nat)
    requires Valid(dt) && fuel >= 1 && Pass(c, dt) == Fail
    ensures NextOccurrence(c, ToUnix(dt) - 1, fuel) == Panicked
  {
    QueryStartsAt(c, ToUnix(dt) - 1, dt, fuel);
    assert Body(c)(dt) == Fail;
  }

  // The loop advances with chrono's checked setters and unwraps them, so a
  // carry that the setter cannot represent ends the query in a panic rather
  // than rolling over into the next hour, day, month or year.

  /** A minute-only schedule queried in the last hour of a day, past its
      minute: `with_hour(24)` fails. */
  lemma LateMinutePanics(m: int, dt: DateTime, fuel: nat)
    requires Valid(dt) && fuel >= 1 && dt.hour == 23 && dt.minute > m
    ensures NextOccurrence(CronSchedule(Some(m), None, None, None, None), ToUnix(dt) - 1, fuel) == Panicked
  {
    var c := CronSchedule(Some(m), None, None, None, None);
    assert Pass(c, dt) == Fail;
    FailingPassPanics(c, dt, fuel);
  }

  /** An hour schedule without a day or month constraint, queried on the
      last day of a month past its hour: `with_day(day + 1)` fails. */
  lemma LateHourAtMonthEndPanics(c: CronSchedule, dt: DateTime, fuel: nat)
    requires Valid(dt) && fuel >= 1 && c.month.None? && c.day.None? && c.weekday.None?
    requires c.hour.Some? && dt.hour > c.hour.value && dt.day == DaysInMonth(dt.year, dt.month)
    ensures NextOccurrence(c, ToUnix(dt) - 1, fuel) == Panicked
  {
    assert Pass(c, dt) == Fail;
    FailingPassPanics(c, dt, fuel);
  }

  /** A day schedule queried in December past its day: `with_month(13)`
      fails. */
  lemma LateDayInDecemberPanics(c: CronSchedule, dt: DateTime, fuel: nat)
    requires Valid(dt) && fuel >= 1 && c.month.None? && c.day.Some? && dt.month == 12 && dt.day > c.day.value
    ensures NextOccurrence(c, ToUnix(dt) - 1, fuel) == Panicked
  {
    assert Pass(c, dt) == Fail;
    FailingPassPanics(c, dt, fuel);
  }

  /** A day schedule whose day the current month does not have, queried
      before it in a month the schedule allows: `with_day` fails instead of
      moving on to a longer month. */
  lemma MissingDayPanics(c: CronSchedule, dt: DateTime, fuel: nat)
    requires Valid(dt) && fuel >= 1 && (c.month.None? || c.month.value == dt.month) && c.day.Some?
    requires dt.day < c.day.value && c.day.value > DaysInMonth(dt.year, dt.month)
    ensures NextOccurrence(c, ToUnix(dt) - 1, fuel) == Panicked
  {
    assert Pass(c, dt) == Fail;
    FailingPassPanics(c, dt, fuel);
  }

  /** A day schedule queried past its day on a date the next month does
      not have, say the 30th of January: `with_month(month + 1)` keeps the
      day and fails. */
  lemma DayCarryIntoShortMonthPanics(c: CronSchedule, dt: DateTime, fuel: nat)
    requires Valid(dt) && fuel >= 1 && (c.month.None? || c.month.value == dt.month) && c.day.Some?
    requires dt.day > c.day.value && dt.month < 12 && dt.day > DaysInMonth(dt.year, dt.month + 1)
    ensures NextOccurrence(c, ToUnix(dt) - 1, fuel) == Panicked
  {
    assert Pass(c, dt) == Fail;
    FailingPassPanics(c, dt, fuel);
  }

  /** A month schedule queried on a day its month does not have, say the
      31st of January for February: `with_month` keeps the day and fails. */
  lemma LongDayIntoShortMonthPanics(c: CronSchedule, dt: DateTime, fuel: nat)
    requires Valid(dt) && fuel >= 1 && c.month.Some? && dt.month < c.month.value <= 12
    requires dt.day > DaysInMonth(dt.year, c.month.value)
    ensures NextOccurrence(c, ToUnix(dt) - 1, fuel) == Panicked
  {
    assert Pass(c, dt) == Fail;
    FailingPassPanics(c, dt, fuel);
  }

  /** A month schedule queried after its month on the 29th of February of a
      leap year: `with_year(year + 1)` keeps the day and fails. */
  lemma LeapDayIntoNextYearPanics(c: CronSchedule, dt: DateTime, fuel: nat)
    requires Valid(dt) && fuel >= 1 && c.month.Some? && dt.month > c.month.value
    requires dt.month == 2 && dt.day == 29
    ensures NextOccurrence(c, ToUnix(dt) - 1, fuel) == Panicked
  {
    assert IsLeapYear(dt.year);
    LeapYearIsFollowedByCommon(dt.year);
    assert DaysInMonth(dt.year + 1, 2) == 28;
    assert Pass(c, dt) == Fail;
    FailingPassPanics(c, dt, fuel);
  }

  /** One pass of a search: a failing pass panics, and a pass that moves
      on leaves the rest of the search to the candidate it moves to. */
  lemma SearchStep(c: CronSchedule, dt: DateTime, fuel: nat)
    requires Valid(dt) && fuel >= 1
    ensures Pass(c, dt).Fail? ==> Search(c, dt, fuel) == Panicked
    ensures Pass(c, dt).Advance? ==> Search(c, dt, fuel) == Search(c, Pass(c, dt).next, fuel - 1)
  {
    assert Body(c)(dt) == Pass(c, dt);
  }

  /** Day 31 of February, which no date has: from any start the search
      panics within three passes. In February `with_day(31)` fails; in
      January it moves to 1 February first, unless `with_month(2)` already
      fails on a day February lacks; after February it moves to 1 January of
      the next year and then to 1 February. */
  lemma FebruaryThirtyFirstPanics(c: CronSchedule, dt: DateTime, fuel: nat)
    requires Valid(dt) && fuel >= 3 && c.day == Some(31) && c.month == Some(2)
    ensures NextOccurrence(c, ToUnix(dt) - 1, fuel) == Panicked
  {
    SearchStep(c, dt, fuel);
    if dt.month == 2 || (dt.month == 1 && dt.day > DaysInMonth(dt.year, 2)) {
      assert Pass(c, dt) == Fail;
    } else {
      var year := if dt.month == 1 then dt.year else dt.year + 1;
      var february := DateTime(year, 2, 1, 0, 0, 0);
      var left := fuel - 1;
      if dt.month != 1 {
        var january := DateTime(year, 1, 1, 0, 0, 0);
        assert Pass(c, dt) == Advance(january);
        SearchStep(c, january, fuel - 1);
        assert Pass(c, january) == Advance(february);
        left := fuel - 2;
      } else {
        assert Pass(c, dt) == Advance(february);
      }
      assert Search(c, dt, fuel) == Search(c, february, left);
      SearchStep(c, february, left);
      assert Pass(c, february) == Fail;
    }
    QueryStartsAt(c, ToUnix(dt) - 1, dt, fuel);
  }
}
