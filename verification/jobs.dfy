/** `Job` and `JobBuilder` (src/lib.rs): a schedule paired with a task, an
    optional cap on the number of firings and an optional end time. The
    job's mutable `repeats` counter is threaded through explicitly: a call
    of `ShouldExecute` returns the job as it is after the call. */
module Jobs {
  import opened Wrappers
  import opened Errors
  import opened Schedules
  import I = IntervalSchedules

  datatype Job<T> = Job(schedule: Schedule, task: T, maxRepeats: Option<nat>, repeats: nat, endTime: Option<int>)

  datatype JobBuilder<T> = JobBuilder(schedule: Option<Schedule>, task: Option<T>, maxRepeats: Option<nat>,
                                      endTime: Option<int>)

  /** `JobBuilder::new`: nothing set yet. The fluent setters of lib.rs:58-76
      are record updates of this value. */
  function NewBuilder<T>(): JobBuilder<T> {
    JobBuilder(None, None, None, None)
  }

  /** `JobBuilder::build`: a schedule and a task are mandatory; the counter
      starts at zero and the limits are carried over. */
  function Build<T>(b: JobBuilder<T>): (r: Result<Job<T>, SchedulerError>)
    ensures r.Err? <==> b.schedule.None? || b.task.None?
    ensures r.Err? ==> r.error == InvalidConfiguration
    ensures r.Ok? ==> r.value.schedule == b.schedule.value && r.value.task == b.task.value
    ensures r.Ok? ==> r.value.maxRepeats == b.maxRepeats && r.value.endTime == b.endTime
    ensures r.Ok? ==> r.value.repeats == 0
  {
    match b.schedule
    case None => Err(InvalidConfiguration)
    case Some(s) =>
      match b.task
      case None => Err(InvalidConfiguration)
      case Some(t) => Ok(Job(s, t, b.maxRepeats, 0, b.endTime))
  }

  /** The job is retired at `current`: the cap is reached or the end time
      has come. */
  predicate Retired<T>(job: Job<T>, current: int) {
    || (job.maxRepeats.Some? && job.repeats >= job.maxRepeats.value)
    || (job.endTime.Some? && current >= job.endTime.value)
  }

  /** What `should_execute` asks its schedule: the next occurrence after the
      second before `current`, so that an occurrence at `current` itself
      counts. The random leaves draw `draws(0)`, `draws(1)`, ... */
  function Probe<T>(job: Job<T>, current: int, draws: nat -> nat, fuel: nat): Outcome<Option<int>>
    requires Valid(job.schedule)
  {
    NextOccurrence(job.schedule, current - 1, draws, 0, fuel)
  }

  /** The result of one call: the job afterwards, and the task if it fired. */
  datatype Decision<T> = Decision(job: Job<T>, fired: Option<T>)

  /** `Job::should_execute`. A schedule query that panics aborts the call. */
  function ShouldExecute<T>(job: Job<T>, current: int, draws: nat -> nat, fuel: nat): (r: Outcome<Decision<T>>)
    requires Valid(job.schedule)
    ensures Retired(job, current) ==> r == Returned(Decision(job, None))
    ensures !Retired(job, current) ==> (r.Returned? <==> Probe(job, current, draws, fuel).Returned?)
    ensures r.Returned? && r.value.fired.Some? <==>
              && !Retired(job, current)
              && Probe(job, current, draws, fuel).Returned?
              && Probe(job, current, draws, fuel).value.Some?
              && Probe(job, current, draws, fuel).value.value <= current
    ensures r.Returned? && r.value.fired.Some? ==>
              r.value.fired.value == job.task && r.value.job == job.(repeats := job.repeats + 1)
    ensures r.Returned? && r.value.fired.None? ==> r.value.job == job
  {
    if Retired(job, current) then
      Returned(Decision(job, None))
    else
      match Probe(job, current, draws, fuel)
      case Returned(next) =>
        if next.Some? && next.value <= current then
          Returned(Decision(job.(repeats := job.repeats + 1), Some(job.task)))
        else
          Returned(Decision(job, None))
      case Panicked => Panicked
      case OutOfFuel => OutOfFuel
  }

  /** One call of `should_execute`: the clock reading and the random source
      it sees. */
  datatype Call = Call(time: int, draws: nat -> nat)

  /** A sequence of calls, stopping at the first that aborts. Returns the job
      afterwards, or the abort. */
  function Run<T>(job: Job<T>, calls: seq<Call>, fuel: nat): (r: Outcome<Job<T>>)
    requires Valid(job.schedule)
    ensures r.Returned? ==> r.value == job.(repeats := r.value.repeats)
    ensures r.Returned? ==> job.repeats <= r.value.repeats <= job.repeats + |calls|
    ensures r.Returned? && job.maxRepeats.Some? && job.repeats <= job.maxRepeats.value ==>
              r.value.repeats <= job.maxRepeats.value
    decreases |calls|
  {
    if |calls| == 0 then
      Returned(job)
    else
      match ShouldExecute(job, calls[0].time, calls[0].draws, fuel)
      case Returned(d) => Run(d.job, calls[1..], fuel)
      case Panicked => Panicked
      case OutOfFuel => OutOfFuel
  }

  /** A job built with a cap of `n` fires at most `n` times, whatever the
      schedule and however often it is asked. */
  lemma BuiltJobRespectsCap<T>(b: JobBuilder<T>, n: nat, calls: seq<Call>, fuel: nat)
    requires b.maxRepeats == Some(n) && Build(b).Ok? && Valid(Build(b).value.schedule)
    ensures var r := Run(Build(b).value, calls, fuel);
            r.Returned? ==> r.value.repeats <= n
  {
  }

  /** A job that is not retired fires when its schedule is due right now. */
  lemma FiresWhenDue<T>(job: Job<T>, current: int, draws: nat -> nat, fuel: nat)
    requires Valid(job.schedule) && !Retired(job, current)
    requires Probe(job, current, draws, fuel) == Returned(Some(current))
    ensures ShouldExecute(job, current, draws, fuel)
            == Returned(Decision(job.(repeats := job.repeats + 1), Some(job.task)))
  {
  }

  /** A job never fires at or after its end time. */
  lemma NothingAfterEnd<T>(job: Job<T>, current: int, draws: nat -> nat, fuel: nat)
    requires Valid(job.schedule) && job.endTime.Some? && current >= job.endTime.value
    ensures ShouldExecute(job, current, draws, fuel) == Returned(Decision(job, None))
  {
  }

  /** For an interval schedule the firing instants are exactly its slots
      (up to the schedule's own end time), unless the job is retired. The
      schedule's end time is not consulted before its start: at the start
      instant itself the job fires even when that end time lies earlier. */
  lemma IntervalJobFiresOnSlots<T>(job: Job<T>, current: int, draws: nat -> nat, fuel: nat)
    requires job.schedule.Interval? && I.Valid(job.schedule.interval)
    ensures var i := job.schedule.interval;
            var r := ShouldExecute(job, current, draws, fuel);
            && r.Returned?
            && (r.value.fired.Some? <==>
                  && !Retired(job, current)
                  && I.IsSlot(i, current)
                  && (current == i.startTime || i.endTime.None? || current <= i.endTime.value))
  {
    var i := job.schedule.interval;
    var p := I.NextOccurrence(i, current - 1);
    assert Probe(job, current, draws, fuel) == Returned(p);
    if current - 1 < i.startTime {
      assert p == Some(i.startTime);
    } else if I.IsSlot(i, current) && (i.endTime.None? || current <= i.endTime.value) {
      assert p.Some? && p.value <= current;
    } else if p.Some? {
      assert p.value > current - 1;
    }
  }
}
