/** `OneTimeSchedule` (src/schedulers/one_time.rs): fires once, at a fixed
    instant. The construction-time clock reading `Utc::now()` is the
    parameter `now`. */
module OneTimeSchedules {
  import opened Wrappers
  import opened Errors

  datatype OneTimeSchedule = OneTimeSchedule(time: int)

  /** `OneTimeSchedule::new`: the instant must lie strictly after `now`. */
  function New(time: int, now: int): (r: Result<OneTimeSchedule, SchedulerError>)
    ensures r.Err? <==> time <= now
    ensures r.Err? ==> r.error == TimeInPast
    ensures r.Ok? ==> r.value.time == time && now < r.value.time
  {
    if time <= now then Err(TimeInPast) else Ok(OneTimeSchedule(time))
  }

  /** The instant itself while it is still ahead of `after`; nothing from
      that instant on, so once exhausted it stays exhausted. */
  function NextOccurrence(s: OneTimeSchedule, after: int): (r: Option<int>)
    ensures r.Some? <==> after < s.time
    ensures r.Some? ==> r.value == s.time && after < r.value
  {
    if after < s.time then Some(s.time) else None
  }
}
