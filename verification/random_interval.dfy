/** `RandomIntervalSchedule` (src/schedulers/random_interval.rs): fires a
    random number of seconds, between a minimum and a maximum, after an
    anchor. The random number generator is an oracle: each query receives a
    raw value `raw`, which the schedule maps onto its range. */
module RandomIntervalSchedules {
  import opened Wrappers
  import opened Errors

  datatype RandomIntervalSchedule = RandomIntervalSchedule(
    minInterval: nat,
    maxInterval: nat,
    lastTime: Option<int>,
    endTime: Option<int>)

  /** What `new` guarantees of every schedule it builds. */
  predicate Valid(s: RandomIntervalSchedule) {
    0 < s.minInterval <= s.maxInterval
  }

  /** `RandomIntervalSchedule::new`: zero bounds are checked first, then
      their order. */
  function New(minInterval: nat, maxInterval: nat): (r: Result<RandomIntervalSchedule, SchedulerError>)
    ensures r.Ok? <==> 0 < minInterval <= maxInterval
    ensures r.Err? && (minInterval == 0 || maxInterval == 0) ==> r.error == InvalidDuration
    ensures r.Err? && 0 < minInterval && 0 < maxInterval ==> r.error == InvalidConfiguration
    ensures r.Ok? ==> Valid(r.value) && r.value == RandomIntervalSchedule(minInterval, maxInterval, None, None)
  {
    if minInterval == 0 || maxInterval == 0 then Err(InvalidDuration)
    else if minInterval > maxInterval then Err(InvalidConfiguration)
    else Ok(RandomIntervalSchedule(minInterval, maxInterval, None, None))
  }

  function WithEndTime(s: RandomIntervalSchedule, endTime: int): (r: RandomIntervalSchedule)
    ensures r.endTime == Some(endTime) && r.(endTime := s.endTime) == s
  {
    s.(endTime := Some(endTime))
  }

  /** `with_start_time` sets the anchor. */
  function WithStartTime(s: RandomIntervalSchedule, startTime: int): (r: RandomIntervalSchedule)
    ensures r.lastTime == Some(startTime) && r.(lastTime := s.lastTime) == s
  {
    s.(lastTime := Some(startTime))
  }

  /** `generate_random_interval`: the oracle's value mapped into
      `[minInterval, maxInterval]`, both ends included. */
  function Draw(s: RandomIntervalSchedule, raw: nat): (d: nat)
    requires Valid(s)
    ensures s.minInterval <= d <= s.maxInterval
  {
    s.minInterval + raw % (s.maxInterval - s.minInterval + 1)
  }

  /** Every offset in the range is drawn for some oracle value. */
  lemma DrawReachesEveryOffset(s: RandomIntervalSchedule, d: nat)
    requires Valid(s) && s.minInterval <= d <= s.maxInterval
    ensures Draw(s, d - s.minInterval) == d
  {
  }

  /** The configured start if set, otherwise the query instant. */
  function Anchor(s: RandomIntervalSchedule, after: int): int {
    if s.lastTime.Some? then s.lastTime.value else after
  }

  /** `next_occurrence`: the anchor plus the drawn offset, unless that lies
      beyond the end. */
  function NextOccurrence(s: RandomIntervalSchedule, after: int, raw: nat): (r: Option<int>)
    requires Valid(s)
    ensures r.None? <==> s.endTime.Some? && s.endTime.value < Anchor(s, after) + Draw(s, raw)
    ensures r.Some? ==> r.value == Anchor(s, after) + Draw(s, raw)
    ensures r.Some? ==> Anchor(s, after) + s.minInterval <= r.value <= Anchor(s, after) + s.maxInterval
    ensures r.Some? && s.endTime.Some? ==> r.value <= s.endTime.value
    ensures r.Some? && s.lastTime.None? ==> after < r.value
  {
    var next := Anchor(s, after) + Draw(s, raw);
    if s.endTime.Some? && next > s.endTime.value then None else Some(next)
  }

  /** With an anchor set the answer ignores `after`, so it may not lie
      after it: anchored at 0 with offsets of 60 to 120 seconds, a query
      at 1000 answers at most 120. */
  lemma AnchoredAnswerMayPrecedeQuery(raw: nat)
    ensures var s := RandomIntervalSchedule(60, 120, Some(0), None);
            NextOccurrence(s, 1000, raw).Some? && NextOccurrence(s, 1000, raw).value <= 1000
  {
  }
}
