/** `IntervalSchedule` (src/schedulers/interval.rs): fires at the start
    instant and every `interval` seconds after it, up to an optional
    inclusive end. */
module IntervalSchedules {
  import opened Wrappers
  import opened Errors

  datatype IntervalSchedule = IntervalSchedule(interval: nat, startTime: int, endTime: Option<int>)

  /** What `new` guarantees of every schedule it builds. */
  predicate Valid(s: IntervalSchedule) {
    s.interval > 0
  }

  /** `IntervalSchedule::new`: a zero interval is refused. */
  function New(interval: nat, startTime: int): (r: Result<IntervalSchedule, SchedulerError>)
    ensures r.Err? <==> interval == 0
    ensures r.Err? ==> r.error == InvalidDuration
    ensures r.Ok? ==> Valid(r.value) && r.value == IntervalSchedule(interval, startTime, None)
  {
    if interval == 0 then Err(InvalidDuration) else Ok(IntervalSchedule(interval, startTime, None))
  }

  function WithEndTime(s: IntervalSchedule, endTime: int): (r: IntervalSchedule)
    ensures r.endTime == Some(endTime) && r.(endTime := s.endTime) == s
  {
    s.(endTime := Some(endTime))
  }

  /** `t` is the start instant plus a whole number of intervals. */
  predicate IsSlot(s: IntervalSchedule, t: int)
    requires Valid(s)
  {
    t >= s.startTime && (t - s.startTime) % s.interval == 0
  }

  lemma MulSign(i: int, d: int)
    requires i > 0
    ensures d >= 1 ==> i * d >= i
    ensures d <= -1 ==> i * d <= -i
  {
  }

  /** Euclidean division has one quotient and one remainder. */
  lemma DivUnique(x: int, i: int, q: int, r: int)
    requires i > 0 && x == i * q + r && 0 <= r < i
    ensures x / i == q && x % i == r
  {
    MulSign(i, q - x / i);
  }

  lemma MultipleIsSlot(s: IntervalSchedule, k: nat)
    requires Valid(s)
    ensures IsSlot(s, s.startTime + s.interval * k)
  {
    DivUnique(s.interval * k, s.interval, k, 0);
  }

  lemma SlotBeyond(s: IntervalSchedule, q: int, u: int)
    requires Valid(s) && IsSlot(s, u)
    requires u - s.startTime > s.interval * q
    ensures u >= s.startTime + s.interval * (q + 1)
  {
    var i := s.interval;
    var k := (u - s.startTime) / i;
    assert u - s.startTime == i * k;
    MulSign(i, k - q);
    MulSign(i, k - (q + 1));
  }

  /** `next_occurrence`: the start while `after` precedes it (the end is not
      consulted then); otherwise the first slot strictly after `after`, unless
      that slot lies beyond the end. */
  function NextOccurrence(s: IntervalSchedule, after: int): (r: Option<int>)
    requires Valid(s)
    ensures after < s.startTime ==> r == Some(s.startTime)
    ensures r.Some? ==> after < r.value && IsSlot(s, r.value)
    ensures r.Some? && s.startTime <= after ==> r.value - s.interval <= after
    ensures r.Some? && s.startTime <= after && s.endTime.Some? ==> r.value <= s.endTime.value
    ensures r.Some? ==> forall u :: IsSlot(s, u) && after < u ==> r.value <= u
    ensures r.None? <==>
      && s.startTime <= after
      && s.endTime.Some?
      && forall u :: IsSlot(s, u) && after < u ==> s.endTime.value < u
  {
    if after < s.startTime then
      Some(s.startTime)
    else
      var passed := (after - s.startTime) / s.interval;
      var next := s.startTime + s.interval * (passed + 1);
      MultipleIsSlot(s, passed + 1);
      assert s.interval * passed <= after - s.startTime < s.interval * (passed + 1);
      forall u | IsSlot(s, u) && after < u
        ensures next <= u
      {
        SlotBeyond(s, passed, u);
      }
      if s.endTime.Some? && next > s.endTime.value then None else Some(next)
  }
}
