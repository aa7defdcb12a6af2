/** The `Schedule` trait (src/schedulers/mod.rs) as a closed sum over its
    five implementations, with `CombinedSchedule`
    (src/schedulers/combined.rs) as the recursive case.

    A query receives the random-number oracle `draws` and a `base`: the k-th
    random-interval leaf of the schedule, counted in pre-order, draws
    `draws(base + k)`. `fuel` bounds every cron search. */
module Schedules {
  import opened Wrappers
  import O = OneTimeSchedules
  import I = IntervalSchedules
  import R = RandomIntervalSchedules
  import C = CronSchedules

  datatype Schedule =
    | OneTime(oneTime: O.OneTimeSchedule)
    | Interval(interval: I.IntervalSchedule)
    | RandomInterval(random: R.RandomIntervalSchedule)
    | Cron(cron: C.CronSchedule)
    | Combined(parts: seq<Schedule>)

  /** What the constructors guarantee of every schedule they build. */
  predicate Valid(s: Schedule) {
    match s
    case OneTime(_) => true
    case Interval(i) => I.Valid(i)
    case RandomInterval(r) => R.Valid(r)
    case Cron(_) => true
    case Combined(parts) => forall k | 0 <= k < |parts| :: Valid(parts[k])
  }

  predicate AllValid(parts: seq<Schedule>) {
    forall k | 0 <= k < |parts| :: Valid(parts[k])
  }

  /** How many random draws one query of `s` consumes. */
  function RandomLeaves(s: Schedule): nat
    decreases s
  {
    match s
    case RandomInterval(_) => 1
    case Combined(parts) => RandomLeavesAll(parts)
    case _ => 0
  }

  function RandomLeavesAll(parts: seq<Schedule>): nat
    decreases parts
  {
    if |parts| == 0 then 0 else RandomLeaves(parts[0]) + RandomLeavesAll(parts[1..])
  }

  /** `Schedule::next_occurrence`. A cron search that panics or runs out of
      fuel ends the whole query the same way. */
  function NextOccurrence(s: Schedule, after: int, draws: nat -> nat, base: nat, fuel: nat)
    : Outcome<Option<int>>
    requires Valid(s)
    decreases s
  {
    match s
    case OneTime(o) => Returned(O.NextOccurrence(o, after))
    case Interval(i) => Returned(I.NextOccurrence(i, after))
    case RandomInterval(r) => Returned(R.NextOccurrence(r, after, draws(base)))
    case Cron(c) =>
      (match C.NextOccurrence(c, after, fuel)
       case Returned(t) => Returned(Some(t))
       case Panicked => Panicked
       case OutOfFuel => OutOfFuel)
    case Combined(parts) => Earliest(parts, after, draws, base, fuel, None)
  }

  /** One step of the fold: a component's answer replaces the earliest so
      far only when strictly smaller, so ties keep the first seen. */
  function Keep(earliest: Option<int>, next: Option<int>): Option<int> {
    match next
    case None => earliest
    case Some(n) => if earliest.None? || n < earliest.value then Some(n) else earliest
  }

  /** The loop at combined.rs:18-29, from accumulator `earliest` on. */
  function Earliest(parts: seq<Schedule>, after: int, draws: nat -> nat, base: nat, fuel: nat,
                    earliest: Option<int>): Outcome<Option<int>>
    requires AllValid(parts)
    decreases parts
  {
    if |parts| == 0 then
      Returned(earliest)
    else
      match NextOccurrence(parts[0], after, draws, base, fuel)
      case Returned(next) =>
        Earliest(parts[1..], after, draws, base + RandomLeaves(parts[0]), fuel, Keep(earliest, next))
      case Panicked => Panicked
      case OutOfFuel => OutOfFuel
  }

  /** A component that answers passes the fold on to the rest. */
  lemma EarliestStep(parts: seq<Schedule>, after: int, draws: nat -> nat, base: nat, fuel: nat, acc: Option<int>)
    requires AllValid(parts) && |parts| > 0 && NextOccurrence(parts[0], after, draws, base, fuel).Returned?
    ensures AllValid(parts[1..])
    ensures Earliest(parts, after, draws, base, fuel, acc)
            == Earliest(parts[1..], after, draws, base + RandomLeaves(parts[0]), fuel,
                        Keep(acc, NextOccurrence(parts[0], after, draws, base, fuel).value))
  {
    assert AllValid(parts[1..]) by {
      forall k | 0 <= k < |parts| - 1 ensures Valid(parts[1..][k]) {
        assert parts[1..][k] == parts[k + 1];
      }
    }
  }

  /** What component `k` answers inside a combination queried with `base`. */
  function AnswerOf(parts: seq<Schedule>, k: int, after: int, draws: nat -> nat, base: nat, fuel: nat)
    : Outcome<Option<int>>
    requires AllValid(parts) && 0 <= k < |parts|
  {
    NextOccurrence(parts[k], after, draws, base + RandomLeavesAll(parts[..k]), fuel)
  }

  lemma LeavesOfPrefix(parts: seq<Schedule>, k: int)
    requires 0 <= k < |parts|
    ensures RandomLeavesAll(parts[..k + 1]) == RandomLeaves(parts[0]) + RandomLeavesAll(parts[1..][..k])
  {
    assert parts[..k + 1][1..] == parts[1..][..k];
  }

  lemma AnswerOfTail(parts: seq<Schedule>, k: int, after: int, draws: nat -> nat, base: nat, fuel: nat)
    requires AllValid(parts) && 0 <= k < |parts| - 1
    ensures AnswerOf(parts[1..], k, after, draws, base + RandomLeaves(parts[0]), fuel)
            == AnswerOf(parts, k + 1, after, draws, base, fuel)
  {
    LeavesOfPrefix(parts, k);
    var tail := parts[1..];
    assert AllValid(tail) by {
      forall j | 0 <= j < |tail| ensures Valid(tail[j]) {
        assert tail[j] == parts[j + 1];
      }
    }
    assert tail[k] == parts[k + 1];
    assert base + RandomLeaves(parts[0]) + RandomLeavesAll(tail[..k]) == base + RandomLeavesAll(parts[..k + 1]);
  }

  /** Inside the fold, component `j > 0` of `parts` is component `j - 1`
      of the tail, queried with the tail's offset into the draws. */
  lemma TailAnswers(parts: seq<Schedule>, after: int, draws: nat -> nat, base: nat, fuel: nat)
    requires AllValid(parts) && |parts| > 0
    ensures AllValid(parts[1..])
    ensures forall j | 1 <= j < |parts| ::
              AnswerOf(parts, j, after, draws, base, fuel)
              == AnswerOf(parts[1..], j - 1, after, draws, base + RandomLeaves(parts[0]), fuel)
  {
    forall j | 1 <= j < |parts|
      ensures AnswerOf(parts, j, after, draws, base, fuel)
              == AnswerOf(parts[1..], j - 1, after, draws, base + RandomLeaves(parts[0]), fuel)
    {
      AnswerOfTail(parts, j - 1, after, draws, base, fuel);
    }
  }

  /** The answers of the components in order, each queried with the base
      its position in the combination gives it. */
  function Answers(parts: seq<Schedule>, after: int, draws: nat -> nat, base: nat, fuel: nat)
    : (a: seq<Outcome<Option<int>>>)
    requires AllValid(parts)
    ensures |a| == |parts|
    ensures forall k | 0 <= k < |parts| :: a[k] == AnswerOf(parts, k, after, draws, base, fuel)
  {
    seq(|parts|, k requires 0 <= k < |parts| => AnswerOf(parts, k, after, draws, base, fuel))
  }

  /** The same fold over answers already computed. */
  function Fold(answers: seq<Outcome<Option<int>>>, acc: Option<int>): Outcome<Option<int>>
    decreases |answers|
  {
    if |answers| == 0 then
      Returned(acc)
    else
      match answers[0]
      case Returned(next) => Fold(answers[1..], Keep(acc, next))
      case Panicked => Panicked
      case OutOfFuel => OutOfFuel
  }

  /** Folding over the components is folding over their answers. */
  lemma {:induction false} EarliestIsFold(parts: seq<Schedule>, after: int, draws: nat -> nat, base: nat,
                                          fuel: nat, acc: Option<int>)
    requires AllValid(parts)
    ensures Earliest(parts, after, draws, base, fuel, acc) == Fold(Answers(parts, after, draws, base, fuel), acc)
    decreases |parts|
  {
    if |parts| > 0 {
      var answers := Answers(parts, after, draws, base, fuel);
      var first := NextOccurrence(parts[0], after, draws, base, fuel);
      assert answers[0] == first;
      if first.Returned? {
        var tail, base' := parts[1..], base + RandomLeaves(parts[0]);
        EarliestStep(parts, after, draws, base, fuel, acc);
        TailAnswers(parts, after, draws, base, fuel);
        EarliestIsFold(tail, after, draws, base', fuel, Keep(acc, first.value));
        assert answers[1..] == Answers(tail, after, draws, base', fuel);
      }
    }
  }

  /** The fold aborts exactly when some answer does. */
  lemma {:induction false} FoldAborts(answers: seq<Outcome<Option<int>>>, acc: Option<int>)
    ensures Fold(answers, acc).Returned? <==> forall k | 0 <= k < |answers| :: answers[k].Returned?
    decreases |answers|
  {
    if |answers| > 0 && answers[0].Returned? {
      FoldAborts(answers[1..], Keep(acc, answers[0].value));
      assert forall k | 1 <= k < |answers| :: answers[k] == answers[1..][k - 1];
    }
  }

  /** The fold's result, stated without the fold: when it returns, it is
      `None` exactly when the accumulator and every answer are `None`, and
      else the least of the accumulator and the answers, which is one of
      them. */
  lemma {:induction false} FoldIsLeast(answers: seq<Outcome<Option<int>>>, acc: Option<int>)
    ensures var r := Fold(answers, acc);
      r.Returned? ==>
        && (r.value.None? <==> acc.None? && forall k | 0 <= k < |answers| :: answers[k] == Returned(None))
        && (r.value.Some? ==> r.value == acc || exists k | 0 <= k < |answers| :: answers[k] == Returned(r.value))
        && (r.value.Some? && acc.Some? ==> r.value.value <= acc.value)
        && (r.value.Some? ==>
              forall k | 0 <= k < |answers| && answers[k].Returned? && answers[k].value.Some? ::
                r.value.value <= answers[k].value.value)
    decreases |answers|
  {
    if |answers| > 0 && answers[0].Returned? {
      var tail := answers[1..];
      FoldIsLeast(tail, Keep(acc, answers[0].value));
      FoldAborts(tail, Keep(acc, answers[0].value));
      assert forall k | 1 <= k < |answers| :: answers[k] == tail[k - 1];
      var r := Fold(answers, acc);
      if r.Returned? && r.value.Some? && r.value != acc && r.value != answers[0].value {
        var k :| 0 <= k < |tail| && tail[k] == Returned(r.value);
        assert answers[k + 1] == Returned(r.value);
      }
    }
  }

  /** `CombinedSchedule::next_occurrence`: the combination answers only when
      every component does, is `None` exactly when all of them are (in
      particular with no components), and is otherwise the earliest
      component answer. */
  lemma CombinedIsEarliest(parts: seq<Schedule>, after: int, draws: nat -> nat, base: nat, fuel: nat)
    requires AllValid(parts)
    ensures var r := NextOccurrence(Combined(parts), after, draws, base, fuel);
      && (r.Returned? <==> forall k | 0 <= k < |parts| :: AnswerOf(parts, k, after, draws, base, fuel).Returned?)
      && (r.Returned? ==>
            (r.value.None? <==> forall k | 0 <= k < |parts| :: AnswerOf(parts, k, after, draws, base, fuel).value.None?))
      && (r.Returned? && r.value.Some? ==>
            exists k | 0 <= k < |parts| :: AnswerOf(parts, k, after, draws, base, fuel).value == r.value)
      && (r.Returned? && r.value.Some? ==>
            forall k | 0 <= k < |parts| && AnswerOf(parts, k, after, draws, base, fuel).value.Some? ::
              r.value.value <= AnswerOf(parts, k, after, draws, base, fuel).value.value)
  {
    var answers := Answers(parts, after, draws, base, fuel);
    EarliestIsFold(parts, after, draws, base, fuel, None);
    FoldAborts(answers, None);
    FoldIsLeast(answers, None);
  }

  /** A cron leaf answers what its search returns. */
  lemma CronLeafAnswers(c: C.CronSchedule, after: int, t: int, draws: nat -> nat, base: nat, fuel: nat)
    requires C.NextOccurrence(c, after, fuel) == Returned(t)
    ensures NextOccurrence(Cron(c), after, draws, base, fuel) == Returned(Some(t))
  {
  }

  /** Every answer of a schedule is strictly later than the query instant,
      as the `Schedule` contract asks, unless it comes from a
      random-interval leaf with its anchor set. */
  predicate Anchored(s: Schedule)
    decreases s
  {
    match s
    case RandomInterval(r) => r.lastTime.Some?
    case Combined(parts) => exists k | 0 <= k < |parts| :: Anchored(parts[k])
    case _ => false
  }

  lemma {:induction false} AnswersLieAfterQuery(s: Schedule, after: int, draws: nat -> nat, base: nat, fuel: nat)
    requires Valid(s) && !Anchored(s)
    ensures var r := NextOccurrence(s, after, draws, base, fuel);
            r.Returned? && r.value.Some? ==> after < r.value.value
    decreases s, 1
  {
    match s
    case OneTime(o) =>
      assert NextOccurrence(s, after, draws, base, fuel) == Returned(O.NextOccurrence(o, after));
    case Interval(i) =>
      assert NextOccurrence(s, after, draws, base, fuel) == Returned(I.NextOccurrence(i, after));
    case RandomInterval(q) =>
      assert NextOccurrence(s, after, draws, base, fuel) == Returned(R.NextOccurrence(q, after, draws(base)));
    case Cron(c) =>
      C.NextOccurrenceIsLater(c, after, fuel);
    case Combined(parts) =>
      var r := NextOccurrence(s, after, draws, base, fuel);
      if r.Returned? && r.value.Some? {
        CombinedIsEarliest(parts, after, draws, base, fuel);
        var k :| 0 <= k < |parts| && AnswerOf(parts, k, after, draws, base, fuel).value == r.value;
        var b := base + RandomLeavesAll(parts[..k]);
        assert AnswerOf(parts, k, after, draws, base, fuel) == NextOccurrence(parts[k], after, draws, b, fuel);
        assert !Anchored(parts[k]);
        AnswersLieAfterQuery(parts[k], after, draws, b, fuel);
      }
  }

  /** A schedule without random-interval leaves ignores the oracle: its
      queries are deterministic, and repeating one gives the same answer. */
  lemma {:induction false} IgnoresDraws(s: Schedule, after: int, d1: nat -> nat, b1: nat, d2: nat -> nat, b2: nat,
                                        fuel: nat)
    requires Valid(s) && RandomLeaves(s) == 0
    ensures NextOccurrence(s, after, d1, b1, fuel) == NextOccurrence(s, after, d2, b2, fuel)
    decreases s, 1
  {
    if s.Combined? {
      EarliestIgnoresDraws(s.parts, after, d1, b1, d2, b2, fuel, None);
    }
  }

  lemma {:induction false} EarliestIgnoresDraws(parts: seq<Schedule>, after: int, d1: nat -> nat, b1: nat,
                                                d2: nat -> nat, b2: nat, fuel: nat, acc: Option<int>)
    requires AllValid(parts) && RandomLeavesAll(parts) == 0
    ensures Earliest(parts, after, d1, b1, fuel, acc) == Earliest(parts, after, d2, b2, fuel, acc)
    decreases parts, 0
  {
    if |parts| > 0 {
      assert RandomLeaves(parts[0]) == 0 && RandomLeavesAll(parts[1..]) == 0;
      IgnoresDraws(parts[0], after, d1, b1, d2, b2, fuel);
      var first := NextOccurrence(parts[0], after, d1, b1, fuel);
      assert first == NextOccurrence(parts[0], after, d2, b2, fuel);
      if first.Returned? {
        var acc' := Keep(acc, first.value);
        EarliestIgnoresDraws(parts[1..], after, d1, b1, d2, b2, fuel, acc');
        EarliestStep(parts, after, d1, b1, fuel, acc);
        EarliestStep(parts, after, d2, b2, fuel, acc);
      }
    }
  }

  lemma {:induction false} NoLeavesEach(parts: seq<Schedule>)
    ensures RandomLeavesAll(parts) == 0 <==> forall k | 0 <= k < |parts| :: RandomLeaves(parts[k]) == 0
    decreases |parts|
  {
    if |parts| > 0 {
      NoLeavesEach(parts[1..]);
      assert forall k | 1 <= k < |parts| :: parts[k] == parts[1..][k - 1];
    }
  }

  /** Without random leaves, a component answers the same inside the
      combination as on its own. */
  lemma AnswerOfDrawFree(parts: seq<Schedule>, k: int, after: int, draws: nat -> nat, base: nat, fuel: nat)
    requires AllValid(parts) && RandomLeavesAll(parts) == 0 && 0 <= k < |parts|
    ensures AnswerOf(parts, k, after, draws, base, fuel) == NextOccurrence(parts[k], after, draws, base, fuel)
  {
    NoLeavesEach(parts);
    IgnoresDraws(parts[k], after, draws, base + RandomLeavesAll(parts[..k]), draws, base, fuel);
  }

  /** The answers the components of a combination give on their own. */
  function AnswerSet(parts: seq<Schedule>, after: int, draws: nat -> nat, base: nat, fuel: nat)
    : set<Outcome<Option<int>>>
    requires AllValid(parts)
  {
    set x | x in parts :: NextOccurrence(x, after, draws, base, fuel)
  }

  /** `r` aborts exactly when some answer in `answers` does, and is otherwise
      the least `Some` among them, or `None` when there is none. */
  predicate LeastAnswer(r: Outcome<Option<int>>, answers: set<Outcome<Option<int>>>) {
    && (r.Returned? <==> forall o | o in answers :: o.Returned?)
    && (r.Returned? && r.value.Some? ==> r in answers)
    && (r.Returned? ==>
          forall o | o in answers && o.Returned? && o.value.Some? :: r.value.Some? && r.value.value <= o.value.value)
  }

  /** Without random leaves, the combination is determined by the set of
      answers its components give on their own. */
  lemma CombinedByMembers(parts: seq<Schedule>, after: int, draws: nat -> nat, base: nat, fuel: nat)
    requires AllValid(parts) && RandomLeavesAll(parts) == 0
    ensures LeastAnswer(NextOccurrence(Combined(parts), after, draws, base, fuel),
                        AnswerSet(parts, after, draws, base, fuel))
  {
    var S := AnswerSet(parts, after, draws, base, fuel);
    forall k | 0 <= k < |parts|
      ensures AnswerOf(parts, k, after, draws, base, fuel) == NextOccurrence(parts[k], after, draws, base, fuel)
    {
      AnswerOfDrawFree(parts, k, after, draws, base, fuel);
    }
    CombinedIsEarliest(parts, after, draws, base, fuel);
    forall o | o in S
      ensures exists k | 0 <= k < |parts| :: AnswerOf(parts, k, after, draws, base, fuel) == o
    {
      var x :| x in parts && NextOccurrence(x, after, draws, base, fuel) == o;
      var k :| 0 <= k < |parts| && parts[k] == x;
      assert AnswerOf(parts, k, after, draws, base, fuel) == o;
    }
    forall k | 0 <= k < |parts|
      ensures AnswerOf(parts, k, after, draws, base, fuel) in S
    {
      assert parts[k] in parts;
    }
    var r := NextOccurrence(Combined(parts), after, draws, base, fuel);
    if r.Returned? && r.value.Some? {
      var k :| 0 <= k < |parts| && AnswerOf(parts, k, after, draws, base, fuel).value == r.value;
      assert AnswerOf(parts, k, after, draws, base, fuel) == r;
    }
  }

  /** Reordering (or regrouping duplicates of) the components of a
      combination without random leaves does not change its answer: the
      fold's strict comparison only decides which of two equal instants is
      kept, and equal instants are indistinguishable. */
  lemma CombinedOrderIrrelevant(a: seq<Schedule>, b: seq<Schedule>, after: int, draws: nat -> nat, base: nat,
                                fuel: nat)
    requires AllValid(a) && RandomLeavesAll(a) == 0 && multiset(a) == multiset(b)
    ensures AllValid(b) && RandomLeavesAll(b) == 0
    ensures var ra := NextOccurrence(Combined(a), after, draws, base, fuel);
            var rb := NextOccurrence(Combined(b), after, draws, base, fuel);
            (ra.Returned? <==> rb.Returned?) && (ra.Returned? ==> ra == rb)
  {
    SameMembers(a, b);
    NoLeavesEach(a);
    forall k | 0 <= k < |b| ensures Valid(b[k]) && RandomLeaves(b[k]) == 0 {
      assert b[k] in a;
      var i :| 0 <= i < |a| && a[i] == b[k];
    }
    NoLeavesEach(b);
    assert AnswerSet(a, after, draws, base, fuel) == AnswerSet(b, after, draws, base, fuel);
    CombinedByMembers(a, after, draws, base, fuel);
    CombinedByMembers(b, after, draws, base, fuel);
    LeastIsUnique(NextOccurrence(Combined(a), after, draws, base, fuel),
                  NextOccurrence(Combined(b), after, draws, base, fuel),
                  AnswerSet(a, after, draws, base, fuel));
  }

  lemma LeastIsUnique(ra: Outcome<Option<int>>, rb: Outcome<Option<int>>, answers: set<Outcome<Option<int>>>)
    requires LeastAnswer(ra, answers) && LeastAnswer(rb, answers)
    ensures ra.Returned? <==> rb.Returned?
    ensures ra.Returned? ==> ra == rb
  {
    if ra.Returned? && ra.value.Some? {
      assert rb.value.Some? && rb.value.value <= ra.value.value;
      assert ra.value.value <= rb.value.value;
    }
  }

  lemma SameMembers(a: seq<Schedule>, b: seq<Schedule>)
    requires multiset(a) == multiset(b)
    ensures forall x :: x in a <==> x in b
  {
    forall x ensures x in a <==> x in b {
      assert x in a <==> x in multiset(a);
      assert x in b <==> x in multiset(b);
    }
  }
}
