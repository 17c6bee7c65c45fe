/** Retrying with exponential back-off: `execute`, and the policy of the library it configures
    (multiplier 1.5, randomisation factor 0.5). Times are whole nanoseconds, as in the library. */
module Backoff {
  import opened Text
  import opened Etcd

  const INITIAL_INTERVAL: nat := 1_000_000_000
  const MAX_INTERVAL: nat := 5_000_000_000
  const MAX_ELAPSED: nat := 30_000_000_000
  const MAX_ATTEMPTS: nat := 15
  const MIN_ATTEMPTS: nat := 7

  /** The interval grows by half until it reaches the maximum. */
  function Grow(interval: nat): nat {
    if interval * 3 >= MAX_INTERVAL * 2 then MAX_INTERVAL else interval * 3 / 2
  }

  /** A random sleep between half and one and a half times the interval; `random` is arbitrary. */
  function Jitter(interval: nat, random: nat): (sleep: nat)
    ensures interval / 2 <= sleep <= interval / 2 + interval
  {
    interval / 2 + random % (interval + 1)
  }

  /** Every sleep in that range is drawn for some random value. */
  lemma JitterCovers(interval: nat, sleep: nat)
    requires interval / 2 <= sleep <= interval / 2 + interval
    ensures Jitter(interval, sleep - interval / 2) == sleep
  {
  }

  function Interval(k: nat): nat {
    if k == 0 then INITIAL_INTERVAL else Grow(Interval(k - 1))
  }

  /** The least time that the first k sleeps can take together. */
  function LeastSlept(k: nat): nat {
    if k == 0 then 0 else LeastSlept(k - 1) + Interval(k - 1) / 2
  }

  /** The intervals before the maximum is reached. */
  lemma FirstIntervals()
    ensures Interval(0) == 1_000_000_000 && Interval(1) == 1_500_000_000
    ensures Interval(2) == 2_250_000_000 && Interval(3) == 3_375_000_000
  {
    assert Interval(1) == 1_500_000_000;
    assert Interval(2) == 2_250_000_000;
  }

  lemma {:induction false} IntervalSettles(k: nat)
    requires k >= 4
    ensures Interval(k) == MAX_INTERVAL
  {
    if k == 4 {
      FirstIntervals();
    } else {
      IntervalSettles(k - 1);
    }
  }

  lemma {:induction false} LeastSleptLinear(k: nat)
    requires k >= 4
    ensures LeastSlept(k) == 4_062_500_000 + (k - 4) * 2_500_000_000
  {
    if k == 4 {
      FirstIntervals();
      assert LeastSlept(1) == 500_000_000;
      assert LeastSlept(2) == 1_250_000_000;
      assert LeastSlept(3) == 2_375_000_000;
    } else {
      LeastSleptLinear(k - 1);
      IntervalSettles(k - 1);
    }
  }

  /** Fourteen sleeps fit into the budget if all are as short as can be; fifteen never do. */
  lemma SleepsInBudget(k: nat)
    ensures LeastSlept(k) <= MAX_ELAPSED <==> k < MAX_ATTEMPTS
  {
    if k >= 4 {
      LeastSleptLinear(k);
    } else {
      LeastSleptLinear(4);
      assert LeastSlept(3) <= LeastSlept(4);
      assert LeastSlept(2) <= LeastSlept(3);
      assert LeastSlept(1) <= LeastSlept(2);
    }
  }

  /** A sleep that the policy may draw before retry n, counted from 0. */
  predicate MaySleep(sleep: nat, n: nat) {
    Interval(n) / 2 <= sleep <= Interval(n) / 2 + Interval(n)
  }

  /** The log has grown by n sleeps of the policy. */
  ghost predicate Slept(before: seq<nat>, after: seq<nat>, n: nat) {
    if n == 0 then after == before
    else after != [] && MaySleep(after[|after| - 1], n - 1) && Slept(before, after[..|after| - 1], n - 1)
  }

  lemma SleptNext(before: seq<nat>, after: seq<nat>, n: nat, sleep: nat)
    requires Slept(before, after, n) && MaySleep(sleep, n)
    ensures Slept(before, after + [sleep], n + 1)
  {
    assert (after + [sleep])[..|after|] == after;
  }

  /** The most time that the first k sleeps can take together. */
  function MostSlept(k: nat): nat {
    if k == 0 then 0 else MostSlept(k - 1) + Interval(k - 1) / 2 + Interval(k - 1)
  }

  /** Six sleeps always fit into the budget. */
  lemma SixSleepsFit(k: nat)
    requires MostSlept(k) > MAX_ELAPSED
    ensures k >= MIN_ATTEMPTS
  {
    FirstIntervals();
    IntervalSettles(4);
    IntervalSettles(5);
    assert MostSlept(1) == 1_500_000_000;
    assert MostSlept(2) == 3_750_000_000;
    assert MostSlept(3) == 7_125_000_000;
    assert MostSlept(4) == 12_187_500_000;
    assert MostSlept(5) == 19_687_500_000;
    assert MostSlept(6) == 27_187_500_000;
  }

  /** `backoff.ExponentialBackOff`. */
  class ExponentialBackOff {
    var currentInterval: nat
    var startTime: Time
    ghost var sleeps: nat

    ghost predicate Valid()
      reads this
    {
      currentInterval == Interval(sleeps)
    }

    constructor (now: Time)
      ensures Valid() && sleeps == 0 && startTime == now
    {
      currentInterval := INITIAL_INTERVAL;
      startTime := now;
      sleeps := 0;
    }

    /** The next sleep, or None when it would end after the budget. */
    method NextBackOff(now: Time, random: nat) returns (next: Option<nat>)
      requires Valid() && startTime <= now
      modifies this
      ensures Valid() && sleeps == old(sleeps) + 1 && startTime == old(startTime)
      ensures var sleep := Jitter(Interval(old(sleeps)), random);
        next == if now + sleep > startTime + MAX_ELAPSED then None else Some(sleep)
    {
      var elapsed := now - startTime;
      var sleep := Jitter(currentInterval, random);
      currentInterval := Grow(currentInterval);
      sleeps := sleeps + 1;
      if elapsed + sleep > MAX_ELAPSED {
        next := None;
      } else {
        next := Some(sleep);
      }
    }
  }

  /** After a failed attempt: the time of the next attempt, or None when the budget is spent. */
  method Pause(b: ExponentialBackOff, now: Time, random: nat) returns (next: Option<Time>)
    requires b.Valid() && b.startTime + LeastSlept(b.sleeps) <= now
    modifies b
    ensures b.Valid() && b.sleeps == old(b.sleeps) + 1 && b.startTime == old(b.startTime)
    ensures next.Some? ==> InBudget(b.startTime, b.sleeps, next.value)
    ensures var then' := now + Jitter(Interval(old(b.sleeps)), random);
      next == if then' > b.startTime + MAX_ELAPSED then None else Some(then')
  {
    var sleep := b.NextBackOff(now, random);
    if sleep.None? {
      return None;
    }
    SleepsInBudget(b.sleeps);
    next := Some(now + sleep.value);
  }

  /** The time of an attempt after so many sleeps. */
  predicate InBudget(began: Time, sleeps: nat, now: Time) {
    sleeps < MAX_ATTEMPTS && began + LeastSlept(sleeps) <= now <= began + MAX_ELAPSED
  }

  /** After so many sleeps, the longest next one would end after the budget. */
  predicate EndsLate(began: Time, sleeps: nat, now: Time) {
    now + Interval(sleeps) / 2 + Interval(sleeps) > began + MAX_ELAPSED
  }

  // --------------------------------------------------------------------- execute

  /** What one call of an operation leaves behind: the world, an error or none, the time it took. */
  datatype Outcome<W, E> = Outcome(world: W, err: Option<E>, took: nat)

  type Operation<!W, E> = W -> Outcome<W, E>

  /** The world after n attempts in a row. */
  function Attempts<W, E>(o: Operation<W, E>, w: W, n: nat): W {
    if n == 0 then w else o(Attempts(o, w, n - 1)).world
  }

  function AttemptError<W, E>(o: Operation<W, E>, w: W, k: nat): Option<E> {
    o(Attempts(o, w, k)).err
  }

  predicate AllFailed<W, E>(o: Operation<W, E>, w: W, n: nat) {
    n == 0 || (AllFailed(o, w, n - 1) && AttemptError(o, w, n - 1).Some?)
  }

  /** The time at which the attempt after n others starts, if the last of those started at `last`. */
  function NextStart<W, E>(o: Operation<W, E>, w: W, random: nat -> nat, n: nat, last: Time): Time
    requires n > 0
  {
    last + o(Attempts(o, w, n - 1)).took + Jitter(Interval(n - 1), random(n - 1))
  }

  /** The first attempt starts at `began`, every other after the one before and the sleep drawn. */
  ghost predicate Due<W, E>(o: Operation<W, E>, w: W, random: nat -> nat, starts: seq<Time>, began: Time, now: Time) {
    now == if starts == [] then began else NextStart(o, w, random, |starts|, starts[|starts| - 1])
  }

  /** The starting times of the attempts, exactly, all within the budget. */
  ghost predicate Schedule<W, E>(o: Operation<W, E>, w: W, random: nat -> nat, starts: seq<Time>, began: Time) {
    if starts == [] then true
    else
      var n := |starts| - 1;
      && Schedule(o, w, random, starts[..n], began)
      && Due(o, w, random, starts[..n], began, starts[n])
      && starts[n] <= began + MAX_ELAPSED
  }

  /** The next attempt may start now. */
  ghost predicate OnTime<W, E>(o: Operation<W, E>, w: W, random: nat -> nat, starts: seq<Time>,
                               began: Time, now: Time) {
    && Schedule(o, w, random, starts, began)
    && Due(o, w, random, starts, began, now)
    && InBudget(began, |starts|, now)
  }

  lemma ScheduleAppend<W, E>(o: Operation<W, E>, w: W, random: nat -> nat, starts: seq<Time>, began: Time, now: Time)
    requires OnTime(o, w, random, starts, began, now)
    ensures Schedule(o, w, random, starts + [now], began) && |starts + [now]| <= MAX_ATTEMPTS
  {
    assert (starts + [now])[..|starts|] == starts;
  }

  /** The next attempt would start after the budget. */
  ghost predicate GaveUpLate<W, E>(o: Operation<W, E>, w: W, random: nat -> nat, starts: seq<Time>, began: Time) {
    starts != [] && NextStart(o, w, random, |starts|, starts[|starts| - 1]) > began + MAX_ELAPSED
  }

  /** After the attempt at `now`, which took so long: the next one is on time, or it would be too late. */
  lemma NextAfter<W, E>(o: Operation<W, E>, w: W, random: nat -> nat, starts: seq<Time>, began: Time,
                        n: nat, now: Time, took: nat, next: Option<Time>)
    requires Schedule(o, w, random, starts, began) && |starts| == n + 1 && starts[n] == now
    requires took == o(Attempts(o, w, n)).took
    requires var then' := now + took + Jitter(Interval(n), random(n));
      next == if then' > began + MAX_ELAPSED then None else Some(then')
    requires next.Some? ==> InBudget(began, n + 1, next.value)
    ensures if next.None? then GaveUpLate(o, w, random, starts, began)
            else OnTime(o, w, random, starts, began, next.value)
  {
    assert NextStart(o, w, random, |starts|, starts[|starts| - 1]) == now + took + Jitter(Interval(n), random(n));
  }

  ghost predicate Instantaneous<W(!new), E>(o: Operation<W, E>) {
    forall w :: o(w).took == 0
  }

  lemma {:induction false} StartsSoon<W(!new), E>(o: Operation<W, E>, w: W, random: nat -> nat, starts: seq<Time>,
      began: Time)
    requires Instantaneous(o) && Schedule(o, w, random, starts, began) && starts != []
    ensures starts[|starts| - 1] <= began + MostSlept(|starts| - 1)
    decreases |starts|
  {
    if |starts| > 1 {
      StartsSoon(o, w, random, starts[..|starts| - 1], began);
    }
  }

  /** Instantaneous operations are given up after seven attempts at the earliest. */
  lemma AtLeastSeven<W(!new), E>(o: Operation<W, E>, w: W, random: nat -> nat, starts: seq<Time>, began: Time)
    requires Instantaneous(o) && Schedule(o, w, random, starts, began) && GaveUpLate(o, w, random, starts, began)
    ensures |starts| >= MIN_ATTEMPTS
  {
    StartsSoon(o, w, random, starts, began);
    SixSleepsFit(|starts|);
  }

  lemma {:induction false} FirstStart<W, E>(o: Operation<W, E>, w: W, random: nat -> nat, starts: seq<Time>,
      began: Time)
    requires Schedule(o, w, random, starts, began) && starts != []
    ensures starts[0] == began
    decreases |starts|
  {
    if |starts| > 1 {
      FirstStart(o, w, random, starts[..|starts| - 1], began);
    }
  }

  /** Each attempt starts between half and one and a half times its interval after the end of the one before. */
  lemma {:induction false} SleepsBounded<W, E>(o: Operation<W, E>, w: W, random: nat -> nat, starts: seq<Time>,
      began: Time, n: nat)
    requires Schedule(o, w, random, starts, began) && n + 1 < |starts|
    ensures var (end, interval) := (starts[n] + o(Attempts(o, w, n)).took, Interval(n));
      end + interval / 2 <= starts[n + 1] <= end + interval / 2 + interval
    decreases |starts|
  {
    if n + 2 < |starts| {
      SleepsBounded(o, w, random, starts[..|starts| - 1], began, n);
    }
  }

  /** n attempts were made, all but the last failed, and the last one left w' and err. */
  ghost predicate Tried<W, E>(o: Operation<W, E>, w: W, n: nat, w': W, err: Option<E>) {
    n > 0 && w' == Attempts(o, w, n) && err == AttemptError(o, w, n - 1) && AllFailed(o, w, n - 1)
  }

  /** Another attempt is due: none was made yet, or all of them failed. */
  ghost predicate Pending<W, E>(o: Operation<W, E>, w: W, n: nat, w': W, err: Option<E>) {
    if n == 0 then w' == w else Tried(o, w, n, w', err) && err.Some?
  }

  lemma TriedNext<W, E>(o: Operation<W, E>, w: W, n: nat, w': W, err: Option<E>)
    requires Pending(o, w, n, w', err)
    ensures Tried(o, w, n + 1, o(w').world, o(w').err)
    ensures o(Attempts(o, w, n)) == o(w')
  {
    assert Attempts(o, w, 0) == w;
  }

  /** `execute`: attempts at exactly the scheduled times, at most fifteen, whatever the operation
      takes and however the sleeps fall; none starts more than 30 s after the first; it stops at the
      first success or when the next attempt would start too late. */
  method Execute<W, E>(o: Operation<W, E>, w: W, noBackoff: bool, random: nat -> nat, began: Time)
      returns (w': W, err: Option<E>, starts: seq<Time>)
    ensures 1 <= |starts| <= MAX_ATTEMPTS && Schedule(o, w, random, starts, began)
    ensures noBackoff ==> |starts| == 1
    ensures Tried(o, w, |starts|, w', err)
    ensures err.Some? && !noBackoff ==> GaveUpLate(o, w, random, starts, began)
  {
    var b := new ExponentialBackOff(began);
    var now: Time, n: nat := began, 0;
    w', err, starts := w, None, [];
    while true
      invariant b.Valid() && b.sleeps == n == |starts| && b.startTime == began
      invariant OnTime(o, w, random, starts, began, now)
      invariant noBackoff ==> n == 0
      invariant Pending(o, w, n, w', err)
      decreases MAX_ATTEMPTS - n
    {
      var r := o(w');
      TriedNext(o, w, n, w', err);
      ScheduleAppend(o, w, random, starts, began, now);
      w', err, starts := r.world, r.err, starts + [now];
      if err.None? || noBackoff {
        return;
      }
      var next := Pause(b, now + r.took, random(n));
      NextAfter(o, w, random, starts, began, n, now, r.took, next);
      if next.None? {
        return;
      }
      now, n := next.value, n + 1;
    }
  }
}
